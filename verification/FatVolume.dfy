/** Bringing every directory of a FAT32 volume in line with the specification, in
    place, down a tree of directories (initrd.rs). */
module FatVolume {

  import opened Bytes
  import opened Numbers
  import opened FatChain
  import opened FatDir
  import opened Options

  /** What a walk down the directories meets: a directory's clusters and its
      subdirectories in order, or a directory with no chain to read. */
  datatype Tree = Broken | Directory(chain: seq<nat>, kids: seq<Tree>)

  // ---- Clusters and their bytes ----

  predicate InCluster(g: Geometry, c: nat, i: nat) {
    c >= 2 && g.Offset(c) <= i < g.Offset(c) + g.clusterBytes
  }

  /** The cluster lies inside an image of `length` bytes. */
  predicate ClusterFits(g: Geometry, length: nat, c: nat) {
    c >= 2 && g.Offset(c) + g.clusterBytes <= length
  }

  ghost predicate Within(g: Geometry, length: nat, chain: seq<nat>) {
    forall i :: 0 <= i < |chain| ==> ClusterFits(g, length, chain[i])
  }

  /** The bytes of a cluster; a cluster outside the image has none. */
  function Block(image: seq<Byte>, g: Geometry, c: nat): seq<Byte> {
    if ClusterFits(g, |image|, c) then image[g.Offset(c)..g.Offset(c) + g.clusterBytes] else []
  }

  function Content(image: seq<Byte>, g: Geometry, chain: seq<nat>): seq<Byte> {
    if chain == [] then []
    else Content(image, g, chain[..|chain| - 1]) + Block(image, g, chain[|chain| - 1])
  }

  /** Every cluster of the set has the same bytes in both images. */
  ghost predicate Same(a: seq<Byte>, b: seq<Byte>, g: Geometry, s: set<nat>) {
    forall c :: c in s ==> Block(a, g, c) == Block(b, g, c)
  }

  ghost predicate Outside(g: Geometry, s: set<nat>, i: nat) {
    forall c :: c in s ==> !InCluster(g, c, i)
  }

  /** Two images that differ in no byte outside the clusters of the set. */
  ghost predicate Frame(a: seq<Byte>, b: seq<Byte>, g: Geometry, s: set<nat>) {
    |a| == |b| && forall i :: 0 <= i < |a| && Outside(g, s, i) ==> a[i] == b[i]
  }

  function SetOf(chain: seq<nat>): set<nat> {
    set c | c in chain
  }

  /** Where the FAT has the entry of some cluster. */
  predicate InFat(g: Geometry, i: nat) {
    g.fatStart <= i < g.fatStart + (g.maxCluster + 1) * 4
  }

  /** No FAT entry lies in these clusters. */
  ghost predicate FatApart(g: Geometry, s: set<nat>) {
    forall i: nat :: InFat(g, i) ==> Outside(g, s, i)
  }

  lemma OffsetsInOrder(g: Geometry, c: nat, d: nat)
    requires 2 <= c < d
    ensures g.Offset(c) + g.clusterBytes <= g.Offset(d)
  {
    Monotone(c - 1, d - 2, g.clusterBytes);
    assert (c - 1) * g.clusterBytes == (c - 2) * g.clusterBytes + g.clusterBytes;
  }

  lemma ClustersApart(g: Geometry, c: nat, d: nat, i: nat)
    requires InCluster(g, c, i) && InCluster(g, d, i)
    ensures c == d
  {
    if c < d {
      OffsetsInOrder(g, c, d);
    } else if d < c {
      OffsetsInOrder(g, d, c);
    }
  }

  lemma FrameKeepsBlock(a: seq<Byte>, b: seq<Byte>, g: Geometry, s: set<nat>, c: nat)
    requires Frame(a, b, g, s) && c !in s
    ensures Block(a, g, c) == Block(b, g, c)
  {
    if ClusterFits(g, |a|, c) {
      forall i: nat | g.Offset(c) <= i < g.Offset(c) + g.clusterBytes ensures a[i] == b[i] {
        forall d | d in s ensures !InCluster(g, d, i) {
          if InCluster(g, d, i) {
            ClustersApart(g, c, d, i);
          }
        }
        assert Outside(g, s, i);
      }
    }
  }

  lemma FrameKeepsSet(a: seq<Byte>, b: seq<Byte>, g: Geometry, s: set<nat>, t: set<nat>)
    requires Frame(a, b, g, s) && s !! t
    ensures Same(a, b, g, t)
  {
    forall c | c in t ensures Block(a, g, c) == Block(b, g, c) {
      FrameKeepsBlock(a, b, g, s, c);
    }
  }

  lemma BeforeData(g: Geometry, c: nat, i: nat)
    requires i < g.dataStart
    ensures !InCluster(g, c, i)
  {
    if c >= 2 {
      Monotone(0, c - 2, g.clusterBytes);
    }
  }

  /** A FAT that lies before the data with an entry for every cluster is apart from all of them. */
  lemma FatBeforeData(g: Geometry, s: set<nat>)
    requires g.fatStart + (g.maxCluster + 1) * 4 <= g.dataStart
    ensures FatApart(g, s)
  {
    forall i: nat | InFat(g, i) ensures Outside(g, s, i) {
      forall c | c in s ensures !InCluster(g, c, i) {
        BeforeData(g, c, i);
      }
    }
  }

  lemma FrameKeepsStart(a: seq<Byte>, b: seq<Byte>, g: Geometry, s: set<nat>)
    requires Frame(a, b, g, s) && g.dataStart <= |a|
    ensures a[..g.dataStart] == b[..g.dataStart]
  {
    forall i: nat | i < g.dataStart ensures a[i] == b[i] {
      forall c | c in s ensures !InCluster(g, c, i) {
        BeforeData(g, c, i);
      }
      assert Outside(g, s, i);
    }
  }

  lemma FrameTwice(a: seq<Byte>, b: seq<Byte>, c: seq<Byte>, g: Geometry, s: set<nat>, t: set<nat>, u: set<nat>)
    requires Frame(a, b, g, s) && Frame(b, c, g, t) && s <= u && t <= u
    ensures Frame(a, c, g, u)
  {
    forall i: nat | i < |a| && Outside(g, u, i) ensures a[i] == c[i] {
      assert Outside(g, s, i) && Outside(g, t, i);
    }
  }

  /** Images that differ in no cluster of the set, and nowhere else, are the same. */
  lemma FrameAndSame(a: seq<Byte>, b: seq<Byte>, g: Geometry, s: set<nat>)
    requires Frame(a, b, g, s) && Same(a, b, g, s)
    requires forall c :: c in s ==> ClusterFits(g, |a|, c)
    ensures a == b
  {
    forall i: nat | i < |a| ensures a[i] == b[i] {
      if !Outside(g, s, i) {
        var c :| c in s && InCluster(g, c, i);
        assert Block(a, g, c)[i - g.Offset(c)] == a[i] && Block(b, g, c)[i - g.Offset(c)] == b[i];
      }
    }
  }

  lemma {:induction false} ContentSame(a: seq<Byte>, b: seq<Byte>, g: Geometry, chain: seq<nat>)
    requires Same(a, b, g, SetOf(chain))
    ensures Content(a, g, chain) == Content(b, g, chain)
  {
    if chain != [] {
      var last := |chain| - 1;
      assert chain[last] in SetOf(chain) && SetOf(chain[..last]) <= SetOf(chain);
      ContentSame(a, b, g, chain[..last]);
    }
  }

  lemma {:induction false} SameContent(a: seq<Byte>, b: seq<Byte>, g: Geometry, chain: seq<nat>)
    requires |a| == |b| && Content(a, g, chain) == Content(b, g, chain)
    ensures Same(a, b, g, SetOf(chain))
  {
    if chain != [] {
      var last := |chain| - 1;
      var (x, y) := (Content(a, g, chain[..last]), Content(b, g, chain[..last]));
      assert |Block(a, g, chain[last])| == |Block(b, g, chain[last])|;
      assert Content(a, g, chain)[..|x|] == x && Content(b, g, chain)[..|y|] == y;
      assert Content(a, g, chain)[|x|..] == Block(a, g, chain[last]);
      assert Content(b, g, chain)[|y|..] == Block(b, g, chain[last]);
      SameContent(a, b, g, chain[..last]);
      forall c | c in SetOf(chain) ensures Block(a, g, c) == Block(b, g, c) {
        assert c == chain[last] || c in chain[..last];
      }
    }
  }

  lemma Distribute(n: nat, k: nat)
    ensures (n + 1) * k == n * k + k
  {
  }

  lemma {:induction false} ContentLength(image: seq<Byte>, g: Geometry, chain: seq<nat>)
    requires Within(g, |image|, chain)
    ensures |Content(image, g, chain)| == |chain| * g.clusterBytes
  {
    if chain != [] {
      var last := |chain| - 1;
      ContentLength(image, g, chain[..last]);
      assert ClusterFits(g, |image|, chain[last]);
      assert |Block(image, g, chain[last])| == g.clusterBytes;
      Distribute(last, g.clusterBytes);
    }
  }

  // ---- Reading and writing a directory ----

  method ReadContent(image: array<Byte>, g: Geometry, chain: seq<nat>) returns (buf: seq<Byte>)
    requires Within(g, image.Length, chain)
    ensures buf == Content(image[..], g, chain)
  {
    buf := [];
    for k := 0 to |chain|
      invariant buf == Content(image[..], g, chain[..k])
    {
      var offset := g.Offset(chain[k]);
      buf := buf + image[offset..offset + g.clusterBytes];
      assert chain[..k + 1][..k] == chain[..k];
      assert Block(image[..], g, chain[k]) == image[offset..offset + g.clusterBytes];
    }
    assert chain[..|chain|] == chain;
  }

  /** One cluster written, the others as they were. */
  lemma BlockWritten(a: seq<Byte>, b: seq<Byte>, g: Geometry, c: nat, piece: seq<Byte>, done: seq<nat>)
    requires ClusterFits(g, |a|, c) && |piece| == g.clusterBytes
    requires b == a[..g.Offset(c)] + piece + a[g.Offset(c) + g.clusterBytes..]
    requires c !in done
    ensures Frame(a, b, g, {c}) && Content(b, g, done + [c]) == Content(a, g, done) + piece
  {
    forall i: nat | i < |a| && Outside(g, {c}, i) ensures a[i] == b[i] {
      assert c in {c};
    }
    FrameKeepsSet(a, b, g, {c}, SetOf(done));
    ContentSame(a, b, g, done);
    assert Block(b, g, c) == piece;
    assert (done + [c])[..|done|] == done;
  }

  /** The image while a directory is written back: the first `k` clusters are there. */
  ghost predicate Written(was: seq<Byte>, now: seq<Byte>, g: Geometry, chain: seq<nat>, buf: seq<Byte>, k: nat, from: nat)
    requires k <= |chain| && from <= |buf|
  {
    Content(now, g, chain[..k]) == buf[..from] && Frame(was, now, g, SetOf(chain))
  }

  lemma WrittenStep(was: seq<Byte>, a: seq<Byte>, b: seq<Byte>, g: Geometry, chain: seq<nat>, buf: seq<Byte>, k: nat, from: nat)
    requires k < |chain| && from + g.clusterBytes <= |buf| && Distinct(chain) && Within(g, |a|, chain)
    requires Written(was, a, g, chain, buf, k, from)
    requires b == a[..g.Offset(chain[k])] + buf[from..from + g.clusterBytes] + a[g.Offset(chain[k]) + g.clusterBytes..]
    ensures Written(was, b, g, chain, buf, k + 1, from + g.clusterBytes)
  {
    hide Content, Frame;
    BlockWritten(a, b, g, chain[k], buf[from..from + g.clusterBytes], chain[..k]);
    assert chain[..k] + [chain[k]] == chain[..k + 1];
    FrameTwice(was, a, b, g, SetOf(chain), {chain[k]}, SetOf(chain));
  }

  method WriteContent(image: array<Byte>, g: Geometry, chain: seq<nat>, buf: seq<Byte>)
    requires Within(g, image.Length, chain) && Distinct(chain) && |buf| == |chain| * g.clusterBytes
    modifies image
    ensures Content(image[..], g, chain) == buf
    ensures Frame(old(image[..]), image[..], g, SetOf(chain))
  {
    ghost var was := image[..];
    for k := 0 to |chain|
      invariant 0 <= k * g.clusterBytes <= |buf|
      invariant Written(was, image[..], g, chain, buf, k, k * g.clusterBytes)
    {
      ghost var before := image[..];
      Monotone(k + 1, |chain|, g.clusterBytes);
      Distribute(k, g.clusterBytes);
      var from := k * g.clusterBytes;
      Copy(image, g.Offset(chain[k]), buf[from..from + g.clusterBytes]);
      WrittenStep(was, before, image[..], g, chain, buf, k, from);
    }
    assert chain[..|chain|] == chain && buf[..|buf|] == buf;
  }

  // ---- Trees of directories ----

  ghost function Clusters(tree: Tree): set<nat> {
    match tree
    case Broken => {}
    case Directory(chain, kids) => SetOf(chain) + set i, c | 0 <= i < |kids| && c in Clusters(kids[i]) :: c
  }

  /** No cluster belongs to two directories. */
  ghost predicate Apart(tree: Tree) {
    match tree
    case Broken => true
    case Directory(chain, kids) =>
      && (forall i :: 0 <= i < |kids| ==> Apart(kids[i]) && Clusters(kids[i]) !! SetOf(chain))
      && forall i, j :: 0 <= i < j < |kids| ==> Clusters(kids[i]) !! Clusters(kids[j])
  }

  /** Every directory of the tree can be read. */
  ghost predicate Sound(tree: Tree) {
    match tree
    case Broken => false
    case Directory(chain, kids) => forall i :: 0 <= i < |kids| ==> Sound(kids[i])
  }

  /** What the image has from the directory at `first` down. */
  ghost predicate Describes(image: seq<Byte>, g: Geometry, first: nat, tree: Tree)
    decreases tree
  {
    match tree
    case Broken => NoChain(image, g, first)
    case Directory(chain, kids) =>
      && IsChain(image, g, first, chain)
      && var below := SubdirectoriesOf(Content(image, g, chain));
         |kids| == |below| && forall i :: 0 <= i < |kids| ==> Describes(image, g, below[i], kids[i])
  }

  /** The bytes a directory has to end up with: the root has no "." or "..". */
  function Right(content: seq<Byte>, g: Geometry, parent: Option<nat>): seq<Byte> {
    if parent.None? then content else Tidy(content, parent.value == g.rootCluster)
  }

  /** Every directory of the tree ends up right, or, unless `all`, at least as it was. */
  ghost predicate Tidied(a: seq<Byte>, b: seq<Byte>, g: Geometry, tree: Tree, parent: Option<nat>, all: bool) {
    match tree
    case Broken => true
    case Directory(chain, kids) =>
      && chain != []
      && (Content(b, g, chain) == Right(Content(a, g, chain), g, parent) ||
          (!all && Content(b, g, chain) == Content(a, g, chain)))
      && forall i :: 0 <= i < |kids| ==> Tidied(a, b, g, kids[i], Some(chain[0]), all)
  }

  lemma KidClusters(tree: Tree, i: nat)
    requires tree.Directory? && i < |tree.kids|
    ensures Clusters(tree.kids[i]) <= Clusters(tree) && SetOf(tree.chain) <= Clusters(tree)
  {
  }

  // ---- What leaves a tree alone ----

  /** The FAT is the same in both images. */
  ghost predicate SameFat(a: seq<Byte>, b: seq<Byte>, g: Geometry) {
    |a| == |b| && forall i: nat :: InFat(g, i) && i < |a| ==> a[i] == b[i]
  }

  lemma FrameKeepsFat(a: seq<Byte>, b: seq<Byte>, g: Geometry, s: set<nat>)
    requires Frame(a, b, g, s) && FatApart(g, s)
    ensures SameFat(a, b, g)
  {
  }

  lemma FatApartFewer(g: Geometry, s: set<nat>, t: set<nat>)
    requires FatApart(g, s) && t <= s
    ensures FatApart(g, t)
  {
    forall i: nat | InFat(g, i) ensures Outside(g, t, i) {
      assert Outside(g, s, i);
    }
  }

  lemma SameNext(a: seq<Byte>, b: seq<Byte>, g: Geometry, c: nat)
    requires SameFat(a, b, g) && c <= g.maxCluster && Readable(a, g, c)
    ensures Readable(b, g, c) && Next(a, g, c) == Next(b, g, c)
  {
    var at := g.fatStart + c * 4;
    assert InFat(g, at) && InFat(g, at + 1) && InFat(g, at + 2) && InFat(g, at + 3);
  }

  lemma SameChain(a: seq<Byte>, b: seq<Byte>, g: Geometry, first: nat, chain: seq<nat>)
    requires SameFat(a, b, g) && IsChain(a, g, first, chain)
    ensures IsChain(b, g, first, chain)
  {
    forall i | 0 <= i < |chain|
      ensures Readable(b, g, chain[i]) && Readable(a, g, chain[i]) && Next(b, g, chain[i]) == Next(a, g, chain[i])
    {
      SameNext(a, b, g, chain[i]);
    }
  }

  lemma SameNoChain(a: seq<Byte>, b: seq<Byte>, g: Geometry, first: nat)
    requires SameFat(a, b, g) && NoChain(a, g, first)
    ensures NoChain(b, g, first)
  {
    forall chain ensures !IsChain(b, g, first, chain) {
      if IsChain(b, g, first, chain) {
        SameChain(b, a, g, first, chain);
      }
    }
  }

  /** Writing elsewhere does not change what the image has below. */
  lemma {:induction false} DescribesSame(a: seq<Byte>, b: seq<Byte>, g: Geometry, first: nat, tree: Tree)
    requires SameFat(a, b, g) && Same(a, b, g, Clusters(tree)) && Describes(a, g, first, tree)
    ensures Describes(b, g, first, tree)
    decreases tree
  {
    match tree
    case Broken =>
      SameNoChain(a, b, g, first);
    case Directory(chain, kids) =>
      SameChain(a, b, g, first, chain);
      ContentSame(a, b, g, chain);
      var below := SubdirectoriesOf(Content(a, g, chain));
      forall i | 0 <= i < |kids| ensures Describes(b, g, below[i], kids[i]) {
        KidClusters(tree, i);
        DescribesSame(a, b, g, below[i], kids[i]);
      }
  }

  /** Only the clusters of the tree matter to whether it is right. */
  lemma {:induction false} TidiedSame(a: seq<Byte>, b: seq<Byte>, a': seq<Byte>, b': seq<Byte>,
                                      g: Geometry, tree: Tree, parent: Option<nat>, all: bool)
    requires Same(a, a', g, Clusters(tree)) && Same(b, b', g, Clusters(tree))
    requires Tidied(a, b, g, tree, parent, all)
    ensures Tidied(a', b', g, tree, parent, all)
    decreases tree
  {
    match tree
    case Broken =>
    case Directory(chain, kids) =>
      ContentSame(a, a', g, chain);
      ContentSame(b, b', g, chain);
      forall i | 0 <= i < |kids| ensures Tidied(a', b', g, kids[i], Some(chain[0]), all) {
        KidClusters(tree, i);
        TidiedSame(a, b, a', b', g, kids[i], Some(chain[0]), all);
      }
  }

  /** A tree nobody wrote to is as it was. */
  lemma {:induction false} TidiedUntouched(a: seq<Byte>, b: seq<Byte>, g: Geometry, first: nat, tree: Tree, parent: Option<nat>)
    requires Describes(a, g, first, tree) && Same(a, b, g, Clusters(tree))
    ensures Tidied(a, b, g, tree, parent, false)
    decreases tree
  {
    match tree
    case Broken =>
    case Directory(chain, kids) =>
      ContentSame(a, b, g, chain);
      var below := SubdirectoriesOf(Content(a, g, chain));
      forall i | 0 <= i < |kids| ensures Tidied(a, b, g, kids[i], Some(chain[0]), false) {
        KidClusters(tree, i);
        TidiedUntouched(a, b, g, below[i], kids[i], Some(chain[0]));
      }
  }

  lemma {:induction false} TidiedWeaker(a: seq<Byte>, b: seq<Byte>, g: Geometry, tree: Tree, parent: Option<nat>)
    requires Tidied(a, b, g, tree, parent, true)
    ensures Tidied(a, b, g, tree, parent, false)
    decreases tree
  {
    match tree
    case Broken =>
    case Directory(chain, kids) =>
      forall i | 0 <= i < |kids| ensures Tidied(a, b, g, kids[i], Some(chain[0]), false) {
        TidiedWeaker(a, b, g, kids[i], Some(chain[0]));
      }
  }

  // ---- The walk down ----

  /** A directory is written back and its first `k` subdirectories are done. */
  ghost predicate Midway(a: seq<Byte>, b: seq<Byte>, g: Geometry, first: nat, tree: Tree, parent: Option<nat>, k: nat)
    requires tree.Directory? && k <= |tree.kids|
  {
    && FatApart(g, Clusters(tree)) && SameFat(a, b, g) && Frame(a, b, g, Clusters(tree))
    && Describes(a, g, first, tree) && Apart(tree)
    && Content(b, g, tree.chain) == Right(Content(a, g, tree.chain), g, parent)
    && (forall i :: 0 <= i < k ==> Sound(tree.kids[i]) && Tidied(a, b, g, tree.kids[i], Some(first), true))
    && (forall i :: k <= i < |tree.kids| ==> Same(a, b, g, Clusters(tree.kids[i])))
  }

  /** The next subdirectory stands as it did at the start. */
  lemma NextKid(a: seq<Byte>, b: seq<Byte>, g: Geometry, first: nat, tree: Tree, parent: Option<nat>, k: nat)
    requires tree.Directory? && k < |tree.kids| && Midway(a, b, g, first, tree, parent, k)
    ensures var below := SubdirectoriesOf(Content(a, g, tree.chain));
            && |below| == |tree.kids| && Describes(b, g, below[k], tree.kids[k]) && Apart(tree.kids[k])
            && FatApart(g, Clusters(tree.kids[k]))
  {
    KidClusters(tree, k);
    FatApartFewer(g, Clusters(tree), Clusters(tree.kids[k]));
    DescribesSame(a, b, g, SubdirectoriesOf(Content(a, g, tree.chain))[k], tree.kids[k]);
  }

  /** A subdirectory done leaves its siblings and its parent alone. */
  lemma KidFrame(a: seq<Byte>, b: seq<Byte>, c: seq<Byte>, g: Geometry, first: nat, tree: Tree, parent: Option<nat>, k: nat)
    requires tree.Directory? && k < |tree.kids| && Midway(a, b, g, first, tree, parent, k)
    requires Frame(b, c, g, Clusters(tree.kids[k]))
    ensures SameFat(a, c, g) && Frame(a, c, g, Clusters(tree))
    ensures Content(c, g, tree.chain) == Content(b, g, tree.chain)
    ensures forall i :: 0 <= i < |tree.kids| && i != k ==> Same(b, c, g, Clusters(tree.kids[i]))
  {
    var s := Clusters(tree.kids[k]);
    KidClusters(tree, k);
    FrameTwice(a, b, c, g, Clusters(tree), s, Clusters(tree));
    FrameKeepsFat(a, c, g, Clusters(tree));
    FrameKeepsSet(b, c, g, s, SetOf(tree.chain));
    ContentSame(b, c, g, tree.chain);
    forall i | 0 <= i < |tree.kids| && i != k ensures Same(b, c, g, Clusters(tree.kids[i])) {
      FrameKeepsSet(b, c, g, s, Clusters(tree.kids[i]));
    }
  }

  lemma SameTwice(a: seq<Byte>, b: seq<Byte>, c: seq<Byte>, g: Geometry, s: set<nat>)
    requires Same(a, b, g, s) && Same(b, c, g, s)
    ensures Same(a, c, g, s)
  {
  }

  lemma KidDone(a: seq<Byte>, b: seq<Byte>, c: seq<Byte>, g: Geometry, first: nat, tree: Tree, parent: Option<nat>, k: nat)
    requires tree.Directory? && k < |tree.kids| && Midway(a, b, g, first, tree, parent, k)
    requires Frame(b, c, g, Clusters(tree.kids[k])) && Sound(tree.kids[k])
    requires Tidied(b, c, g, tree.kids[k], Some(first), true)
    ensures Midway(a, c, g, first, tree, parent, k + 1)
  {
    KidFrame(a, b, c, g, first, tree, parent, k);
    forall i | 0 <= i < k + 1 ensures Tidied(a, c, g, tree.kids[i], Some(first), true) {
      if i == k {
        TidiedSame(b, c, a, c, g, tree.kids[k], Some(first), true);
      } else {
        TidiedSame(a, b, a, c, g, tree.kids[i], Some(first), true);
      }
    }
    forall i | k + 1 <= i < |tree.kids| ensures Same(a, c, g, Clusters(tree.kids[i])) {
      SameTwice(a, b, c, g, Clusters(tree.kids[i]));
    }
  }

  lemma KidFailed(a: seq<Byte>, b: seq<Byte>, c: seq<Byte>, g: Geometry, first: nat, tree: Tree, parent: Option<nat>, k: nat)
    requires tree.Directory? && k < |tree.kids| && Midway(a, b, g, first, tree, parent, k)
    requires Frame(b, c, g, Clusters(tree.kids[k]))
    requires Tidied(b, c, g, tree.kids[k], Some(first), false)
    ensures Tidied(a, c, g, tree, parent, false)
  {
    KidFrame(a, b, c, g, first, tree, parent, k);
    forall i | 0 <= i < |tree.kids| ensures Tidied(a, c, g, tree.kids[i], Some(first), false) {
      if i == k {
        TidiedSame(b, c, a, c, g, tree.kids[k], Some(first), false);
      } else if i < k {
        TidiedWeaker(a, b, g, tree.kids[i], Some(first));
        TidiedSame(a, b, a, c, g, tree.kids[i], Some(first), false);
      } else {
        SameTwice(a, b, c, g, Clusters(tree.kids[i]));
        TidiedUntouched(a, c, g, SubdirectoriesOf(Content(a, g, tree.chain))[i], tree.kids[i], Some(first));
      }
    }
  }

  lemma ChainWithin(image: seq<Byte>, g: Geometry, first: nat, chain: seq<nat>)
    requires IsChain(image, g, first, chain) && Fits(g, |image|)
    ensures Within(g, |image|, chain)
  {
    forall i | 0 <= i < |chain| ensures ClusterFits(g, |image|, chain[i]) {
      assert InRange(chain[i]);
    }
  }

  /** The root, which needs nothing, and every directory once written back stand midway. */
  lemma StartMidway(a: seq<Byte>, b: seq<Byte>, g: Geometry, first: nat, tree: Tree, parent: Option<nat>)
    requires tree.Directory? && Describes(a, g, first, tree) && Apart(tree)
    requires FatApart(g, Clusters(tree)) && Frame(a, b, g, SetOf(tree.chain))
    requires Content(b, g, tree.chain) == Right(Content(a, g, tree.chain), g, parent)
    ensures Midway(a, b, g, first, tree, parent, 0)
  {
    FrameTwice(a, b, b, g, SetOf(tree.chain), {}, Clusters(tree));
    FrameKeepsFat(a, b, g, Clusters(tree));
    forall i | 0 <= i < |tree.kids| ensures Same(a, b, g, Clusters(tree.kids[i])) {
      FrameKeepsSet(a, b, g, SetOf(tree.chain), Clusters(tree.kids[i]));
    }
  }

  /** Main result: where the directories below `first` form a tree, the walk ends; it
      succeeds exactly when every directory can be read, and then each of them is
      right; on failure each is right or as it was. No byte outside the directories'
      clusters changes. */
  method NormalizeDir(image: array<Byte>, g: Geometry, first: nat, parent: Option<nat>, ghost tree: Tree)
    returns (r: Result<()>)
    requires Fits(g, image.Length) && FatApart(g, Clusters(tree))
    requires Describes(image[..], g, first, tree) && Apart(tree)
    modifies image
    ensures r.Ok? <==> Sound(tree)
    ensures Frame(old(image[..]), image[..], g, Clusters(tree))
    ensures Tidied(old(image[..]), image[..], g, tree, parent, r.Ok?)
    decreases tree
  {
    ghost var was := image[..];
    var found := ClusterChain(image, g, first);
    if found.Err? {
      return Err(found.error);
    }
    var clusters := found.value;
    assert tree.Directory? && clusters == tree.chain by {
      DescribedChain(was, g, first, tree, clusters);
    }
    ChainWithin(was, g, first, clusters);
    var buf := ReadContent(image, g, clusters);
    if parent.Some? {
      buf := TidyEntries(buf, parent.value == g.rootCluster);
      ContentLength(was, g, clusters);
      WriteContent(image, g, clusters, buf);
    }
    StartMidway(was, image[..], g, first, tree, parent);
    var subdirs := FindSubdirectories(buf);
    RightKeepsSubdirectories(Content(was, g, clusters), g, parent);
    for k := 0 to |subdirs|
      invariant |subdirs| == |tree.kids|
      invariant Midway(was, image[..], g, first, tree, parent, k)
    {
      ghost var before := image[..];
      NextKid(was, before, g, first, tree, parent, k);
      var below := NormalizeDir(image, g, subdirs[k], Some(first), tree.kids[k]);
      if below.Err? {
        KidFrame(was, before, image[..], g, first, tree, parent, k);
        KidFailed(was, before, image[..], g, first, tree, parent, k);
        return below;
      }
      KidDone(was, before, image[..], g, first, tree, parent, k);
    }
    return Ok(());
  }

  /** The chain found is the tree's. */
  lemma DescribedChain(image: seq<Byte>, g: Geometry, first: nat, tree: Tree, chain: seq<nat>)
    requires Describes(image, g, first, tree) && IsChain(image, g, first, chain)
    ensures tree.Directory? && tree.chain == chain
  {
    WalkIsPrefix(image, g, first, chain, tree.chain);
    WalkIsPrefix(image, g, first, tree.chain, chain);
  }

  lemma RightKeepsSubdirectories(content: seq<Byte>, g: Geometry, parent: Option<nat>)
    ensures SubdirectoriesOf(Right(content, g, parent)) == SubdirectoriesOf(content)
  {
    if parent.Some? {
      TidyKeepsSubdirectories(content, parent.value == g.rootCluster);
    }
  }

  // ---- A second run ----

  /** Directories made right form the same tree. */
  lemma {:induction false} StillDescribed(a: seq<Byte>, b: seq<Byte>, g: Geometry, first: nat, tree: Tree, parent: Option<nat>)
    requires SameFat(a, b, g) && Describes(a, g, first, tree) && Tidied(a, b, g, tree, parent, true)
    ensures Describes(b, g, first, tree)
    decreases tree
  {
    match tree
    case Broken =>
      SameNoChain(a, b, g, first);
    case Directory(chain, kids) =>
      SameChain(a, b, g, first, chain);
      RightKeepsSubdirectories(Content(a, g, chain), g, parent);
      var below := SubdirectoriesOf(Content(a, g, chain));
      forall i | 0 <= i < |kids| ensures Describes(b, g, below[i], kids[i]) {
        StillDescribed(a, b, g, below[i], kids[i], Some(chain[0]));
      }
  }

  lemma {:induction false} TidiedTwice(a: seq<Byte>, b: seq<Byte>, c: seq<Byte>, g: Geometry, tree: Tree, parent: Option<nat>)
    requires |b| == |c| && Tidied(a, b, g, tree, parent, true) && Tidied(b, c, g, tree, parent, true)
    ensures Same(b, c, g, Clusters(tree))
    decreases tree
  {
    match tree
    case Broken =>
    case Directory(chain, kids) =>
      if parent.Some? {
        TidyTwice(Content(a, g, chain), parent.value == g.rootCluster);
      }
      SameContent(b, c, g, chain);
      forall i | 0 <= i < |kids| ensures Same(b, c, g, Clusters(kids[i])) {
        TidiedTwice(a, b, c, g, kids[i], Some(chain[0]));
      }
  }

  lemma {:induction false} TreeFits(image: seq<Byte>, g: Geometry, first: nat, tree: Tree, c: nat)
    requires Describes(image, g, first, tree) && Fits(g, |image|) && c in Clusters(tree)
    ensures ClusterFits(g, |image|, c)
    decreases tree
  {
    match tree
    case Directory(chain, kids) =>
      if c in chain {
        ChainWithin(image, g, first, chain);
      } else {
        var i :| 0 <= i < |kids| && c in Clusters(kids[i]);
        TreeFits(image, g, SubdirectoriesOf(Content(image, g, chain))[i], kids[i], c);
      }
  }

  /** Main result: what the first run leaves is again a volume a run accepts, and a
      second run changes no byte of it. */
  lemma SecondRunChangesNothing(a: seq<Byte>, b: seq<Byte>, c: seq<Byte>, g: Geometry, first: nat, tree: Tree, parent: Option<nat>)
    requires Fits(g, |a|) && FatApart(g, Clusters(tree)) && Describes(a, g, first, tree)
    requires Frame(a, b, g, Clusters(tree)) && Tidied(a, b, g, tree, parent, true)
    requires Frame(b, c, g, Clusters(tree)) && Tidied(b, c, g, tree, parent, true)
    ensures Describes(b, g, first, tree) && b == c
  {
    FrameKeepsFat(a, b, g, Clusters(tree));
    StillDescribed(a, b, g, first, tree, parent);
    TidiedTwice(a, b, c, g, tree, parent);
    forall d | d in Clusters(tree) ensures ClusterFits(g, |b|, d) {
      TreeFits(b, g, first, tree, d);
    }
    FrameAndSame(b, c, g, Clusters(tree));
  }

  // ---- The whole volume ----

  /** A volume whose directories form a tree below the root, none of them over the FAT. */
  ghost predicate IsVolume(image: seq<Byte>, g: Geometry, tree: Tree) {
    && ReadGeometry(image) == Ok(g) && FatApart(g, Clusters(tree))
    && Describes(image, g, g.rootCluster, tree) && Apart(tree)
  }

  /** Main result: the pass over a whole image, from its boot sector. */
  method NormalizeDotEntries(image: array<Byte>, ghost g: Geometry, ghost tree: Tree) returns (r: Result<()>)
    requires ReadGeometry(image[..]).Ok? ==> IsVolume(image[..], g, tree)
    modifies image
    ensures old(ReadGeometry(image[..])).Err? ==> r == Err(old(ReadGeometry(image[..])).error) && image[..] == old(image[..])
    ensures old(ReadGeometry(image[..])).Ok? ==>
              && (r.Ok? <==> Sound(tree))
              && Frame(old(image[..]), image[..], g, Clusters(tree))
              && Tidied(old(image[..]), image[..], g, tree, None, r.Ok?)
  {
    var read := ReadGeometry(image[..]);
    if read.Err? {
      return Err(read.error);
    }
    GeometryFits(image[..]);
    GeometryParts(image[..]);
    r := NormalizeDir(image, read.value, read.value.rootCluster, None, tree);
  }

  /** The boot sector is all the geometry is read from. */
  lemma SameGeometry(a: seq<Byte>, b: seq<Byte>, start: nat)
    requires 48 <= start <= |a| == |b| && a[..start] == b[..start]
    ensures ReadGeometry(a) == ReadGeometry(b)
  {
    hide MakeGeometry;
    forall i | 0 <= i < 48 ensures a[i] == b[i] {
      assert a[i] == a[..start][i] && b[i] == b[..start][i];
    }
  }

  /** Main result: where the boot sector lies before the data, a volume stays a
      volume, with the same boot sector, FAT and tree. */
  lemma StaysVolume(a: seq<Byte>, b: seq<Byte>, g: Geometry, tree: Tree)
    requires IsVolume(a, g, tree) && g.dataStart >= 48
    requires Frame(a, b, g, Clusters(tree)) && Tidied(a, b, g, tree, None, true)
    ensures IsVolume(b, g, tree) && a[..g.dataStart] == b[..g.dataStart]
  {
    hide ReadGeometry, Tidied, Describes, Apart;
    GeometryParts(a);
    FrameKeepsStart(a, b, g, Clusters(tree));
    FrameKeepsFat(a, b, g, Clusters(tree));
    StillDescribed(a, b, g, g.rootCluster, tree, None);
    SameGeometry(a, b, g.dataStart);
  }

  // ---- What becomes of which directory ----

  /** Every directory below keeps the cluster its ".." names. */
  ghost predicate KeepsParents(a: seq<Byte>, b: seq<Byte>, g: Geometry, tree: Tree) {
    match tree
    case Broken => true
    case Directory(_, kids) =>
      forall i :: 0 <= i < |kids| && kids[i].Directory? ==>
        Content(b, g, kids[i].chain) == Tidy(Content(a, g, kids[i].chain), false) && KeepsParents(a, b, g, kids[i])
  }

  lemma {:induction false} DeeperKeepsParents(a: seq<Byte>, b: seq<Byte>, g: Geometry, tree: Tree, parent: Option<nat>)
    requires Tidied(a, b, g, tree, parent, true) && g.rootCluster !in Clusters(tree)
    ensures KeepsParents(a, b, g, tree)
    decreases tree
  {
    match tree
    case Broken =>
    case Directory(chain, kids) =>
      forall i | 0 <= i < |kids| && kids[i].Directory?
        ensures Content(b, g, kids[i].chain) == Tidy(Content(a, g, kids[i].chain), false) && KeepsParents(a, b, g, kids[i])
      {
        KidClusters(tree, i);
        assert chain[0] in SetOf(chain);
        DeeperKeepsParents(a, b, g, kids[i], Some(chain[0]));
      }
  }

  /** Main result: a run leaves the root's own bytes alone, clears the parent's cluster
      in the directories right below the root, and in no directory further down. */
  lemma WhatBecomesOfWhich(a: seq<Byte>, b: seq<Byte>, g: Geometry, tree: Tree, i: nat)
    requires IsVolume(a, g, tree) && Tidied(a, b, g, tree, None, true)
    requires tree.Directory? && i < |tree.kids| && tree.kids[i].Directory?
    ensures Content(b, g, tree.chain) == Content(a, g, tree.chain)
    ensures Content(b, g, tree.kids[i].chain) == Tidy(Content(a, g, tree.kids[i].chain), true)
    ensures KeepsParents(a, b, g, tree.kids[i])
  {
    assert tree.chain[0] == g.rootCluster && tree.chain[0] in SetOf(tree.chain);
    DeeperKeepsParents(a, b, g, tree.kids[i], Some(tree.chain[0]));
  }

  // ---- Which volumes there are ----

  /** The numbers of a boot sector that has a FAT with an entry for every cluster. */
  predicate RoomForEntries(image: seq<Byte>, g: Geometry)
    requires |image| >= 48
  {
    image[16] >= 1 && Product(U32At(image, 36), U16At(image, 11)) >= (g.maxCluster + 1) * 4
  }

  lemma SectorsAdd(reserved: nat, fats: nat, sectorsPerFat: nat, bytesPerSector: nat)
    requires fats >= 1
    ensures Product(reserved, bytesPerSector) + Product(sectorsPerFat, bytesPerSector)
         <= Product(reserved + Product(fats, sectorsPerFat), bytesPerSector)
  {
    Monotone(1, fats, sectorsPerFat);
    Monotone(reserved + sectorsPerFat, reserved + fats * sectorsPerFat, bytesPerSector);
    assert (reserved + sectorsPerFat) * bytesPerSector == reserved * bytesPerSector + sectorsPerFat * bytesPerSector;
  }

  /** Main result: on a volume formatted with a FAT large enough for its clusters no
      directory can lie over the FAT, whatever the FAT says. */
  lemma FormattedFatIsApart(image: seq<Byte>, s: set<nat>)
    requires ReadGeometry(image).Ok? && RoomForEntries(image, ReadGeometry(image).value)
    ensures FatApart(ReadGeometry(image).value, s)
  {
    SectorsAdd(U16At(image, 14), image[16], U32At(image, 36), U16At(image, 11));
    FatBeforeData(ReadGeometry(image).value, s);
  }

  /** Directories each listed in the one before. */
  ghost predicate Nested(image: seq<Byte>, g: Geometry, path: seq<nat>) {
    && path != []
    && forall i :: 0 <= i < |path| - 1 ==> Lists(image, g, path[i], path[i + 1])
  }

  /** The directory at `first` lists one at `child`. */
  ghost predicate Lists(image: seq<Byte>, g: Geometry, first: nat, child: nat) {
    exists chain :: IsChain(image, g, first, chain) && child in SubdirectoriesOf(Content(image, g, chain))
  }

  /** How deep a tree is. */
  ghost function Depth(tree: Tree): (d: nat)
    ensures tree.Directory? ==> forall i :: 0 <= i < |tree.kids| ==> Depth(tree.kids[i]) < d
  {
    match tree
    case Broken => 0
    case Directory(_, kids) => Deepest(kids)
  }

  ghost function Deepest(kids: seq<Tree>): (d: nat)
    ensures forall i :: 0 <= i < |kids| ==> Depth(kids[i]) < d
  {
    if kids == [] then 0
    else
      var (a, b) := (Depth(kids[0]) + 1, Deepest(kids[1..]));
      if a < b then b else a
  }

  lemma ListedKid(image: seq<Byte>, g: Geometry, first: nat, child: nat, tree: Tree) returns (kid: Tree)
    requires Describes(image, g, first, tree) && Lists(image, g, first, child)
    ensures Describes(image, g, child, kid) && Depth(kid) < Depth(tree)
  {
    var chain :| IsChain(image, g, first, chain) && child in SubdirectoriesOf(Content(image, g, chain));
    DescribedChain(image, g, first, tree, chain);
    var below := SubdirectoriesOf(Content(image, g, chain));
    var i :| 0 <= i < |below| && below[i] == child;
    kid := tree.kids[i];
  }

  lemma {:induction false} Descend(image: seq<Byte>, g: Geometry, path: seq<nat>, tree: Tree) returns (sub: Tree)
    requires Nested(image, g, path) && Describes(image, g, path[0], tree)
    ensures Describes(image, g, path[|path| - 1], sub) && Depth(sub) + |path| <= Depth(tree) + 1
    decreases |path|
  {
    if |path| == 1 {
      sub := tree;
    } else {
      assert Lists(image, g, path[0], path[0 + 1]);
      var kid := ListedKid(image, g, path[0], path[1], tree);
      sub := Descend(image, g, path[1..], kid);
    }
  }

  /** Main result: directories that list each other in a circle have no tree, so the
      walk down from them, which goes into every directory listed, has no end. */
  lemma {:induction false} CircleHasNoTree(image: seq<Byte>, g: Geometry, path: seq<nat>, tree: Tree)
    requires Nested(image, g, path) && |path| > 1 && path[|path| - 1] == path[0]
    ensures !Describes(image, g, path[0], tree)
    decreases Depth(tree)
  {
    if Describes(image, g, path[0], tree) {
      var sub := Descend(image, g, path, tree);
      CircleHasNoTree(image, g, path, sub);
    }
  }
}
