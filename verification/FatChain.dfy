/** The geometry of a FAT32 volume and its cluster chains (initrd.rs), read from
    an image with arbitrary contents. Reading past the image, where the host
    program would stop with an index error, is an error value here. */
module FatChain {

  import opened Bytes
  import opened Numbers

  /** From this value on, a FAT entry means the end of the chain. */
  const END_OF_CHAIN: nat := 0x0FFF_FFF8

  datatype Error = NoBpb | BeyondImage(cluster: nat) | Looping | Empty(first: nat) | OutOfBounds

  datatype Result<T> = Ok(value: T) | Err(error: Error)

  datatype Geometry = Geometry(
    fatStart: nat, dataStart: nat, clusterBytes: nat, rootCluster: nat, maxCluster: nat)
  {
    function Offset(cluster: nat): nat
      requires cluster >= 2
    {
      dataStart + (cluster - 2) * clusterBytes
    }
  }

  // ---- Geometry ----

  function Product(a: nat, b: nat): (p: nat)
    ensures a > 0 && b > 0 ==> p > 0
  {
    a * b
  }

  /** A 64-bit number cut to 32 bits. */
  function Low32(n: nat): (r: nat)
    ensures r <= n && r < 0x1_0000_0000
  {
    n % 0x1_0000_0000
  }

  /** The boot sector's fields, with the host's checks and its 32-bit cluster count. */
  function ReadGeometry(image: seq<Byte>): Result<Geometry> {
    if |image| < 48 then Err(OutOfBounds)
    else MakeGeometry(|image|, U16At(image, 11), image[13], U16At(image, 14), image[16], U32At(image, 36), U32At(image, 44))
  }

  function MakeGeometry(length: nat, bytesPerSector: nat, sectorsPerCluster: nat, reservedSectors: nat,
                        fats: nat, sectorsPerFat: nat, rootCluster: nat): Result<Geometry> {
    if bytesPerSector == 0 || sectorsPerCluster == 0 || sectorsPerFat == 0 then Err(NoBpb) else
    var dataStart := Product(reservedSectors + Product(fats, sectorsPerFat), bytesPerSector);
    var clusterBytes := Product(sectorsPerCluster, bytesPerSector);
    if length < dataStart then Err(OutOfBounds) else
    var clusters := Low32((length - dataStart) / clusterBytes);
    if clusters == 0xFFFF_FFFF then Err(OutOfBounds) else
    Ok(Geometry(Product(reservedSectors, bytesPerSector), dataStart, clusterBytes, rootCluster, clusters + 1))
  }

  /** A number of four bytes, the low one first. */
  function FourAt(image: seq<Byte>, at: nat): nat
    requires at + 4 <= |image|
  {
    image[at] as int + image[at + 1] as int * 0x100 + image[at + 2] as int * 0x1_0000 + image[at + 3] as int * 0x100_0000
  }

  /** Main result: what is read off a boot sector, byte by byte, and when it is refused. */
  lemma GeometryOfBytes(image: seq<Byte>)
    requires |image| >= 48
    ensures var (bytesPerSector, sectorsPerCluster) := (image[11] as int + image[12] as int * 0x100, image[13] as int);
            var (reserved, fats, sectorsPerFat) := (image[14] as int + image[15] as int * 0x100, image[16] as int, FourAt(image, 36));
            var dataStart := (reserved + fats * sectorsPerFat) * bytesPerSector;
            var r := ReadGeometry(image);
            && (r == Err(NoBpb) <==> bytesPerSector == 0 || sectorsPerCluster == 0 || sectorsPerFat == 0)
            && (r.Ok? ==> dataStart <= |image|)
            && (r.Ok? ==> r.value.clusterBytes == sectorsPerCluster * bytesPerSector && r.value.dataStart == dataStart
                          && r.value.fatStart == reserved * bytesPerSector && r.value.rootCluster == FourAt(image, 44))
            && (r == Err(OutOfBounds) && dataStart <= |image| ==>
                  sectorsPerCluster * bytesPerSector > 0
                  && Low32((|image| - dataStart) / (sectorsPerCluster * bytesPerSector)) == 0xFFFF_FFFF)
  {
    FieldsAre(image);
    MadeOf(|image|, U16At(image, 11), image[13], U16At(image, 14), image[16], U32At(image, 36), U32At(image, 44));
  }

  lemma FieldsAre(image: seq<Byte>)
    requires |image| >= 48
    ensures U16At(image, 11) == image[11] as int + image[12] as int * 0x100
    ensures U16At(image, 14) == image[14] as int + image[15] as int * 0x100
    ensures U32At(image, 36) == FourAt(image, 36) && U32At(image, 44) == FourAt(image, 44)
  {
  }

  lemma MadeOf(length: nat, bytesPerSector: nat, sectorsPerCluster: nat, reserved: nat, fats: nat, sectorsPerFat: nat, root: nat)
    ensures var dataStart := (reserved + fats * sectorsPerFat) * bytesPerSector;
            var r := MakeGeometry(length, bytesPerSector, sectorsPerCluster, reserved, fats, sectorsPerFat, root);
            && (r == Err(NoBpb) <==> bytesPerSector == 0 || sectorsPerCluster == 0 || sectorsPerFat == 0)
            && (r.Ok? ==> dataStart <= length)
            && (r.Ok? ==> r.value.clusterBytes == sectorsPerCluster * bytesPerSector && r.value.dataStart == dataStart
                          && r.value.fatStart == reserved * bytesPerSector && r.value.rootCluster == root)
            && (r == Err(OutOfBounds) && dataStart <= length ==>
                  sectorsPerCluster * bytesPerSector > 0
                  && Low32((length - dataStart) / (sectorsPerCluster * bytesPerSector)) == 0xFFFF_FFFF)
  {
    hide Low32;
    assert sectorsPerCluster > 0 && bytesPerSector > 0 ==> Product(sectorsPerCluster, bytesPerSector) > 0;
  }

  /** Every cluster up to the last lies inside an image of `length` bytes. */
  ghost predicate Fits(g: Geometry, length: nat) {
    g.clusterBytes > 0 && forall c :: 2 <= c <= g.maxCluster ==> g.Offset(c) + g.clusterBytes <= length
  }

  lemma QuotientFits(length: nat, k: nat)
    requires k > 0
    ensures length / k * k <= length
  {
  }

  lemma OffsetFits(length: nat, dataStart: nat, clusterBytes: nat, c: nat)
    requires dataStart <= length && clusterBytes > 0 && 2 <= c <= (length - dataStart) / clusterBytes + 1
    ensures dataStart + (c - 2) * clusterBytes + clusterBytes <= length
    ensures (c - 1) * clusterBytes <= length - dataStart
  {
    QuotientFits(length - dataStart, clusterBytes);
    Monotone(c - 1, (length - dataStart) / clusterBytes, clusterBytes);
    assert (c - 2) * clusterBytes + clusterBytes == (c - 1) * clusterBytes;
  }

  lemma MadeParts(length: nat, bytesPerSector: nat, sectorsPerCluster: nat, reservedSectors: nat,
                  fats: nat, sectorsPerFat: nat, rootCluster: nat)
    ensures var r := MakeGeometry(length, bytesPerSector, sectorsPerCluster, reservedSectors, fats, sectorsPerFat, rootCluster);
            r.Ok? ==> Parts(r.value, length)
  {
    Monotone(reservedSectors, reservedSectors + Product(fats, sectorsPerFat), bytesPerSector);
  }

  /** The parts of a geometry lie in order, and the last cluster is the last that fits. */
  predicate Parts(g: Geometry, length: nat) {
    g.fatStart <= g.dataStart <= length && g.clusterBytes > 0 &&
    g.maxCluster <= (length - g.dataStart) / g.clusterBytes + 1
  }

  lemma GeometryParts(image: seq<Byte>)
    requires ReadGeometry(image).Ok?
    ensures Parts(ReadGeometry(image).value, |image|)
  {
    MadeParts(|image|, U16At(image, 11), image[13], U16At(image, 14), image[16], U32At(image, 36), U32At(image, 44));
  }

  /** What the boot sector says never puts a cluster outside the image. */
  lemma GeometryFits(image: seq<Byte>)
    requires ReadGeometry(image).Ok?
    ensures Fits(ReadGeometry(image).value, |image|)
  {
    GeometryParts(image);
    var g := ReadGeometry(image).value;
    forall c | 2 <= c <= g.maxCluster ensures g.Offset(c) + g.clusterBytes <= |image| {
      OffsetFits(|image|, g.dataStart, g.clusterBytes, c);
    }
  }

  /** Main result: no cluster is forgotten. The one after the last would not lie inside
      the image, unless there are more clusters than 32 bits can count. */
  lemma LastClusterIsLast(image: seq<Byte>)
    requires ReadGeometry(image).Ok?
    ensures var g := ReadGeometry(image).value;
            (|image| - g.dataStart) / g.clusterBytes < 0xFFFF_FFFF ==>
              g.Offset(g.maxCluster + 1) + g.clusterBytes > |image|
  {
    hide U16At, U32At, Product;
    GeometryParts(image);
    var g := ReadGeometry(image).value;
    var room := |image| - g.dataStart;
    var all := room / g.clusterBytes;
    if all < 0xFFFF_FFFF {
      assert g.maxCluster == all + 1;
      PastEnd(room, g.clusterBytes);
    }
  }

  lemma PastEnd(room: nat, k: nat)
    requires k > 0
    ensures room / k * k + k > room
  {
    assert room == room / k * k + room % k;
  }

  // ---- Chains ----

  predicate InRange(c: nat) {
    2 <= c < END_OF_CHAIN
  }

  predicate Readable(image: seq<Byte>, g: Geometry, c: nat) {
    g.fatStart + c * 4 + 4 <= |image|
  }

  /** The FAT's successor of a cluster. */
  function Next(image: seq<Byte>, g: Geometry, c: nat): nat
    requires Readable(image, g, c)
  {
    U32At(image, g.fatStart + c * 4) % 0x1000_0000
  }

  /** The successor is the four bytes of the FAT entry with the top four bits masked off. */
  lemma NextIsMasked(image: seq<Byte>, g: Geometry, c: nat)
    requires Readable(image, g, c)
    ensures Next(image, g, c) == And(FourAt(image, g.fatStart + c * 4), 0x0FFF_FFFF)
  {
    assert Pow2(8) == 0x100 && Pow2(16) == 0x1_0000 && Pow2(24) == 0x100_0000 && Pow2(28) == 0x1000_0000;
    AndLow(FourAt(image, g.fatStart + c * 4), 28);
  }

  /** Clusters met from `first` on, each following the one before in the FAT. */
  ghost predicate Walk(image: seq<Byte>, g: Geometry, first: nat, walk: seq<nat>) {
    && walk != [] && walk[0] == first
    && (forall i :: 0 <= i < |walk| ==> InRange(walk[i]) && walk[i] <= g.maxCluster)
    && forall i :: 0 <= i < |walk| - 1 ==> Readable(image, g, walk[i]) && Next(image, g, walk[i]) == walk[i + 1]
  }

  /** A walk that the FAT ends. */
  ghost predicate IsChain(image: seq<Byte>, g: Geometry, first: nat, chain: seq<nat>) {
    && Walk(image, g, first, chain)
    && Readable(image, g, chain[|chain| - 1])
    && !InRange(Next(image, g, chain[|chain| - 1]))
  }

  ghost predicate Distinct(s: seq<nat>) {
    forall i, j :: 0 <= i < j < |s| ==> s[i] != s[j]
  }

  /** Two equal clusters of a walk have equal successors, as far as both go. */
  lemma {:induction false} EqualSuccessors(image: seq<Byte>, g: Geometry, first: nat, walk: seq<nat>, i: nat, j: nat, k: nat)
    requires Walk(image, g, first, walk) && i < j && j + k < |walk| && walk[i] == walk[j]
    ensures walk[i + k] == walk[j + k]
  {
    if k > 0 {
      EqualSuccessors(image, g, first, walk, i, j, k - 1);
      assert Next(image, g, walk[i + (k - 1)]) == walk[i + (k - 1) + 1];
      assert Next(image, g, walk[j + (k - 1)]) == walk[j + (k - 1) + 1];
    }
  }

  /** A chain that ends never meets a cluster twice. */
  lemma ChainIsDistinct(image: seq<Byte>, g: Geometry, first: nat, chain: seq<nat>)
    requires IsChain(image, g, first, chain)
    ensures Distinct(chain)
  {
    var last := |chain| - 1;
    forall i, j | 0 <= i < j < |chain| ensures chain[i] != chain[j] {
      if chain[i] == chain[j] {
        assert Next(image, g, chain[i + (last - j)]) == chain[i + (last - j) + 1];
        EqualSuccessors(image, g, first, chain, i, j, last - j);
      }
    }
  }

  /** Distinct clusters below a bound are fewer than the bound. */
  lemma {:induction false} Pigeonhole(s: seq<nat>, n: nat)
    requires Distinct(s) && forall x :: x in s ==> x < n
    ensures |s| <= n
  {
    if s == [] {
      return;
    }
    assert s[0] in s;
    if k: nat :| k < |s| && s[k] == n - 1 {
      var t := s[..k] + s[k + 1..];
      forall x | x in t ensures x < n - 1 {
        var i :| 0 <= i < |t| && t[i] == x;
        assert x == if i < k then s[i] else s[i + 1];
        assert x in s;
      }
      Pigeonhole(t, n - 1);
    } else {
      forall x | x in s ensures x < n - 1 {
        var i :| 0 <= i < |s| && s[i] == x;
      }
      Pigeonhole(s, n - 1);
    }
  }

  /** Whatever was walked so far is the beginning of the chain, if there is one. */
  lemma {:induction false} WalkIsPrefix(image: seq<Byte>, g: Geometry, first: nat, walk: seq<nat>, chain: seq<nat>)
    requires Walk(image, g, first, walk) && IsChain(image, g, first, chain)
    ensures walk <= chain
    decreases |walk|
  {
    var last := |walk| - 1;
    if last > 0 {
      WalkIsPrefix(image, g, first, walk[..last], chain);
      assert walk[last - 1] == chain[last - 1];
      assert Next(image, g, walk[last - 1]) == walk[last - 1 + 1];
      assert last < |chain|;
      assert Next(image, g, chain[last - 1]) == chain[last - 1 + 1];
    }
  }

  /** No chain starts at `first`. */
  ghost predicate NoChain(image: seq<Byte>, g: Geometry, first: nat) {
    forall chain :: !IsChain(image, g, first, chain)
  }

  /** Where the walk stands, and what the FAT says comes next. */
  ghost predicate Standing(image: seq<Byte>, g: Geometry, first: nat, walk: seq<nat>, cluster: nat) {
    if walk == [] then cluster == first
    else
      Walk(image, g, first, walk) &&
      Readable(image, g, walk[|walk| - 1]) && Next(image, g, walk[|walk| - 1]) == cluster
  }

  /** The FAT leads from `first` to this cluster number. */
  ghost predicate Reached(image: seq<Byte>, g: Geometry, first: nat, cluster: nat) {
    exists walk :: Standing(image, g, first, walk, cluster)
  }

  /** What comes next in the FAT comes next in the chain. */
  lemma NextOnChain(image: seq<Byte>, g: Geometry, first: nat, walk: seq<nat>, cluster: nat, chain: seq<nat>)
    requires Standing(image, g, first, walk, cluster) && InRange(cluster) && IsChain(image, g, first, chain)
    ensures |walk| < |chain| && chain[|walk|] == cluster
  {
    var n := |walk|;
    if n > 0 {
      WalkIsPrefix(image, g, first, walk, chain);
      assert chain[n - 1] == walk[n - 1];
      assert n < |chain|;
      assert Next(image, g, chain[n - 1]) == chain[n - 1 + 1];
    }
  }

  /** A walk that cannot go on where it has to has no chain. */
  lemma DeadEnd(image: seq<Byte>, g: Geometry, first: nat, walk: seq<nat>, cluster: nat)
    requires Standing(image, g, first, walk, cluster)
    requires InRange(cluster) && (cluster > g.maxCluster || !Readable(image, g, cluster))
    ensures NoChain(image, g, first)
  {
    forall chain ensures !IsChain(image, g, first, chain) {
      if IsChain(image, g, first, chain) {
        NextOnChain(image, g, first, walk, cluster, chain);
      }
    }
  }

  /** A walk of more clusters than there are has met one twice. */
  lemma TooLong(image: seq<Byte>, g: Geometry, first: nat, walk: seq<nat>)
    requires Walk(image, g, first, walk) && |walk| > g.maxCluster
    ensures !Distinct(walk) && NoChain(image, g, first)
  {
    if Distinct(walk) {
      var below := seq(|walk|, i requires 0 <= i < |walk| => walk[i] - 2);
      forall x | x in below ensures x < g.maxCluster {
        var i :| 0 <= i < |below| && below[i] == x;
      }
      Pigeonhole(below, g.maxCluster);
      assert false;
    }
    forall chain ensures !IsChain(image, g, first, chain) {
      if IsChain(image, g, first, chain) {
        WalkIsPrefix(image, g, first, walk, chain);
        ChainIsDistinct(image, g, first, chain);
      }
    }
  }

  lemma Extended(image: seq<Byte>, g: Geometry, first: nat, walk: seq<nat>, cluster: nat)
    requires Standing(image, g, first, walk, cluster) && InRange(cluster) && cluster <= g.maxCluster
    ensures Walk(image, g, first, walk + [cluster])
  {
  }

  /** Main result: the walk ends on any image, and it succeeds exactly when a chain
      starts at `first`; each refusal names a real fault. */
  method ClusterChain(image: array<Byte>, g: Geometry, first: nat) returns (r: Result<seq<nat>>)
    ensures r.Ok? ==> IsChain(image[..], g, first, r.value) && Distinct(r.value)
    ensures r.Err? ==> NoChain(image[..], g, first)
    ensures r == Err(Empty(first)) <==> !(2 <= first < 0x0FFF_FFF8)
    ensures r == Err(Looping) ==> exists walk :: Walk(image[..], g, first, walk) && !Distinct(walk)
    ensures r.Err? && r.error.BeyondImage? ==>
              Reached(image[..], g, first, r.error.cluster) && g.maxCluster < r.error.cluster < END_OF_CHAIN
    ensures r == Err(OutOfBounds) ==>
              exists c: nat :: Reached(image[..], g, first, c) && 2 <= c <= g.maxCluster && !Readable(image[..], g, c)
  {
    ghost var bytes := image[..];
    var chain: seq<nat> := [];
    var cluster: nat := first;
    while InRange(cluster)
      invariant Standing(bytes, g, first, chain, cluster)
      invariant |chain| <= g.maxCluster
      invariant chain != [] ==> InRange(first)
      decreases g.maxCluster - |chain|
    {
      if cluster > g.maxCluster {
        DeadEnd(bytes, g, first, chain, cluster);
        return Err(BeyondImage(cluster));
      }
      Extended(bytes, g, first, chain, cluster);
      ghost var before := chain;
      chain := chain + [cluster];
      if |chain| > g.maxCluster {
        TooLong(bytes, g, first, chain);
        return Err(Looping);
      }
      if g.fatStart + cluster * 4 + 4 > image.Length {
        DeadEnd(bytes, g, first, before, cluster);
        return Err(OutOfBounds);
      }
      cluster := U32At(image[..], g.fatStart + cluster * 4) % 0x1000_0000;
    }
    if chain == [] {
      return Err(Empty(first));
    }
    ChainIsDistinct(bytes, g, first, chain);
    return Ok(chain);
  }

  /** Main result: on the geometry of a boot sector, with clusters of twelve bytes
      or more, the walk never reads outside the image, and every cluster of a
      chain lies inside it. */
  lemma ChainStaysInside(image: seq<Byte>, c: nat)
    requires ReadGeometry(image).Ok? && ReadGeometry(image).value.clusterBytes >= 12
    requires 2 <= c <= ReadGeometry(image).value.maxCluster
    ensures var g := ReadGeometry(image).value;
            Readable(image, g, c) && g.Offset(c) + g.clusterBytes <= |image|
  {
    GeometryParts(image);
    var g := ReadGeometry(image).value;
    EntryFits(|image|, g.fatStart, g.dataStart, g.clusterBytes, c);
  }

  lemma EntryFits(length: nat, fatStart: nat, dataStart: nat, clusterBytes: nat, c: nat)
    requires fatStart <= dataStart <= length && clusterBytes >= 12
    requires 2 <= c <= (length - dataStart) / clusterBytes + 1
    ensures fatStart + c * 4 + 4 <= length && dataStart + (c - 2) * clusterBytes + clusterBytes <= length
  {
    OffsetFits(length, dataStart, clusterBytes, c);
    Monotone(12, clusterBytes, c - 1);
  }
}
