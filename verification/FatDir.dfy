/** One FAT directory's entries (initrd.rs): dropping the long names written before
    "." and "..", and clearing the cluster of a ".." that names the root. */
module FatDir {

  import opened Bytes
  import opened Numbers

  const ENTRY: nat := 32

  type Entry = e: seq<Byte> | |e| == ENTRY witness seq(ENTRY, i => 0)

  // ---- Entries ----

  predicate IsEnd(e: Entry) {
    e[0] == 0
  }

  predicate IsLong(e: Entry) {
    e[11] % 16 == 15
  }

  /** The rest of an eleven-byte name is spaces. */
  predicate PaddedFrom(e: Entry, at: nat) {
    forall i :: at <= i < 11 ==> e[i] == 0x20
  }

  predicate IsDotDot(e: Entry) {
    e[0] == 0x2E && e[1] == 0x2E && PaddedFrom(e, 2)
  }

  /** The names "." and "..", padded with spaces. */
  predicate IsDot(e: Entry) {
    IsDotDot(e) || (e[0] == 0x2E && PaddedFrom(e, 1))
  }

  predicate IsDirectory(e: Entry) {
    e[11] / 16 % 2 == 1
  }

  function Cluster(e: Entry): nat {
    U16At(e, 20) * 0x1_0000 + U16At(e, 26)
  }

  /** The entry with both halves of its cluster zeroed. */
  function ZeroCluster(e: Entry): Entry {
    e[20 := 0][21 := 0][26 := 0][27 := 0]
  }

  function Cleared(e: Entry, rootChild: bool): Entry {
    if rootChild && IsDotDot(e) then ZeroCluster(e) else e
  }

  /** A cleared ".." names cluster 0 and is otherwise the entry it was. */
  lemma ClearedKeepsRest(e: Entry, rootChild: bool)
    ensures var r := Cleared(e, rootChild);
            && (if rootChild && IsDotDot(e) then Cluster(r) == 0 else r == e)
            && (forall i :: 0 <= i < ENTRY && i !in {20, 21, 26, 27} ==> r[i] == e[i])
            && IsDot(r) == IsDot(e) && IsDotDot(r) == IsDotDot(e) && IsEnd(r) == IsEnd(e) && IsLong(r) == IsLong(e)
            && Cleared(r, rootChild) == r
  {
  }

  /** The whole entries of a directory's bytes. */
  function Entries(buf: seq<Byte>): (es: seq<Entry>)
    ensures |es| == |buf| / ENTRY
  {
    seq(|buf| / ENTRY, k requires 0 <= k < |buf| / ENTRY => buf[k * ENTRY..k * ENTRY + ENTRY])
  }

  /** The entries before the end mark. */
  function Live(es: seq<Entry>): seq<Entry> {
    if es == [] || IsEnd(es[0]) then [] else [es[0]] + Live(es[1..])
  }

  lemma {:induction false} LiveIsPrefix(es: seq<Entry>)
    ensures var live := Live(es);
            live <= es && (forall e :: e in live ==> !IsEnd(e)) && (|live| < |es| ==> IsEnd(es[|live|]))
  {
    if es != [] && !IsEnd(es[0]) {
      LiveIsPrefix(es[1..]);
    }
  }

  // ---- What a directory means ----

  /** A file or directory: its short entry and the long-name run before it. */
  datatype Record = Record(longName: seq<Entry>, short: Entry)

  /** A directory's records in order, and long-name entries left over at the end. */
  datatype Listing = Listing(records: seq<Record>, tail: seq<Entry>)

  function List(live: seq<Entry>, pending: seq<Entry>): Listing {
    if live == [] then Listing([], pending)
    else if IsLong(live[0]) then List(live[1..], pending + [live[0]])
    else
      var rest := List(live[1..], []);
      rest.(records := [Record(pending, live[0])] + rest.records)
  }

  function ListingOf(buf: seq<Byte>): Listing {
    List(Live(Entries(buf)), [])
  }

  /** What the specification asks of a record: no long name for "." and "..", and
      cluster 0 in the ".." of a child of the root. All others stay as they are. */
  function Normal(r: Record, rootChild: bool): Record {
    if IsDot(r.short) then Record([], Cleared(r.short, rootChild)) else r
  }

  function NormalRecords(rs: seq<Record>, rootChild: bool): seq<Record> {
    seq(|rs|, i requires 0 <= i < |rs| => Normal(rs[i], rootChild))
  }

  function Spell(rs: seq<Record>): seq<Entry> {
    if rs == [] then [] else rs[0].longName + [rs[0].short] + Spell(rs[1..])
  }

  function Flatten(es: seq<Entry>): (b: seq<Byte>)
    ensures |b| == |es| * ENTRY
  {
    if es == [] then [] else Flatten(es[..|es| - 1]) + es[|es| - 1]
  }

  // ---- What the pass keeps ----

  /** The entries kept, with `pending` long-name entries read but not yet decided on. */
  function Kept(live: seq<Entry>, pending: seq<Entry>, rootChild: bool): (kept: seq<Entry>)
    ensures |kept| <= |pending| + |live|
  {
    if live == [] then pending
    else if IsLong(live[0]) then Kept(live[1..], pending + [live[0]], rootChild)
    else
      (if IsDot(live[0]) then [] else pending) + [Cleared(live[0], rootChild)] + Kept(live[1..], [], rootChild)
  }

  /** The bytes a directory has after the pass. */
  function Tidy(buf: seq<Byte>, rootChild: bool): (out: seq<Byte>)
    ensures |out| == |buf|
  {
    LiveIsPrefix(Entries(buf));
    var kept := Kept(Live(Entries(buf)), [], rootChild);
    Flatten(kept) + Zeros(|buf| - |kept| * ENTRY)
  }

  // ---- The pass ----

  lemma {:induction false} FlattenAppend(a: seq<Entry>, b: seq<Entry>)
    ensures Flatten(a + b) == Flatten(a) + Flatten(b)
  {
    if b == [] {
      assert a + b == a && Flatten(a) + [] == Flatten(a);
    } else {
      hide Flatten;
      var (init, last) := (b[..|b| - 1], b[|b| - 1]);
      FlattenAppend(a, init);
      FlattenPush(init, last);
      FlattenPush(a + init, last);
      assert b == init + [last] && a + b == a + init + [last];
    }
  }

  lemma FlattenPush(es: seq<Entry>, e: Entry)
    ensures Flatten(es + [e]) == Flatten(es) + e
  {
    assert (es + [e])[..|es|] == es;
  }

  /** Zeroing two fields of the entry just appended is appending the cleared entry. */
  lemma ClearAppended(kept: seq<Byte>, e: Entry)
    requires IsDotDot(e)
    ensures var (k, at) := (kept + e, |kept|);
            k[at + 20 := 0][at + 21 := 0][at + 26 := 0][at + 27 := 0] == kept + Cleared(e, true)
  {
  }

  /** What reading entry `k` does to what has been kept and what is pending. */
  lemma KeptStep(es: seq<Entry>, k: nat, kept: seq<Entry>, pending: seq<Entry>, rootChild: bool, all: seq<Entry>)
    requires k < |es| && all == kept + Kept(Live(es[k..]), pending, rootChild)
    ensures IsEnd(es[k]) ==> all == kept + pending
    ensures !IsEnd(es[k]) && IsLong(es[k]) ==> all == kept + Kept(Live(es[k + 1..]), pending + [es[k]], rootChild)
    ensures !IsEnd(es[k]) && !IsLong(es[k]) ==>
              var mid := if IsDot(es[k]) then kept else kept + pending;
              all == mid + [Cleared(es[k], rootChild)] + Kept(Live(es[k + 1..]), [], rootChild)
  {
    var live := Live(es[k..]);
    assert es[k..][0] == es[k] && es[k..][1..] == es[k + 1..];
    if !IsEnd(es[k]) {
      assert live[0] == es[k] && live[1..] == Live(es[k + 1..]);
    }
  }

  /** What is left pending at the end is kept, and zeros fill the rest. */
  lemma KeptAll(buf: seq<Byte>, rootChild: bool, kept: seq<Entry>, pending: seq<Entry>)
    requires Kept(Live(Entries(buf)), [], rootChild) == kept + pending
    ensures |kept| * ENTRY + |pending| * ENTRY <= |buf|
    ensures Tidy(buf, rootChild)
         == Flatten(kept) + Flatten(pending) + Zeros(|buf| - |Flatten(kept) + Flatten(pending)|)
  {
    LiveIsPrefix(Entries(buf));
    FlattenAppend(kept, pending);
  }

  /** Past the last entry, only what is pending is left to keep. */
  lemma NothingLive(es: seq<Entry>, k: nat, pending: seq<Entry>, rootChild: bool)
    requires k <= |es|
    ensures k == |es| ==> Kept(Live(es[k..]), pending, rootChild) == pending && Subdirectories(Live(es[k..])) == []
  {
  }

  /** An entry is copied over, and the two halves of its cluster zeroed there. */
  method AppendEntry(kept: seq<Byte>, entry: Entry, rootChild: bool) returns (out: seq<Byte>)
    ensures out == kept + Cleared(entry, rootChild)
  {
    var at := |kept|;
    out := kept + entry;
    if IsDotDot(entry) && rootChild {
      out := out[at + 20 := 0][at + 21 := 0];
      out := out[at + 26 := 0][at + 27 := 0];
      ClearAppended(kept, entry);
    }
  }

  /** The loop of the pass is the function. */
  method TidyEntries(buf: seq<Byte>, rootChild: bool) returns (out: seq<Byte>)
    ensures out == Tidy(buf, rootChild)
  {
    hide Live, Kept, Flatten, Cleared, IsDot, IsLong;
    ghost var es := Entries(buf);
    ghost var all := Kept(Live(es), [], rootChild);
    ghost var keptEntries: seq<Entry> := [];
    ghost var pendingEntries: seq<Entry> := [];
    var kept: seq<Byte>, pending: seq<Byte> := [], [];
    var n := |buf| / ENTRY;
    var k := 0;
    assert es[0..] == es;
    while k < n
      invariant k <= n == |es|
      invariant kept == Flatten(keptEntries) && pending == Flatten(pendingEntries)
      invariant all == keptEntries + Kept(Live(es[k..]), pendingEntries, rootChild)
    {
      var entry: Entry := buf[k * ENTRY..k * ENTRY + ENTRY];
      assert es[k] == entry;
      KeptStep(es, k, keptEntries, pendingEntries, rootChild, all);
      if IsEnd(entry) {
        break;
      }
      k := k + 1;
      if IsLong(entry) {
        FlattenPush(pendingEntries, entry);
        pending := pending + entry;
        pendingEntries := pendingEntries + [entry];
        continue;
      }
      if !IsDot(entry) {
        FlattenAppend(keptEntries, pendingEntries);
        kept := kept + pending;
        keptEntries := keptEntries + pendingEntries;
      }
      pending, pendingEntries := [], [];
      FlattenPush(keptEntries, Cleared(entry, rootChild));
      kept := AppendEntry(kept, entry, rootChild);
      keptEntries := keptEntries + [Cleared(entry, rootChild)];
    }
    NothingLive(es, k, pendingEntries, rootChild);
    KeptAll(buf, rootChild, keptEntries, pendingEntries);
    kept := kept + pending;
    out := kept + Zeros(|buf| - |kept|);
  }

  // ---- What the pass means ----

  ghost predicate AllLong(es: seq<Entry>) {
    forall e :: e in es ==> IsLong(e)
  }

  ghost predicate NoEnd(es: seq<Entry>) {
    forall e :: e in es ==> !IsEnd(e)
  }

  ghost predicate WellFormed(l: Listing) {
    (forall r :: r in l.records ==> AllLong(r.longName) && !IsLong(r.short)) && AllLong(l.tail)
  }

  lemma {:induction false} ListIsWellFormed(live: seq<Entry>, pending: seq<Entry>)
    requires AllLong(pending)
    ensures WellFormed(List(live, pending))
    decreases |live|
  {
    if live == [] {
    } else if IsLong(live[0]) {
      ListIsWellFormed(live[1..], pending + [live[0]]);
    } else {
      ListIsWellFormed(live[1..], []);
    }
  }

  /** A listing leaves nothing out: spelled again it is the entries it was read from. */
  lemma {:induction false} ListLosesNothing(live: seq<Entry>, pending: seq<Entry>)
    ensures var l := List(live, pending); Spell(l.records) + l.tail == pending + live
    decreases |live|
  {
    if live == [] {
    } else if IsLong(live[0]) {
      ListLosesNothing(live[1..], pending + [live[0]]);
    } else {
      ListLosesNothing(live[1..], []);
      var (l, rest) := (List(live, pending), List(live[1..], []));
      assert l.records[0] == Record(pending, live[0]) && l.records[1..] == rest.records;
      assert Spell(l.records) + l.tail == pending + [live[0]] + (Spell(rest.records) + rest.tail);
      assert pending + [live[0]] + ([] + live[1..]) == pending + live;
    }
  }

  lemma {:induction false} ListRun(run: seq<Entry>, rest: seq<Entry>, pending: seq<Entry>)
    requires AllLong(run)
    ensures List(run + rest, pending) == List(rest, pending + run)
    decreases |run|
  {
    if run == [] {
      assert run + rest == rest && pending + run == pending;
    } else {
      assert run[0] in run;
      assert (run + rest)[1..] == run[1..] + rest;
      ListRun(run[1..], rest, pending + [run[0]]);
      assert pending + [run[0]] + run[1..] == pending + run;
    }
  }

  /** Reading back what was spelled. */
  lemma {:induction false} ListOfSpelled(l: Listing)
    requires WellFormed(l)
    ensures List(Spell(l.records) + l.tail, []) == l
    decreases |l.records|
  {
    var rs := l.records;
    if rs == [] {
      assert Spell(rs) + l.tail == l.tail + [];
      ListRun(l.tail, [], []);
      assert [] + l.tail == l.tail;
    } else {
      var (r, rest) := (rs[0], Listing(rs[1..], l.tail));
      assert r in rs;
      var after := Spell(rs[1..]) + l.tail;
      ListOfSpelled(rest);
      assert Spell(rs) + l.tail == r.longName + ([r.short] + after);
      ListRun(r.longName, [r.short] + after, []);
      assert [] + r.longName == r.longName;
      assert ([r.short] + after)[1..] == after;
    }
  }

  /** The pass keeps the spelling of the normal records. */
  lemma {:induction false} KeptIsNormal(live: seq<Entry>, pending: seq<Entry>, rootChild: bool)
    ensures var l := List(live, pending); Kept(live, pending, rootChild) == Spell(NormalRecords(l.records, rootChild)) + l.tail
    decreases |live|
  {
    if live == [] {
    } else if IsLong(live[0]) {
      KeptIsNormal(live[1..], pending + [live[0]], rootChild);
    } else {
      KeptIsNormal(live[1..], [], rootChild);
      var (l, rest) := (List(live, pending), List(live[1..], []));
      var (n, m) := (NormalRecords(l.records, rootChild), NormalRecords(rest.records, rootChild));
      assert n[0] == Normal(Record(pending, live[0]), rootChild) && n[1..] == m;
    }
  }

  lemma NormalIsWellFormed(l: Listing, rootChild: bool)
    requires WellFormed(l)
    ensures WellFormed(Listing(NormalRecords(l.records, rootChild), l.tail))
    ensures var n := NormalRecords(l.records, rootChild); NormalRecords(n, rootChild) == n
  {
    var n := NormalRecords(l.records, rootChild);
    forall i | 0 <= i < |n| ensures AllLong(n[i].longName) && !IsLong(n[i].short) && Normal(n[i], rootChild) == n[i] {
      assert l.records[i] in l.records;
      ClearedKeepsRest(l.records[i].short, rootChild);
    }
  }

  lemma {:induction false} KeptHasNoEnd(live: seq<Entry>, pending: seq<Entry>, rootChild: bool)
    requires NoEnd(live) && NoEnd(pending)
    ensures NoEnd(Kept(live, pending, rootChild))
    decreases |live|
  {
    if live == [] {
    } else {
      assert live[0] in live;
      ClearedKeepsRest(live[0], rootChild);
      KeptHasNoEnd(live[1..], if IsLong(live[0]) then pending + [live[0]] else [], rootChild);
    }
  }

  /** The k-th entry of flattened entries. */
  lemma {:induction false} FlattenAt(es: seq<Entry>, k: nat)
    requires k < |es|
    ensures Flatten(es)[k * ENTRY..k * ENTRY + ENTRY] == es[k]
  {
    var last := |es| - 1;
    if k < last {
      FlattenAt(es[..last], k);
    }
  }

  lemma {:induction false} LiveOfBoth(es: seq<Entry>, rest: seq<Entry>)
    requires NoEnd(es) && (rest != [] ==> IsEnd(rest[0]))
    ensures Live(es + rest) == es
  {
    if es == [] {
      assert es + rest == rest;
    } else {
      assert es[0] in es && (es + rest)[1..] == es[1..] + rest;
      LiveOfBoth(es[1..], rest);
    }
  }

  /** Entries written out and filled up with zeros are read back. */
  lemma LiveOfWritten(es: seq<Entry>, zeros: nat)
    requires NoEnd(es)
    ensures Live(Entries(Flatten(es) + Zeros(zeros))) == es
  {
    var buf := Flatten(es) + Zeros(zeros);
    var all := Entries(buf);
    forall k | 0 <= k < |es| ensures all[k] == es[k] {
      FlattenAt(es, k);
      assert buf[k * ENTRY..k * ENTRY + ENTRY] == Flatten(es)[k * ENTRY..k * ENTRY + ENTRY];
    }
    assert all == es + all[|es|..];
    LiveOfBoth(es, all[|es|..]);
  }

  lemma TidyReadsBack(buf: seq<Byte>, rootChild: bool)
    ensures Live(Entries(Tidy(buf, rootChild))) == Kept(Live(Entries(buf)), [], rootChild)
  {
    LiveIsPrefix(Entries(buf));
    var kept := Kept(Live(Entries(buf)), [], rootChild);
    KeptHasNoEnd(Live(Entries(buf)), [], rootChild);
    LiveOfWritten(kept, |buf| - |kept| * ENTRY);
  }

  /** A directory's listing says all there is before its end mark: each record is a run
      of long-name entries and the short entry after it. */
  lemma ListingSaysAll(buf: seq<Byte>)
    ensures Spell(ListingOf(buf).records) + ListingOf(buf).tail == Live(Entries(buf))
    ensures WellFormed(ListingOf(buf))
  {
    ListIsWellFormed(Live(Entries(buf)), []);
    ListLosesNothing(Live(Entries(buf)), []);
  }

  /** Main result: what a directory lists afterwards is what it listed before, with
      each record made normal and nothing else touched, whatever the bytes. */
  lemma TidyNormalizes(buf: seq<Byte>, rootChild: bool)
    ensures var (before, after) := (ListingOf(buf), ListingOf(Tidy(buf, rootChild)));
            after == Listing(NormalRecords(before.records, rootChild), before.tail)
  {
    var live := Live(Entries(buf));
    var l := List(live, []);
    TidyReadsBack(buf, rootChild);
    KeptIsNormal(live, [], rootChild);
    ListIsWellFormed(live, []);
    NormalIsWellFormed(l, rootChild);
    ListOfSpelled(Listing(NormalRecords(l.records, rootChild), l.tail));
  }

  /** Main result: files keep their order, content and long names; only the long
      names of "." and ".." go, and a root child's ".." names cluster 0. */
  lemma TidyKeepsFiles(buf: seq<Byte>, rootChild: bool, i: nat)
    requires i < |ListingOf(buf).records|
    ensures var (before, after) := (ListingOf(buf), ListingOf(Tidy(buf, rootChild)));
            && |after.records| == |before.records| && after.tail == before.tail
            && (!IsDot(before.records[i].short) ==> after.records[i] == before.records[i])
            && (IsDot(before.records[i].short) ==> after.records[i].longName == [])
            && after.records[i].short[..20] == before.records[i].short[..20]
            && (if rootChild && IsDotDot(before.records[i].short)
                then after.records[i].short[20..22] == [0, 0] && after.records[i].short[26..28] == [0, 0]
                     && after.records[i].short[22..26] == before.records[i].short[22..26]
                     && after.records[i].short[28..] == before.records[i].short[28..]
                else after.records[i].short == before.records[i].short)
  {
    TidyNormalizes(buf, rootChild);
    ClearedKeepsRest(ListingOf(buf).records[i].short, rootChild);
  }

  /** Main result: a second pass over a directory changes no byte. */
  lemma TidyTwice(buf: seq<Byte>, rootChild: bool)
    ensures Tidy(Tidy(buf, rootChild), rootChild) == Tidy(buf, rootChild)
  {
    var live := Live(Entries(buf));
    var (l, kept) := (List(live, []), Kept(live, [], rootChild));
    TidyReadsBack(buf, rootChild);
    TidyNormalizes(buf, rootChild);
    KeptIsNormal(live, [], rootChild);
    KeptIsNormal(kept, [], rootChild);
    ListIsWellFormed(live, []);
    NormalIsWellFormed(l, rootChild);
  }

  /** What the pass frees is filled with zeros, which end the directory. */
  lemma TidyEndsInZeros(buf: seq<Byte>, rootChild: bool, i: nat)
    requires |Live(Entries(Tidy(buf, rootChild)))| * ENTRY <= i < |buf|
    ensures Tidy(buf, rootChild)[i] == 0
  {
    TidyReadsBack(buf, rootChild);
  }

  // ---- Subdirectories ----

  predicate NamesSubdirectory(e: Entry) {
    e[0] != 0xE5 && !IsLong(e) && IsDirectory(e) && !IsDot(e)
  }

  /** First clusters of the subdirectories, in order. */
  function Subdirectories(live: seq<Entry>): seq<nat> {
    if live == [] then []
    else (if NamesSubdirectory(live[0]) then [Cluster(live[0])] else []) + Subdirectories(live[1..])
  }

  function SubdirectoriesOf(buf: seq<Byte>): seq<nat> {
    Subdirectories(Live(Entries(buf)))
  }

  /** What reading entry `k` adds to the subdirectories found. */
  lemma FoundStep(es: seq<Entry>, k: nat, found: seq<nat>, all: seq<nat>)
    requires k < |es| && all == found + Subdirectories(Live(es[k..]))
    ensures IsEnd(es[k]) ==> all == found
    ensures !IsEnd(es[k]) ==>
              all == found + (if NamesSubdirectory(es[k]) then [Cluster(es[k])] else []) + Subdirectories(Live(es[k + 1..]))
  {
    assert es[k..][0] == es[k] && es[k..][1..] == es[k + 1..];
    if !IsEnd(es[k]) {
      assert Live(es[k..])[0] == es[k] && Live(es[k..])[1..] == Live(es[k + 1..]);
    }
  }

  method FindSubdirectories(buf: seq<Byte>) returns (subdirs: seq<nat>)
    ensures subdirs == SubdirectoriesOf(buf) && exists ks :: FoundAt(buf, subdirs, ks)
  {
    hide Live, Subdirectories, Cluster, IsDot, IsLong, IsDirectory;
    ghost var es := Entries(buf);
    subdirs := [];
    var k := 0;
    assert es[0..] == es;
    while k < |buf| / ENTRY
      invariant k <= |es|
      invariant SubdirectoriesOf(buf) == subdirs + Subdirectories(Live(es[k..]))
    {
      var entry: Entry := buf[k * ENTRY..k * ENTRY + ENTRY];
      assert es[k] == entry;
      FoundStep(es, k, subdirs, SubdirectoriesOf(buf));
      k := k + 1;
      if IsEnd(entry) {
        break;
      }
      if entry[0] == 0xE5 || IsLong(entry) {
        continue;
      }
      if !IsDirectory(entry) {
        continue;
      }
      if IsDot(entry) {
        continue;
      }
      subdirs := subdirs + [Cluster(entry)];
    }
    NothingLive(es, k, [], false);
    SubdirectoriesAreNamed(buf);
  }

  lemma {:induction false} LongNamesNameNone(run: seq<Entry>, rest: seq<Entry>)
    requires AllLong(run)
    ensures Subdirectories(run + rest) == Subdirectories(rest)
  {
    if run == [] {
      assert run + rest == rest;
    } else {
      assert run[0] in run && (run + rest)[1..] == run[1..] + rest;
      LongNamesNameNone(run[1..], rest);
    }
  }

  /** Clearing an entry does not change what it names. */
  lemma ClearedNamesSame(e: Entry, rootChild: bool, rest: seq<Entry>, rest': seq<Entry>)
    requires Subdirectories(rest) == Subdirectories(rest')
    ensures Subdirectories([Cleared(e, rootChild)] + rest) == Subdirectories([e] + rest')
  {
    var c := Cleared(e, rootChild);
    ClearedKeepsRest(e, rootChild);
    assert c[0] == e[0] && IsDirectory(c) == IsDirectory(e);
    assert ([c] + rest)[1..] == rest && ([e] + rest')[1..] == rest';
  }

  lemma {:induction false} KeptSubdirectories(live: seq<Entry>, pending: seq<Entry>, rootChild: bool)
    requires AllLong(pending)
    ensures Subdirectories(Kept(live, pending, rootChild)) == Subdirectories(live)
    decreases |live|
  {
    hide Cleared, NamesSubdirectory, IsDot;
    if live == [] {
      LongNamesNameNone(pending, []);
      assert pending + [] == pending;
    } else if IsLong(live[0]) {
      KeptSubdirectories(live[1..], pending + [live[0]], rootChild);
      LongNamesNameNone([live[0]], live[1..]);
      assert live == [live[0]] + live[1..];
    } else {
      var (e, rest) := (Cleared(live[0], rootChild), Kept(live[1..], [], rootChild));
      KeptSubdirectories(live[1..], [], rootChild);
      ClearedNamesSame(live[0], rootChild, rest, live[1..]);
      LongNamesNameNone(pending, [e] + rest);
      assert pending + ([e] + rest) == pending + [e] + rest;
      assert [] + [e] + rest == [e] + rest;
      assert live == [live[0]] + live[1..];
    }
  }

  // ---- What the entries say, at the bytes ----

  const DOT: seq<Byte> := [0x2E, 0x20, 0x20, 0x20, 0x20, 0x20, 0x20, 0x20, 0x20, 0x20, 0x20]
  const DOT_DOT: seq<Byte> := [0x2E, 0x2E, 0x20, 0x20, 0x20, 0x20, 0x20, 0x20, 0x20, 0x20, 0x20]

  /** The tests on an entry are the tests on its name and on the bits of its attributes. */
  lemma TestsAreOnBytes(e: Entry)
    ensures IsEnd(e) <==> e[0] == 0
    ensures IsDotDot(e) <==> e[..11] == DOT_DOT
    ensures IsDot(e) <==> e[..11] == DOT || e[..11] == DOT_DOT
    ensures IsLong(e) <==> And(e[11], 0x0F) == 0x0F
    ensures IsDirectory(e) <==> And(e[11], 0x10) != 0
  {
    NamesAre(e);
    assert Pow2(4) == 16;
    AndLow(e[11], 4);
    SixteenBit(e[11]);
  }

  lemma SixteenBit(v: nat)
    ensures And(v, 0x10) == v / 16 % 2 * 16
  {
    hide And;
    AndDouble(v, 8);
    AndDouble(v / 2, 4);
    AndDouble(v / 4, 2);
    AndDouble(v / 8, 1);
    AndOne(v / 16);
    assert v / 2 / 2 == v / 4 && v / 4 / 2 == v / 8 && v / 8 / 2 == v / 16;
  }

  lemma NamesAre(e: Entry)
    ensures IsDotDot(e) <==> e[..11] == DOT_DOT
    ensures IsDot(e) <==> e[..11] == DOT || e[..11] == DOT_DOT
  {
    if IsDotDot(e) {
      assert e[..11] == DOT_DOT;
    }
    if IsDot(e) && !IsDotDot(e) {
      assert e[..11] == DOT;
    }
    if e[..11] == DOT_DOT {
      forall i | 0 <= i < 11 ensures e[i] == DOT_DOT[i] {
        assert e[i] == e[..11][i];
      }
    }
    if e[..11] == DOT {
      forall i | 0 <= i < 11 ensures e[i] == DOT[i] {
        assert e[i] == e[..11][i];
      }
    }
  }

  /** A first cluster is kept in two halves, the low one in bytes 26 and 27, the high
      one in bytes 20 and 21, for every 32-bit number. */
  lemma ClusterReadsBack(e: Entry, c: nat)
    requires c < 0x1_0000_0000
    requires e[26..28] == LittleEndian(c % 0x1_0000, 2) && e[20..22] == LittleEndian(c / 0x1_0000, 2)
    ensures Cluster(e) == c
  {
    HalfReadsBack(e, 26, c % 0x1_0000);
    HalfReadsBack(e, 20, c / 0x1_0000);
  }

  lemma HalfReadsBack(e: Entry, at: nat, h: nat)
    requires at + 2 <= ENTRY && h < 0x1_0000 && e[at..at + 2] == LittleEndian(h, 2)
    ensures U16At(e, at) == h
  {
    assert Power(0x100, 0) == 1 && Power(0x100, 1) == 0x100;
    assert e[at] == e[at..at + 2][0] && e[at + 1] == e[at..at + 2][1];
    assert LittleEndian(h, 2)[0] == h % 0x100 && LittleEndian(h, 2)[1] == h / 0x100 % 0x100;
  }

  /** Entry `k` lies whole in the buffer and no entry up to it begins with 0. */
  ghost predicate LiveAt(buf: seq<Byte>, k: nat) {
    k * ENTRY + ENTRY <= |buf| && forall j: nat :: j <= k ==> StartsAt(buf, j) != 0
  }

  function StartsAt(buf: seq<Byte>, k: nat): int {
    if k * ENTRY < |buf| then buf[k * ENTRY] else 0
  }

  /** The live entries are the thirty-two-byte pieces before the first that begins with 0. */
  lemma LiveEntriesAre(buf: seq<Byte>, k: nat)
    ensures k < |Live(Entries(buf))| <==> LiveAt(buf, k)
    ensures LiveAt(buf, k) ==> Live(Entries(buf))[k] == buf[k * ENTRY..k * ENTRY + ENTRY]
  {
    var (es, live) := (Entries(buf), Live(Entries(buf)));
    LiveIsPrefix(es);
    assert |live| < |es| ==> es[|live|] == buf[|live| * ENTRY..|live| * ENTRY + ENTRY];
    if k < |live| {
      forall j: nat | j <= k ensures StartsAt(buf, j) != 0 {
        assert live[j] in live && live[j] == es[j];
      }
    } else if |live| < |es| {
      assert StartsAt(buf, |live|) == 0;
    }
  }

  /** The entry at byte `at` names a real subdirectory: not deleted, no part of a long
      name, marked as a directory, and neither "." nor "..". */
  predicate NamedAt(buf: seq<Byte>, at: nat)
    requires at + ENTRY <= |buf|
  {
    && buf[at] != 0xE5 && And(buf[at + 11], 0x0F) != 0x0F && And(buf[at + 11], 0x10) != 0
    && buf[at..at + 11] != DOT && buf[at..at + 11] != DOT_DOT
  }

  /** Its first cluster. */
  function ClusterAt(buf: seq<Byte>, at: nat): nat
    requires at + ENTRY <= |buf|
  {
    buf[at + 26] as int + buf[at + 27] as int * 0x100 + buf[at + 20] as int * 0x1_0000 + buf[at + 21] as int * 0x100_0000
  }

  /** `found` has the first clusters of exactly the subdirectories named before the end
      mark, at the entries `ks`, in their order. */
  ghost predicate FoundAt(buf: seq<Byte>, found: seq<nat>, ks: seq<nat>) {
    && |ks| == |found|
    && (forall i :: 0 <= i < |ks| ==> LiveAt(buf, ks[i]) && NamedAt(buf, ks[i] * ENTRY) && found[i] == ClusterAt(buf, ks[i] * ENTRY))
    && (forall i, j :: 0 <= i < j < |ks| ==> ks[i] < ks[j])
    && forall k: nat :: LiveAt(buf, k) && NamedAt(buf, k * ENTRY) ==> k in ks
  }

  function Marks(live: seq<Entry>): seq<nat> {
    if live == [] then []
    else Marks(live[..|live| - 1]) + if NamesSubdirectory(live[|live| - 1]) then [|live| - 1] else []
  }

  lemma {:induction false} SubdirectoriesLast(live: seq<Entry>, e: Entry)
    ensures Subdirectories(live + [e]) == Subdirectories(live) + if NamesSubdirectory(e) then [Cluster(e)] else []
  {
    hide NamesSubdirectory, Cluster;
    if live == [] {
      assert [] + [e] == [e] && [e][1..] == [];
    } else {
      assert (live + [e])[1..] == live[1..] + [e];
      SubdirectoriesLast(live[1..], e);
    }
  }

  lemma {:induction false} MarksAre(live: seq<Entry>)
    ensures var (ks, found) := (Marks(live), Subdirectories(live));
            && |ks| == |found|
            && (forall i :: 0 <= i < |ks| ==> ks[i] < |live| && NamesSubdirectory(live[ks[i]]) && found[i] == Cluster(live[ks[i]]))
            && (forall i, j :: 0 <= i < j < |ks| ==> ks[i] < ks[j])
            && (forall k :: 0 <= k < |live| && NamesSubdirectory(live[k]) ==> k in ks)
  {
    hide NamesSubdirectory, Cluster;
    if live != [] {
      var n := |live| - 1;
      MarksAre(live[..n]);
      SubdirectoriesLast(live[..n], live[n]);
      assert live == live[..n] + [live[n]];
    }
  }

  lemma EntryAt(buf: seq<Byte>, at: nat, e: Entry)
    requires at + ENTRY <= |buf| && e == buf[at..at + ENTRY]
    ensures NamesSubdirectory(e) <==> NamedAt(buf, at)
    ensures Cluster(e) == ClusterAt(buf, at)
  {
    TestsAreOnBytes(e);
    assert e[..11] == buf[at..at + 11];
  }

  /** Main result: the scan finds exactly the subdirectories the bytes name. */
  lemma SubdirectoriesAreNamed(buf: seq<Byte>)
    ensures FoundAt(buf, SubdirectoriesOf(buf), Marks(Live(Entries(buf))))
  {
    hide NamesSubdirectory, Cluster, NamedAt, ClusterAt, LiveAt;
    var live := Live(Entries(buf));
    var ks := Marks(live);
    MarksAre(live);
    forall i | 0 <= i < |ks|
      ensures LiveAt(buf, ks[i]) && ks[i] * ENTRY + ENTRY <= |buf| && NamedAt(buf, ks[i] * ENTRY)
              && SubdirectoriesOf(buf)[i] == ClusterAt(buf, ks[i] * ENTRY)
    {
      LiveEntriesAre(buf, ks[i]);
      LiveLies(buf, ks[i]);
      EntryAt(buf, ks[i] * ENTRY, live[ks[i]]);
    }
    forall k: nat | LiveAt(buf, k) && k * ENTRY + ENTRY <= |buf| && NamedAt(buf, k * ENTRY) ensures k in ks {
      LiveEntriesAre(buf, k);
      EntryAt(buf, k * ENTRY, live[k]);
    }
    forall k: nat | LiveAt(buf, k) ensures k * ENTRY + ENTRY <= |buf| {
      LiveLies(buf, k);
    }
  }

  lemma LiveLies(buf: seq<Byte>, k: nat)
    requires LiveAt(buf, k)
    ensures k * ENTRY + ENTRY <= |buf|
  {
  }

  /** The pass does not change which directories are below. */
  lemma TidyKeepsSubdirectories(buf: seq<Byte>, rootChild: bool)
    ensures SubdirectoriesOf(Tidy(buf, rootChild)) == SubdirectoriesOf(buf)
  {
    TidyReadsBack(buf, rootChild);
    KeptSubdirectories(Live(Entries(buf)), [], rootChild);
  }
}
