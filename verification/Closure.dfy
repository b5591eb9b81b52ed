/** Which libraries go into the Chromium package: the worklist over DT_NEEDED,
    started from what the program and the NSS modules name, cut at libraries the
    base system already has and at NSS modules nobody ships. */
module Closure {

  import opened Options

  /** A library found in the extra packages; `needed` is None if it does not parse. */
  datatype Library = Library(data: seq<int>, mode: nat, needed: Option<seq<string>>)

  datatype File = File(path: string, data: seq<int>, mode: nat)

  /** What the worklist looks things up in: the names the base has, and the
      libraries the extra packages have. */
  datatype Packages = Packages(base: set<string>, extra: map<string, Library>, nss: seq<string>)

  datatype Result = Packed(files: seq<File>, fromBase: nat) | Missing(name: string) | Unparsed(name: string)

  // ---- What must be packed ----

  /** Goes into the package. */
  predicate Packs(p: Packages, n: string) {
    n !in p.base && n in p.extra
  }

  /** Names a library brings in: none if it is cut off. */
  function Needs(p: Packages, n: string): seq<string> {
    if Packs(p, n) && p.extra[n].needed.Some? then p.extra[n].needed.value else []
  }

  /** Nothing to complain about: in the base, found and parsed, or an absent NSS module. */
  predicate Fine(p: Packages, n: string) {
    n in p.base || (n in p.extra && p.extra[n].needed.Some?) || (n !in p.extra && n in p.nss)
  }

  function FileFor(p: Packages, n: string): File
    requires n in p.extra
  {
    File("lib/" + n, p.extra[n].data, p.extra[n].mode)
  }

  /** A chain of names, each needed by the one before, from a root to `n`. */
  ghost predicate Path(p: Packages, roots: seq<string>, path: seq<string>, n: string) {
    && path != [] && path[0] in roots && path[|path| - 1] == n
    && forall i :: 0 <= i < |path| - 1 ==> path[i + 1] in Needs(p, path[i])
  }

  ghost predicate Reachable(p: Packages, roots: seq<string>, n: string) {
    exists path :: Path(p, roots, path, n)
  }

  lemma RootReachable(p: Packages, roots: seq<string>, n: string)
    requires n in roots
    ensures Reachable(p, roots, n)
  {
    assert Path(p, roots, [n], n);
  }

  lemma NeedReachable(p: Packages, roots: seq<string>, m: string, n: string)
    requires Reachable(p, roots, m) && n in Needs(p, m)
    ensures Reachable(p, roots, n)
  {
    var path :| Path(p, roots, path, m);
    assert Path(p, roots, path + [n], n);
  }

  /** Library `m` names `n`, and is packed itself. */
  predicate Names(p: Packages, m: string, n: string) {
    && m !in p.base && m in p.extra
    && p.extra[m].needed.Some? && n in p.extra[m].needed.value
  }

  /** A name comes up if it is a root, or if a library that came up, is not in the base,
      was found and parsed names it; and in no other way. */
  lemma ReachableExactly(p: Packages, roots: seq<string>, n: string)
    ensures Reachable(p, roots, n) <==> n in roots || exists m :: Reachable(p, roots, m) && Names(p, m, n)
  {
    if n in roots {
      RootReachable(p, roots, n);
    }
    if m :| Reachable(p, roots, m) && Names(p, m, n) {
      NeedReachable(p, roots, m, n);
    }
    if Reachable(p, roots, n) && n !in roots {
      var path :| Path(p, roots, path, n);
      var last := |path| - 1;
      assert path[last - 1 + 1] in Needs(p, path[last - 1]);
      assert Path(p, roots, path[..last], path[last - 1]);
      assert Names(p, path[last - 1], n);
    }
  }

  /** A set that has the roots and whatever its members need. */
  ghost predicate Closed(p: Packages, roots: seq<string>, s: set<string>) {
    && (forall n :: n in roots ==> n in s)
    && forall m, n :: m in s && n in Needs(p, m) ==> n in s
  }

  /** The reachable names lie in every closed set, so they are the least one. */
  lemma {:induction false} ReachableInClosed(p: Packages, roots: seq<string>, s: set<string>, path: seq<string>, n: string)
    requires Closed(p, roots, s) && Path(p, roots, path, n)
    ensures n in s
    decreases |path|
  {
    var last := |path| - 1;
    if last > 0 {
      assert path[last - 1 + 1] in Needs(p, path[last - 1]);
      ReachableInClosed(p, roots, s, path[..last], path[last - 1]);
    }
  }

  /** Every name that can ever come up. */
  ghost function Universe(p: Packages, roots: seq<string>): set<string> {
    (set n | n in roots) + (set m, n | m in p.extra && n in Needs(p, m) :: n)
  }

  // ---- The worklist ----

  /** The file of every library of `s` that is packed, once each, and nothing else. */
  ghost predicate FilesOf(p: Packages, files: seq<File>, s: set<string>) {
    && (forall f :: f in files ==> exists n :: n in s && Packs(p, n) && f == FileFor(p, n))
    && (forall n :: n in s && Packs(p, n) ==> FileFor(p, n) in files)
    && (forall i, j :: 0 <= i < j < |files| ==> files[i] != files[j])
  }

  lemma FilesDistinct(p: Packages, m: string, n: string)
    requires m in p.extra && n in p.extra && FileFor(p, m) == FileFor(p, n)
    ensures m == n
  {
    assert m == FileFor(p, m).path[4..] && n == FileFor(p, n).path[4..];
  }

  lemma FilesGrow(p: Packages, files: seq<File>, s: set<string>, n: string)
    requires FilesOf(p, files, s) && n !in s
    ensures Packs(p, n) ==> FilesOf(p, files + [FileFor(p, n)], s + {n})
    ensures !Packs(p, n) ==> FilesOf(p, files, s + {n})
  {
    if Packs(p, n) {
      var f := FileFor(p, n);
      if f in files {
        var m :| m in s && Packs(p, m) && f == FileFor(p, m);
        FilesDistinct(p, m, n);
      }
    }
  }

  /** Everything `m` needs is seen or still to see. */
  ghost predicate Followed(p: Packages, m: string, seen: set<string>, todo: seq<string>) {
    forall n :: n in Needs(p, m) ==> n in seen || n in todo
  }

  /** Names seen or still to see are reachable. */
  ghost predicate Grounded(p: Packages, roots: seq<string>, names: seq<string>) {
    forall n :: n in names ==> Reachable(p, roots, n) && n in Universe(p, roots)
  }

  /** Names seen or still to see are reachable, and the seen ones have left nothing out. */
  ghost predicate Progress(p: Packages, roots: seq<string>, seen: set<string>, todo: seq<string>) {
    && (forall n :: n in seen ==> Reachable(p, roots, n) && Fine(p, n) && Followed(p, n, seen, todo))
    && Grounded(p, roots, todo)
    && (forall n :: n in roots ==> n in seen || n in todo)
  }

  lemma InitialProgress(p: Packages, roots: seq<string>)
    ensures Progress(p, roots, {}, roots)
  {
    forall n | n in roots ensures Reachable(p, roots, n) {
      RootReachable(p, roots, n);
    }
  }

  lemma NeedsGrounded(p: Packages, roots: seq<string>, m: string)
    requires Reachable(p, roots, m)
    ensures Grounded(p, roots, Needs(p, m))
  {
    forall n | n in Needs(p, m) ensures Reachable(p, roots, n) && n in Universe(p, roots) {
      NeedReachable(p, roots, m, n);
    }
  }

  lemma FollowedAfter(p: Packages, m: string, seen: set<string>, todo: seq<string>, seen': set<string>, todo': seq<string>)
    requires Followed(p, m, seen, todo)
    requires forall n :: n in seen || n in todo ==> n in seen' || n in todo'
    ensures Followed(p, m, seen', todo')
  {
  }

  /** Taking off a name already seen. */
  lemma SkipProgress(p: Packages, roots: seq<string>, seen: set<string>, rest: seq<string>, n: string)
    requires Progress(p, roots, seen, rest + [n]) && n in seen
    ensures Progress(p, roots, seen, rest)
  {
    forall m | m in seen ensures Followed(p, m, seen, rest) {
      FollowedAfter(p, m, seen, rest + [n], seen, rest);
    }
  }

  /** Taking a new name off, seeing it, and putting back what it needs. */
  lemma VisitProgress(p: Packages, roots: seq<string>, seen: set<string>, rest: seq<string>, n: string)
    requires Progress(p, roots, seen, rest + [n]) && Fine(p, n)
    ensures Progress(p, roots, seen + {n}, rest + Needs(p, n))
  {
    assert n in rest + [n];
    NeedsGrounded(p, roots, n);
    forall m | m in seen + {n} ensures Followed(p, m, seen + {n}, rest + Needs(p, n)) {
      if m != n {
        FollowedAfter(p, m, seen, rest + [n], seen + {n}, rest + Needs(p, n));
      }
    }
  }

  /** What the seen names still leave to see shrinks, and the base's share is counted. */
  lemma SeeOne(universe: set<string>, base: set<string>, seen: set<string>, n: string)
    requires n in universe && n !in seen
    ensures |universe - (seen + {n})| < |universe - seen|
    ensures |(seen + {n}) * base| == |seen * base| + if n in base then 1 else 0
  {
    assert universe - (seen + {n}) == (universe - seen) - {n};
    if n in base {
      assert (seen + {n}) * base == seen * base + {n};
    } else {
      assert (seen + {n}) * base == seen * base;
    }
  }

  /** Everything that can be reached is fine. */
  ghost predicate AllFine(p: Packages, roots: seq<string>) {
    forall n :: Reachable(p, roots, n) ==> Fine(p, n)
  }

  /** `files` is the package: one file for each reachable library outside the base. */
  ghost predicate IsPackage(p: Packages, roots: seq<string>, files: seq<File>, fromBase: nat) {
    exists s: set<string> :: IsLeast(p, roots, s) && FilesOf(p, files, s) && fromBase == |s * p.base|
  }

  /** `s` is what the roots reach. */
  ghost predicate IsLeast(p: Packages, roots: seq<string>, s: set<string>) {
    forall n :: n in s <==> Reachable(p, roots, n)
  }

  /** When nothing is left to do, what was seen is exactly what is reachable. */
  lemma DoneIsExact(p: Packages, roots: seq<string>, seen: set<string>)
    requires Progress(p, roots, seen, [])
    ensures IsLeast(p, roots, seen) && AllFine(p, roots)
  {
    forall m, n | m in seen && n in Needs(p, m) ensures n in seen {
      assert Followed(p, m, seen, []);
    }
    forall n | Reachable(p, roots, n) ensures n in seen {
      var path :| Path(p, roots, path, n);
      ReachableInClosed(p, roots, seen, path, n);
    }
  }

  /** The name on top of the stack came up by being needed. */
  lemma TopOff(p: Packages, roots: seq<string>, seen: set<string>, todo: seq<string>)
    requires Progress(p, roots, seen, todo) && todo != []
    ensures todo == todo[..|todo| - 1] + [todo[|todo| - 1]]
    ensures Reachable(p, roots, todo[|todo| - 1]) && todo[|todo| - 1] in Universe(p, roots)
    ensures !Fine(p, todo[|todo| - 1]) ==> !AllFine(p, roots)
  {
    assert todo[|todo| - 1] in todo;
  }

  /** A library that has to be packed: it comes up, is not in the base, and was found. */
  ghost predicate Wanted(p: Packages, roots: seq<string>, n: string) {
    Reachable(p, roots, n) && n !in p.base && n in p.extra
  }

  /** Some file is this library under lib/, with its data and mode. */
  ghost predicate HasLibrary(p: Packages, files: seq<File>, n: string)
    requires n in p.extra
  {
    exists f :: f in files && f.path == "lib/" + n && f.data == p.extra[n].data && f.mode == p.extra[n].mode
  }

  /** A file of the package is a wanted library. */
  ghost predicate IsLibrary(p: Packages, roots: seq<string>, f: File) {
    exists n :: Wanted(p, roots, n) && f.path == "lib/" + n && f.data == p.extra[n].data && f.mode == p.extra[n].mode
  }

  /** What the package holds, library by library: no path twice, the wanted ones, no others. */
  ghost predicate HoldsLibraries(p: Packages, roots: seq<string>, files: seq<File>) {
    && (forall n :: Wanted(p, roots, n) ==> HasLibrary(p, files, n))
    && (forall f :: f in files ==> IsLibrary(p, roots, f))
    && (forall i, j :: 0 <= i < j < |files| ==> files[i].path != files[j].path)
  }

  lemma FilesHold(p: Packages, roots: seq<string>, files: seq<File>, s: set<string>, f: File)
    requires IsLeast(p, roots, s) && FilesOf(p, files, s) && f in files
    ensures IsLibrary(p, roots, f)
  {
    var n :| n in s && Packs(p, n) && f == FileFor(p, n);
    assert Wanted(p, roots, n);
  }

  lemma PathsDistinct(p: Packages, files: seq<File>, s: set<string>, f: File, g: File)
    requires FilesOf(p, files, s) && f in files && g in files && f.path == g.path
    ensures f == g
  {
    var m :| m in s && Packs(p, m) && f == FileFor(p, m);
    var n :| n in s && Packs(p, n) && g == FileFor(p, n);
    assert m == f.path[4..] && n == g.path[4..];
  }

  lemma PackageHolds(p: Packages, roots: seq<string>, files: seq<File>, fromBase: nat)
    requires IsPackage(p, roots, files, fromBase)
    ensures HoldsLibraries(p, roots, files)
  {
    hide IsLibrary, Reachable;
    var s: set<string> :| IsLeast(p, roots, s) && FilesOf(p, files, s) && fromBase == |s * p.base|;
    forall n | Wanted(p, roots, n) ensures HasLibrary(p, files, n) {
      assert FileFor(p, n) in files;
    }
    forall f | f in files ensures IsLibrary(p, roots, f) {
      FilesHold(p, roots, files, s, f);
    }
    forall i, j | 0 <= i < j < |files| ensures files[i].path != files[j].path {
      if files[i].path == files[j].path {
        PathsDistinct(p, files, s, files[i], files[j]);
      }
    }
  }

  /** Main result: the worklist ends, and it succeeds exactly when every reachable
      name is fine; then it packs, without repeats, exactly the files of the
      reachable libraries that the base does not have. */
  method Collect(binaryNeeds: seq<string>, p: Packages) returns (r: Result)
    ensures r.Packed? <==> AllFine(p, binaryNeeds + p.nss)
    ensures r.Packed? ==> IsPackage(p, binaryNeeds + p.nss, r.files, r.fromBase)
    ensures r.Packed? ==> HoldsLibraries(p, binaryNeeds + p.nss, r.files)
    ensures r.Packed? ==> forall n :: Reachable(p, binaryNeeds + p.nss, n) ==>
                            n in p.base || (if n in p.extra then p.extra[n].needed.Some? else n in p.nss)
    ensures r.Missing? ==> Reachable(p, binaryNeeds + p.nss, r.name)
                           && r.name !in p.base && r.name !in p.extra && r.name !in p.nss
    ensures r.Unparsed? ==> Reachable(p, binaryNeeds + p.nss, r.name)
                            && r.name !in p.base && r.name in p.extra && p.extra[r.name].needed == None
  {
    ghost var roots := binaryNeeds + p.nss;
    ghost var universe := Universe(p, roots);
    var files: seq<File>, fromBase := [], 0;
    var seen: set<string> := {};
    var todo := binaryNeeds;
    todo := todo + p.nss;
    InitialProgress(p, roots);
    while todo != []
      invariant Progress(p, roots, seen, todo)
      invariant FilesOf(p, files, seen)
      invariant fromBase == |seen * p.base|
      decreases |universe - seen|, |todo|
    {
      TopOff(p, roots, seen, todo);
      var name, rest := todo[|todo| - 1], todo[..|todo| - 1];
      todo := rest;
      if name in seen {
        SkipProgress(p, roots, seen, rest, name);
        continue;
      }
      ghost var before := seen;
      FilesGrow(p, files, before, name);
      SeeOne(universe, p.base, before, name);
      seen := seen + {name};
      if name in p.base {
        fromBase := fromBase + 1;
        VisitProgress(p, roots, before, rest, name);
        assert rest + Needs(p, name) == rest;
        continue;
      }
      if name !in p.extra {
        if name in p.nss {
          VisitProgress(p, roots, before, rest, name);
          assert rest + Needs(p, name) == rest;
          continue;
        }
        return Missing(name);
      }
      var library := p.extra[name];
      if library.needed.None? {
        return Unparsed(name);
      }
      VisitProgress(p, roots, before, rest, name);
      todo := todo + library.needed.value;
      files := files + [File("lib/" + name, library.data, library.mode)];
    }
    DoneIsExact(p, roots, seen);
    assert IsPackage(p, roots, files, fromBase);
    PackageHolds(p, roots, files, fromBase);
    return Packed(files, fromBase);
  }
}
