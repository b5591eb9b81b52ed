/** Paths: folding "." and ".." by text, in a bounded C buffer (files.c) and on a
    stack of components (debian.rs), and the current directory kept by `chdir`. */
module PathFold {

  import opened Options

  /** The longest path the kernel accepts; a buffer has room for the terminator too. */
  const LIMIT: nat := 255

  /** The characters of a C string, without its terminator. */
  type CString = s: string | '\0' !in s

  // ---- Components ----

  function IndexOfSlash(path: string): (i: nat)
    ensures i <= |path| && '/' !in path[..i] && (i < |path| ==> path[i] == '/')
  {
    if path == "" || path[0] == '/' then 0
    else
      var i := 1 + IndexOfSlash(path[1..]);
      assert path[..i] == [path[0]] + path[1..][..i - 1];
      i
  }

  /** The pieces between slashes, empty ones included. */
  function Split(path: string): (parts: seq<string>)
    ensures parts != []
    decreases |path|
  {
    var i := IndexOfSlash(path);
    if i == |path| then [path] else [path[..i]] + Split(path[i + 1..])
  }

  /** A component that stands for itself. */
  predicate Name(c: string) {
    Plain(c) && '\0' !in c
  }

  /** A component that is not special. */
  predicate Plain(c: string) {
    c != "" && c != "." && c != ".." && '/' !in c
  }

  predicate Names(stack: seq<string>) {
    forall c :: c in stack ==> Name(c)
  }

  /** One component: "" and "." change nothing, ".." leaves a directory but not the root. */
  function FoldPart(stack: seq<string>, part: string): seq<string> {
    if part == "" || part == "." then stack
    else if part == ".." then (if stack == [] then [] else stack[..|stack| - 1])
    else stack + [part]
  }

  function Fold(stack: seq<string>, parts: seq<string>): seq<string>
    decreases |parts|
  {
    if parts == [] then stack else Fold(FoldPart(stack, parts[0]), parts[1..])
  }

  function Join(stack: seq<string>): string {
    if stack == [] then ""
    else if |stack| == 1 then stack[0]
    else Join(stack[..|stack| - 1]) + "/" + stack[|stack| - 1]
  }

  /** The absolute path of a stack of components. */
  function Render(stack: seq<string>): string {
    "/" + Join(stack)
  }

  /** Folding as the bounded buffer does it: refuse as soon as a path gets too long. */
  function TryFold(stack: seq<string>, parts: seq<string>): Option<seq<string>>
    decreases |parts|
  {
    if parts == [] then Some(stack)
    else
      var next := FoldPart(stack, parts[0]);
      if |stack| < |next| && |Render(next)| > LIMIT then None else TryFold(next, parts[1..])
  }

  lemma {:induction false} TryFoldFolds(stack: seq<string>, parts: seq<string>)
    requires TryFold(stack, parts).Some?
    ensures TryFold(stack, parts).value == Fold(stack, parts)
    decreases |parts|
  {
    if parts != [] {
      TryFoldFolds(FoldPart(stack, parts[0]), parts[1..]);
    }
  }

  lemma {:induction false} FoldKeepsNames(stack: seq<string>, parts: seq<string>)
    requires Names(stack) && forall p :: p in parts ==> '/' !in p && '\0' !in p
    ensures Names(Fold(stack, parts))
    decreases |parts|
  {
    if parts != [] {
      FoldKeepsNames(FoldPart(stack, parts[0]), parts[1..]);
    }
  }

  /** A path that only gets shorter stays within the limit. */
  lemma {:induction false} TryFoldFits(stack: seq<string>, parts: seq<string>)
    requires |Render(stack)| <= LIMIT && TryFold(stack, parts).Some?
    ensures |Render(TryFold(stack, parts).value)| <= LIMIT
    decreases |parts|
  {
    if parts != [] {
      TryFoldFits(FoldPart(stack, parts[0]), parts[1..]);
    }
  }

  lemma {:induction false} SplitPieces(path: CString)
    ensures forall p :: p in Split(path) ==> '/' !in p && '\0' !in p
    decreases |path|
  {
    var i := IndexOfSlash(path);
    if i < |path| {
      SplitPieces(path[i + 1..]);
    }
  }

  // ---- The algebra of folding ----

  lemma {:induction false} TryFoldConcat(stack: seq<string>, a: seq<string>, b: seq<string>)
    ensures TryFold(stack, a + b) == match TryFold(stack, a) case None => None case Some(mid) => TryFold(mid, b)
    decreases |a|
  {
    if a == [] {
      assert a + b == b;
    } else {
      assert (a + b)[1..] == a[1..] + b;
      TryFoldConcat(FoldPart(stack, a[0]), a[1..], b);
    }
  }

  lemma {:induction false} IndexOfSlashConcat(a: string, b: string)
    ensures IndexOfSlash(a + "/" + b) == IndexOfSlash(a)
  {
    if a != "" && a[0] != '/' {
      assert (a + "/" + b)[1..] == a[1..] + "/" + b;
      IndexOfSlashConcat(a[1..], b);
    }
  }

  lemma SplitFirst(path: string, i: nat, first: string, rest: string)
    requires i == IndexOfSlash(path) < |path| && path[..i] == first && path[i + 1..] == rest
    ensures Split(path) == [first] + Split(rest)
  {
  }

  lemma SplitWhole(path: string)
    requires IndexOfSlash(path) == |path|
    ensures Split(path) == [path]
  {
  }

  lemma {:induction false} SplitConcat(a: string, b: string)
    ensures Split(a + "/" + b) == Split(a) + Split(b)
    decreases |a|
  {
    hide Split, IndexOfSlash;
    IndexOfSlashConcat(a, b);
    var i := IndexOfSlash(a);
    if i == |a| {
      SplitFirst(a + "/" + b, i, a, b);
      SplitWhole(a);
    } else {
      SplitFirst(a, i, a[..i], a[i + 1..]);
      SplitFirst(a + "/" + b, i, a[..i], a[i + 1..] + "/" + b);
      SplitConcat(a[i + 1..], b);
      assert [a[..i]] + (Split(a[i + 1..]) + Split(b)) == [a[..i]] + Split(a[i + 1..]) + Split(b);
    }
  }

  lemma {:induction false} FoldConcat(stack: seq<string>, a: seq<string>, b: seq<string>)
    ensures Fold(stack, a + b) == Fold(Fold(stack, a), b)
    decreases |a|
  {
    if a == [] {
      assert a + b == b;
    } else {
      assert (a + b)[1..] == a[1..] + b;
      FoldConcat(FoldPart(stack, a[0]), a[1..], b);
    }
  }

  /** What one component does: nothing if it is empty or ".", back to the parent if it
      is "..", except at the root, and otherwise one level down. */
  lemma FoldingLaws(stack: seq<string>, c: string)
    requires Plain(c)
    ensures Fold(stack, [""]) == stack && Fold(stack, ["."]) == stack
    ensures Fold(stack, [c]) == stack + [c]
    ensures Fold(stack + [c], [".."]) == stack && Fold([], [".."]) == []
    ensures Fold(stack, [c, ".."]) == stack
  {
    FoldConcat(stack, [c], [".."]);
    assert [c] + [".."] == [c, ".."];
  }

  /** The same for the bounded version, which refuses exactly when going down would make
      the path longer than 255 characters. */
  lemma BoundedFoldingLaws(stack: seq<string>, c: string)
    requires Plain(c)
    ensures TryFold(stack, [""]) == Some(stack) && TryFold(stack, ["."]) == Some(stack)
    ensures TryFold(stack, [c]) == if |Render(stack + [c])| > 255 then None else Some(stack + [c])
    ensures TryFold(stack + [c], [".."]) == Some(stack) && TryFold([], [".."]) == Some([])
  {
  }

  /** How a stack is written: each component after a slash. */
  lemma RenderLaws(stack: seq<string>, c: string)
    ensures Render([]) == "/"
    ensures Render(stack + [c]) == if stack == [] then "/" + c else Render(stack) + "/" + c
  {
    assert (stack + [c])[..|stack|] == stack;
  }

  /** The folded form of a path from the root, as it is written. */
  function Canonical(path: string): string {
    Render(Fold([], Split(path)))
  }

  lemma CanonicalStep(p: string, part: string)
    requires '/' !in part
    ensures Canonical(p + "/" + part) == Render(Fold(Fold([], Split(p)), [part]))
  {
    SplitConcat(p, part);
    SplitName(part);
    FoldConcat([], Split(p), [part]);
  }

  /** Main result: the folded form of every path, by what it ends in. A name goes one
      level down, ".." undoes it and does nothing at the root, "." and an empty
      component do nothing. */
  lemma CanonicalLaws(p: string, c: string)
    requires Plain(c)
    ensures Canonical("") == "/" && Canonical("..") == "/"
    ensures Canonical(p + "/" + "") == Canonical(p) && Canonical(p + "/" + ".") == Canonical(p)
    ensures Canonical(p + "/" + c) == if Canonical(p) == "/" then "/" + c else Canonical(p) + "/" + c
    ensures Canonical(p + "/" + c + "/" + "..") == Canonical(p)
  {
    hide Fold, Split, Render;
    SplitName("");
    SplitName("..");
    var stack := Fold([], Split(p));
    FoldingLaws(stack, c);
    FoldingLaws([], c);
    CanonicalStep(p, "");
    CanonicalStep(p, ".");
    CanonicalStep(p, c);
    CanonicalStep(p + "/" + c, "..");
    SplitConcat(p, c);
    SplitName(c);
    FoldConcat([], Split(p), [c]);
    RenderLaws(stack, c);
    NoEmptyParts([], Split(p));
    RootIsShort(stack);
  }

  /** Only the root is written as a slash alone. */
  lemma RootIsShort(stack: seq<string>)
    requires "" !in stack
    ensures Render(stack) == "/" <==> stack == []
  {
    if |stack| == 1 {
      assert stack[0] in stack;
    }
  }

  lemma {:induction false} NoEmptyParts(stack: seq<string>, parts: seq<string>)
    requires "" !in stack
    ensures "" !in Fold(stack, parts)
    decreases |parts|
  {
    if parts != [] {
      NoEmptyParts(FoldPart(stack, parts[0]), parts[1..]);
    }
  }

  /** Folding a and then b is folding "a/b", the refusals included. */
  lemma FoldingComposes(stack: seq<string>, a: string, b: string)
    ensures TryFold(stack, Split(a + "/" + b))
         == match TryFold(stack, Split(a)) case None => None case Some(mid) => TryFold(mid, Split(b))
  {
    SplitConcat(a, b);
    TryFoldConcat(stack, Split(a), Split(b));
  }

  lemma SplitName(c: string)
    requires '/' !in c
    ensures Split(c) == [c]
  {
  }

  lemma JoinLast(stack: seq<string>)
    requires |stack| > 1
    ensures Join(stack) == Join(stack[..|stack| - 1]) + "/" + stack[|stack| - 1]
  {
  }

  lemma NoSlash(stack: seq<string>, i: nat)
    requires Names(stack) && i < |stack|
    ensures '/' !in stack[i]
  {
    assert stack[i] in stack;
  }

  lemma NamesBefore(stack: seq<string>, n: nat)
    requires Names(stack) && n <= |stack|
    ensures Names(stack[..n])
  {
  }

  lemma {:induction false} SplitJoin(stack: seq<string>)
    requires Names(stack) && stack != []
    ensures Split(Join(stack)) == stack
    decreases |stack|
  {
    hide Split, IndexOfSlash, Names;
    var n := |stack| - 1;
    NoSlash(stack, n);
    SplitName(stack[n]);
    if n > 0 {
      hide Join;
      NamesBefore(stack, n);
      SplitJoin(stack[..n]);
      SplitConcat(Join(stack[..n]), stack[n]);
      JoinLast(stack);
      assert stack == stack[..n] + [stack[n]];
    }
  }

  lemma {:induction false} PushNames(stack: seq<string>, names: seq<string>)
    requires Names(names) && |Render(stack + names)| <= LIMIT
    ensures TryFold(stack, names) == Some(stack + names)
    decreases |names|
  {
    hide Join;
    if names == [] {
      assert stack + names == stack;
    } else {
      assert names[0] in names && Names(names[1..]);
      JoinGrows(stack + [names[0]], names[1..]);
      assert stack + [names[0]] + names[1..] == stack + names;
      PushNames(stack + [names[0]], names[1..]);
    }
  }

  lemma {:induction false} JoinGrows(stack: seq<string>, more: seq<string>)
    ensures |Join(stack)| <= |Join(stack + more)|
    decreases |more|
  {
    var n := |more| - 1;
    if n < 0 {
      assert stack + more == stack;
    } else {
      JoinGrows(stack, more[..n]);
      assert (stack + more)[..|stack + more| - 1] == stack + more[..n];
    }
  }

  /** A folded path is a fixed point: folding it from the root gives it back. */
  lemma FoldedIsFixed(stack: seq<string>)
    requires Names(stack) && |Render(stack)| <= LIMIT
    ensures TryFold([], Split(Render(stack))) == Some(stack)
  {
    SplitConcat("", Join(stack));
    assert "" + "/" + Join(stack) == Render(stack);
    SplitName("");
    assert Split(Render(stack)) == [""] + Split(Join(stack));
    if stack == [] {
      assert [""][1..] == [] && ["", ""][1..] == [""];
    } else {
      SplitJoin(stack);
      assert [] + stack == stack;
      PushNames([], stack);
    }
  }

  // ---- debian.rs: a vector of components ----

  /** Fold a path given from the root, without the leading slash. */
  method Normalize(path: string) returns (r: string)
    ensures r == Join(Fold([], Split(path))) && "/" + r == Canonical(path)
  {
    var pieces := Split(path);
    var parts: seq<string> := [];
    for i := 0 to |pieces|
      invariant Fold(parts, pieces[i..]) == Fold([], pieces)
    {
      var part := pieces[i];
      if part == "" || part == "." {
      } else if part == ".." {
        if |parts| > 0 {
          parts := parts[..|parts| - 1];
        }
      } else {
        parts := parts + [part];
      }
      assert pieces[i..][1..] == pieces[i + 1..];
    }
    r := Join(parts);
  }

  // ---- files.c: a bounded buffer ----

  /** The buffer holds the path of `stack`, terminated. */
  ghost predicate Holds(out: array<char>, len: nat, stack: seq<string>)
    reads out
  {
    && out.Length == LIMIT + 1 && len <= LIMIT
    && Names(stack)
    && out[..len] == Render(stack) && out[len] == '\0'
  }

  /** Copy characters into the buffer and terminate them. */
  method Append(out: array<char>, len: nat, text: string) returns (end: nat)
    requires len + |text| < out.Length
    modifies out
    ensures end == len + |text|
    ensures out[..end] == old(out[..len]) + text && out[end] == '\0'
  {
    ghost var before := out[..len];
    for i := 0 to |text|
      invariant out[..len + i] == before + text[..i]
    {
      out[len + i] := text[i];
      assert out[..len + i + 1] == out[..len + i] + [text[i]];
    }
    end := len + |text|;
    out[end] := '\0';
    assert text[..|text|] == text;
  }

  /** Leave a directory: cut back to the last slash, and drop that too unless it is the root. */
  method PopPart(out: array<char>, len0: nat, ghost stack: seq<string>) returns (len: nat)
    requires Holds(out, len0, stack)
    modifies out
    ensures Holds(out, len, FoldPart(stack, ".."))
  {
    len := len0;
    ghost var keep := if stack == [] then 0 else |Join(stack)| - |stack[|stack| - 1]|;
    CutPoint(stack);
    while len > 1 && out[len - 1] != '/'
      invariant 1 + keep <= len <= len0
      invariant len == 1 || len > 1 + keep || out[len - 1] == '/'
    {
      assert out[len - 1] == Render(stack)[len - 1];
      len := len - 1;
    }
    assert len > 1 ==> out[..len][len - 1] == Render(stack)[len - 1];
    assert len == 1 + keep;
    if len > 1 {
      len := len - 1;
    }
    ghost var kept := out[..len];
    assert kept == Render(stack)[..len];
    out[len] := '\0';
    assert out[..len] == kept;
  }

  /** Where the last component of a rendered path begins. */
  lemma CutPoint(stack: seq<string>)
    requires Names(stack)
    ensures stack == [] ==> Render(stack) == "/"
    ensures stack != [] ==>
              var keep := |Join(stack)| - |stack[|stack| - 1]|;
              && 0 <= keep
              && (forall i :: 1 + keep <= i < |Render(stack)| ==> Render(stack)[i] != '/')
              && (keep > 0 ==> Render(stack)[keep] == '/' && Render(stack)[..keep] == Render(stack[..|stack| - 1]))
              && (keep == 0 ==> |stack| == 1)
  {
    if stack != [] {
      var last := stack[|stack| - 1];
      var keep := |Join(stack)| - |last|;
      assert last in stack;
      assert Render(stack)[1 + keep..] == last;
      forall i | 1 + keep <= i < |Render(stack)| ensures Render(stack)[i] != '/' {
        assert Render(stack)[i] == last[i - 1 - keep];
      }
    }
  }

  /** Append one component, folding "." and "..". */
  method PushPart(out: array<char>, len0: nat, part: string, ghost stack: seq<string>) returns (ok: bool, len: nat)
    requires Holds(out, len0, stack) && '/' !in part && '\0' !in part
    modifies out
    ensures ok <==> TryFold(stack, [part]).Some?
    ensures ok ==> Holds(out, len, FoldPart(stack, part))
    ensures ok <==> !Plain(part) || |Render(stack)| + (if stack == [] then 0 else 1) + |part| <= 255
    ensures part == "" || part == "." ==> Holds(out, len, stack)
    ensures part == ".." ==> Holds(out, len, if stack == [] then [] else stack[..|stack| - 1])
    ensures ok && Plain(part) ==> Holds(out, len, stack + [part])
    ensures !ok ==> len == len0 && out[..] == old(out[..])
  {
    ok, len := true, len0;
    if part == "" || part == "." {
      return;
    }
    if part == ".." {
      len := PopPart(out, len0, stack);
      return;
    }
    assert Render(stack + [part]) == Render(stack) + (if len > 1 then "/" else "") + part by {
      assert (stack + [part])[..|stack|] == stack;
      JoinEmpty(stack);
    }
    var need := len + (if len > 1 then 1 else 0) + |part|;
    if need > LIMIT {
      return false, len0;
    }
    if len > 1 {
      ghost var before := out[..len];
      out[len] := '/';
      assert out[..len + 1] == before + "/";
      len := len + 1;
    }
    len := Append(out, len, part);
  }

  lemma JoinEmpty(stack: seq<string>)
    requires Names(stack)
    ensures Join(stack) == "" <==> stack == []
  {
    if stack != [] {
      assert stack[|stack| - 1] in stack;
    }
  }

  /** The next component: skip slashes, then run to a slash or the end. */
  method NextPart(path: string, at: nat) returns (from: nat, end: nat)
    requires at < |path|
    ensures at <= from <= end <= |path| && at < end
    ensures forall i :: at <= i < from ==> path[i] == '/'
    ensures '/' !in path[from..end] && (end < |path| ==> path[end] == '/')
  {
    from := at;
    while from < |path| && path[from] == '/'
      invariant at <= from <= |path|
      invariant forall i :: at <= i < from ==> path[i] == '/'
    {
      from := from + 1;
    }
    end := from;
    while end < |path| && path[end] != '/'
      invariant from <= end <= |path| && '/' !in path[from..end]
    {
      assert path[from..end + 1] == path[from..end] + [path[end]];
      end := end + 1;
    }
  }

  lemma {:induction false} SlashesIgnored(stack: seq<string>, path: string, at: nat, from: nat)
    requires at <= from <= |path| && forall i :: at <= i < from ==> path[i] == '/'
    ensures TryFold(stack, Split(path[at..])) == TryFold(stack, Split(path[from..]))
    decreases from - at
  {
    if at < from {
      SlashIgnored(stack, path[at..]);
      assert path[at..][1..] == path[at + 1..];
      SlashesIgnored(stack, path, at + 1, from);
    }
  }

  /** What one round of the loop below does to the folding still to come. */
  lemma RoundFolds(stack: seq<string>, path: string, at: nat, from: nat, end: nat)
    requires at <= from <= end <= |path| && forall i :: at <= i < from ==> path[i] == '/'
    requires '/' !in path[from..end] && (end < |path| ==> path[end] == '/')
    ensures TryFold(stack, Split(path[at..]))
         == if TryFold(stack, [path[from..end]]).None? then None
            else TryFold(FoldPart(stack, path[from..end]), Split(path[end..]))
  {
    hide TryFold, FoldPart, Split;
    SlashesIgnored(stack, path, at, from);
    assert path[from..][end - from..] == path[end..] && path[from..][..end - from] == path[from..end];
    PartTaken(stack, path[from..], end - from);
  }

  /** Append all components of a path. */
  method PushPath(out: array<char>, len0: nat, path: CString, ghost stack0: seq<string>) returns (ok: bool, len: nat)
    requires Holds(out, len0, stack0)
    modifies out
    ensures ok <==> TryFold(stack0, Split(path)).Some?
    ensures ok ==> Holds(out, len, TryFold(stack0, Split(path)).value)
  {
    ok, len := true, len0;
    var at := 0;
    ghost var stack := stack0;
    ghost var whole := TryFold(stack0, Split(path));
    assert path[0..] == path;
    while at < |path|
      invariant ok && at <= |path| && Holds(out, len, stack)
      invariant whole == TryFold(stack, Split(path[at..]))
    {
      var from, end := NextPart(path, at);
      RoundFolds(stack, path, at, from, end);
      ok, len := PushPart(out, len, path[from..end], stack);
      if !ok {
        return;
      }
      stack := FoldPart(stack, path[from..end]);
      at := end;
    }
    NothingLeft(stack, path);
  }

  lemma NothingLeft(stack: seq<string>, path: string)
    ensures TryFold(stack, Split(path[|path|..])) == Some(stack)
  {
    assert path[|path|..] == "" && [""][1..] == [];
  }

  /** A slash in front adds an empty piece, which folds to nothing. */
  lemma SlashIgnored(stack: seq<string>, path: string)
    requires path != "" && path[0] == '/'
    ensures TryFold(stack, Split(path)) == TryFold(stack, Split(path[1..]))
  {
    assert Split(path) == [""] + Split(path[1..]);
  }

  /** Taking the piece up to a slash or the end, and going on from there. */
  lemma PartTaken(stack: seq<string>, path: string, n: nat)
    requires n <= |path| && '/' !in path[..n] && (n < |path| ==> path[n] == '/')
    ensures TryFold(stack, Split(path))
         == if TryFold(stack, [path[..n]]).None? then None else TryFold(FoldPart(stack, path[..n]), Split(path[n..]))
  {
    SlashIs(path, n);
    assert [path[..n]][1..] == [];
    if n == |path| {
      assert path[..n] == path && path[n..] == "";
      assert Split("") == [""];
    } else {
      SlashIgnored(FoldPart(stack, path[..n]), path[n..]);
      assert path[n..][1..] == path[n + 1..];
    }
  }

  lemma {:induction false} SlashIs(path: string, n: nat)
    requires n <= |path| && '/' !in path[..n] && (n < |path| ==> path[n] == '/')
    ensures IndexOfSlash(path) == n
  {
    if n > 0 {
      assert path[0] == path[..n][0] && path[1..][..n - 1] == path[..n][1..];
      SlashIs(path[1..], n - 1);
    }
  }

  /** Main result: when the buffer version succeeds from the root, it leaves there
      exactly a slash and what the stack version gives. */
  lemma BufferRefinesStack(path: CString)
    requires TryFold([], Split(path)).Some?
    ensures Render(TryFold([], Split(path)).value) == "/" + Join(Fold([], Split(path)))
  {
    TryFoldFolds([], Split(path));
  }

  // ---- The current directory ----

  datatype Stat = Missing | OtherThanDirectory | Directory

  datatype Errno = Done | EFAULT | ENOENT | ENAMETOOLONG | StatFailed | ENOTDIR

  /** Where a path leads from the directory `stack`. */
  function Target(stack: seq<string>, path: CString): Option<seq<string>>
    requires path != ""
  {
    TryFold(if path[0] == '/' then [] else stack, Split(path))
  }

  /** What `chdir` answers, and the directory it leaves behind. */
  function Chdir(stack: seq<string>, path: Option<CString>, stat: string -> Stat): (Errno, seq<string>) {
    if path.None? then (EFAULT, stack)
    else if path.value == "" then (ENOENT, stack)
    else match Target(stack, path.value)
         case None => (ENAMETOOLONG, stack)
         case Some(next) =>
           match stat(Render(next))
           case Missing => (StatFailed, stack)
           case OtherThanDirectory => (ENOTDIR, stack)
           case Directory => (Done, next)
  }

  lemma {:induction false} RenderIsCString(stack: seq<string>)
    requires Names(stack)
    ensures '\0' !in Render(stack)
  {
    if stack != [] {
      var n := |stack| - 1;
      assert stack[0] in stack && stack[n] in stack;
      if n > 0 {
        RenderIsCString(stack[..n]);
        assert Render(stack) == Render(stack[..n]) + "/" + stack[n];
      }
    }
  }

  /** The static state of files.c. `stack` is what the buffer means. */
  class Process {
    const cwd: array<char>
    ghost var stack: seq<string>

    ghost predicate Valid()
      reads this, cwd
    {
      && |Render(stack)| <= LIMIT
      && Holds(cwd, |Render(stack)|, stack)
    }

    constructor ()
      ensures Valid() && fresh(cwd) && stack == []
    {
      cwd := new char[LIMIT + 1](i => if i == 0 then '/' else '\0');
      stack := [];
      new;
      assert cwd[..1] == "/";
    }

    /** The length of the C string in the buffer. */
    method Length() returns (len: nat)
      requires Valid()
      ensures len == |Render(stack)|
    {
      RenderIsCString(stack);
      ghost var text := cwd[..|Render(stack)|];
      assert forall i :: 0 <= i < |text| ==> cwd[i] == text[i] && text[i] != '\0';
      len := 0;
      while cwd[len] != '\0'
        invariant len <= |Render(stack)|
        decreases |Render(stack)| - len
      {
        len := len + 1;
      }
    }

    /** Make the path absolute: as it is, or glued to the current directory in `buf`. */
    method Absolute(path: CString, buf: array<char>) returns (ok: bool, full: CString)
      requires Valid() && path != "" && buf.Length == LIMIT + 1 && buf != cwd
      modifies buf
      ensures Valid() && stack == old(stack)
      ensures ok <==> path[0] == '/' || TryFold(stack, Split(path)).Some?
      ensures ok ==> full == if path[0] == '/' then path else Render(TryFold(stack, Split(path)).value)
      ensures ok && path[0] != '/' ==>
                Names(TryFold(stack, Split(path)).value) && |Render(TryFold(stack, Split(path)).value)| <= LIMIT
    {
      if path[0] == '/' {
        return true, path;
      }
      var len := Length();
      ghost var text := cwd[..len];
      var n := Append(buf, 0, cwd[..len]);
      assert buf[..n] == text;
      ok, len := PushPath(buf, len, path, stack);
      full := "";
      if ok {
        RenderIsCString(TryFold(stack, Split(path)).value);
        full := buf[..len];
      }
    }

    /** Change the current directory: fold, look, and only then overwrite. */
    method ChangeDirectory(path: Option<CString>, stat: string -> Stat) returns (r: Errno)
      requires Valid()
      modifies this, cwd
      ensures Valid()
      ensures (r, stack) == Chdir(old(stack), path, stat)
      ensures r == EFAULT <==> path == None
      ensures r == ENOENT <==> path.Some? && path.value == ""
      ensures r == ENAMETOOLONG <==> path.Some? && path.value != "" && Target(old(stack), path.value) == None
      ensures r == Done ==> path.Some? && path.value != "" && Target(old(stack), path.value) == Some(stack)
                            && stat(Render(stack)) == Directory
      ensures r != Done ==> stack == old(stack)
      ensures r == StatFailed || r == ENOTDIR ==>
                path.Some? && path.value != "" && Target(old(stack), path.value).Some?
                && stat(Render(Target(old(stack), path.value).value)) == (if r == ENOTDIR then OtherThanDirectory else Missing)
    {
      hide TryFold, FoldPart, Split, Join;
      if path.None? {
        return EFAULT;
      }
      if path.value == "" {
        return ENOENT;
      }
      var buf := new char[LIMIT + 1](_ => '\0');
      var next := new char[LIMIT + 1](i => if i == 0 then '/' else '\0');
      var ok, full := Absolute(path.value, buf);
      if !ok {
        return ENAMETOOLONG;
      }
      RenderLaws([], "");
      assert next[..1] == Render([]);
      ghost var target := Target(stack, path.value);
      if path.value[0] != '/' {
        FoldedIsFixed(target.value);
      }
      var len;
      ok, len := PushPath(next, 1, full, []);
      if !ok {
        return ENAMETOOLONG;
      }
      match stat(next[..len]) {
        case Missing => return StatFailed;
        case OtherThanDirectory => return ENOTDIR;
        case Directory =>
          var n := Append(cwd, 0, next[..len]);
          assert cwd[..n] == next[..len];
          stack := target.value;
          return Done;
      }
    }
  }

  /** A relative path leads on from the current directory, an absolute one from the root. */
  lemma TargetStarts(stack: seq<string>, path: CString)
    requires path != ""
    ensures path[0] == '/' ==> Target(stack, path) == TryFold([], Split(path[1..]))
    ensures path[0] != '/' ==> Target(stack, path) == TryFold(stack, Split(path))
  {
    if path[0] == '/' {
      assert path == "" + "/" + path[1..];
      SplitConcat("", path[1..]);
      SplitName("");
      TryFoldConcat([], [""], Split(path[1..]));
    }
  }

  /** Main result: going down and up again, if both are allowed, changes nothing. */
  lemma DownAndUp(stack: seq<string>, c: CString, down: string -> Stat, up: string -> Stat)
    requires Name(c) && Chdir(stack, Some(c), down).0 == Done
    ensures var there := Chdir(stack, Some(c), down).1;
            && there == stack + [c]
            && (Chdir(there, Some(".."), up).0 == Done ==> Chdir(there, Some(".."), up).1 == stack)
  {
    SplitName(c);
    SplitName("..");
    BoundedFoldingLaws(stack, c);
  }

  /** The directory after any sequence of calls, each seeing its own file system. */
  function After(stack: seq<string>, calls: seq<(Option<CString>, string -> Stat)>): seq<string>
    decreases |calls|
  {
    if calls == [] then stack else After(Chdir(stack, calls[0].0, calls[0].1).1, calls[1..])
  }

  /** One call keeps the directory folded and within the limit. */
  lemma ChdirStaysFolded(stack: seq<string>, path: Option<CString>, stat: string -> Stat)
    requires Names(stack) && |Render(stack)| <= LIMIT
    ensures Names(Chdir(stack, path, stat).1) && |Render(Chdir(stack, path, stat).1)| <= LIMIT
  {
    if path.Some? && path.value != "" && Target(stack, path.value).Some? {
      hide Split, TryFold, Fold, Render;
      var from := if path.value[0] == '/' then [] else stack;
      RenderLaws([], "");
      SplitPieces(path.value);
      TryFoldFolds(from, Split(path.value));
      FoldKeepsNames(from, Split(path.value));
      TryFoldFits(from, Split(path.value));
    }
  }

  /** Main result: under any sequence of calls the current directory stays absolute,
      folded and within the limit: it is a fixed point of folding. */
  lemma {:induction false} CwdStaysFolded(stack: seq<string>, calls: seq<(Option<CString>, string -> Stat)>)
    requires Names(stack) && |Render(stack)| <= LIMIT
    ensures Names(After(stack, calls)) && |Render(After(stack, calls))| <= LIMIT
    ensures TryFold([], Split(Render(After(stack, calls)))) == Some(After(stack, calls))
    decreases |calls|
  {
    hide Split, TryFold, Render, Names, Chdir;
    if calls == [] {
      FoldedIsFixed(stack);
    } else {
      ChdirStaysFolded(stack, calls[0].0, calls[0].1);
      CwdStaysFolded(Chdir(stack, calls[0].0, calls[0].1).1, calls[1..]);
    }
  }
}
