/** How many threads of a finite thread table satisfy a predicate, and how much they
    hold together. */
module Counting {

  ghost function Where<K, P>(table: map<K, P>, p: P -> bool): set<K> {
    set t | t in table && p(table[t])
  }

  ghost function Count<K, P>(table: map<K, P>, p: P -> bool): nat {
    |Where(table, p)|
  }

  function One(b: bool): nat {
    if b then 1 else 0
  }

  /** Moving one thread changes the count by what that thread contributes. */
  lemma CountUpdate<K, P>(table: map<K, P>, t: K, x: P, p: P -> bool)
    requires t in table
    ensures Count(table[t := x], p) == Count(table, p) - One(p(table[t])) + One(p(x))
  {
    var before, after := Where(table, p), Where(table[t := x], p);
    assert after == (before - {t}) + (if p(x) then {t} else {});
    assert p(table[t]) <==> t in before;
  }

  lemma CountZero<K, P>(table: map<K, P>, p: P -> bool)
    ensures Count(table, p) == 0 <==> forall t :: t in table ==> !p(table[t])
  {
    if t :| t in table && p(table[t]) {
      assert t in Where(table, p);
    }
    if Count(table, p) != 0 {
      var t :| t in Where(table, p);
    }
  }

  /** A predicate that implies another is satisfied by no more threads. */
  lemma CountMonotone<K, P>(table: map<K, P>, p: P -> bool, q: P -> bool)
    requires forall t :: t in table && p(table[t]) ==> q(table[t])
    ensures Count(table, p) <= Count(table, q)
  {
    assert Where(table, p) <= Where(table, q);
    SubsetSize(Where(table, p), Where(table, q));
  }

  lemma CountTwo<K, P>(table: map<K, P>, t: K, u: K, p: P -> bool)
    requires t != u && t in table && u in table && p(table[t]) && p(table[u])
    ensures 2 <= Count(table, p)
  {
    SubsetSize({t, u}, Where(table, p));
  }

  lemma {:induction false} SubsetSize<K>(a: set<K>, b: set<K>)
    requires a <= b
    ensures |a| <= |b|
  {
    if x :| x in a {
      SubsetSize(a - {x}, b - {x});
    }
  }

  // ---- Sums ----

  /** What one thread holds, unit by unit. */
  ghost function Own<K>(t: K, n: nat): set<(K, nat)> {
    set i: nat | i < n :: (t, i)
  }

  ghost function Units<K, P>(table: map<K, P>, f: P -> nat): set<(K, nat)> {
    set t, i: nat | t in table && i < f(table[t]) :: (t, i)
  }

  ghost function Sum<K, P>(table: map<K, P>, f: P -> nat): nat {
    |Units(table, f)|
  }

  lemma {:induction false} OwnSize<K>(t: K, n: nat)
    ensures |Own(t, n)| == n
  {
    if n > 0 {
      OwnSize(t, n - 1);
      assert Own(t, n) == Own(t, n - 1) + {(t, n - 1)};
    }
  }

  /** All units but one thread's. */
  ghost function Others<K, P>(table: map<K, P>, t: K, f: P -> nat): set<(K, nat)> {
    set u, i: nat | u in table && u != t && i < f(table[u]) :: (u, i)
  }

  lemma SumSplits<K, P>(table: map<K, P>, t: K, f: P -> nat)
    requires t in table
    ensures Sum(table, f) == |Others(table, t, f)| + f(table[t])
  {
    var (others, own) := (Others(table, t, f), Own(t, f(table[t])));
    OwnSize(t, f(table[t]));
    assert others !! own;
    assert Units(table, f) == others + own;
  }

  /** Moving one thread changes the sum by what that thread holds. */
  lemma SumUpdate<K, P>(table: map<K, P>, t: K, x: P, f: P -> nat)
    requires t in table
    ensures Sum(table[t := x], f) == Sum(table, f) - f(table[t]) + f(x)
  {
    SumSplits(table, t, f);
    SumSplits(table[t := x], t, f);
    assert Others(table[t := x], t, f) == Others(table, t, f);
  }

  lemma SumZero<K, P>(table: map<K, P>, f: P -> nat)
    ensures Sum(table, f) == 0 <==> forall t :: t in table ==> f(table[t]) == 0
  {
    if t :| t in table && f(table[t]) > 0 {
      assert (t, 0) in Units(table, f);
    }
    if Sum(table, f) != 0 {
      var u :| u in Units(table, f);
    }
  }

  /** Two threads hold no more than all of them. */
  lemma SumTwo<K, P>(table: map<K, P>, t: K, u: K, f: P -> nat)
    requires t in table && u in table
    ensures f(table[t]) <= Sum(table, f)
    ensures t != u ==> f(table[t]) + f(table[u]) <= Sum(table, f)
  {
    var (a, b) := (Own(t, f(table[t])), Own(u, f(table[u])));
    OwnSize(t, f(table[t]));
    OwnSize(u, f(table[u]));
    SubsetSize(a, Units(table, f));
    SubsetSize(a + b, Units(table, f));
    assert t != u ==> a !! b;
  }
}
