/** The three-state lock word under every mutex: 0 free, 1 taken, 2 taken and
    somebody may be asleep on it. One atomic operation or one futex call is one
    step; the threads interleave in any order. */
module LockWord {
  import opened Runs

  type Tid = nat

  /** Where a thread is inside `word_lock` and `word_unlock`. */
  datatype Pc =
    | Idle     // in neither
    | Try      // about to exchange 0 for 1
    | Mark     // saw 1: about to exchange in 2
    | Sleep    // about to wait while the word is 2
    | Parked   // asleep in the kernel
    | Retry    // back from the wait: about to exchange in 2
    | Held     // owns the word
    | Clear    // subtracted one from 2: about to store 0
    | Wake     // stored 0: about to wake one sleeper

  datatype State = State(word: nat, pc: map<Tid, Pc>)

  datatype Event =
    | Begin | TryOnce | Cas | Exchange | Wait | Spurious
    | Subtract | Store | WakeNone | WakeOne(who: Tid)

  ghost predicate Init(s: State) {
    s.word == 0 && forall t :: t in s.pc ==> s.pc[t] == Idle
  }

  function Move(s: State, word: nat, t: Tid, p: Pc): State {
    State(word, s.pc[t := p])
  }

  /** An unsigned 32-bit decrement. */
  function Decremented(word: nat): nat {
    if word == 0 then 0xFFFF_FFFF else word - 1
  }

  /** Thread `t` takes step `e`. The kernel side of the futex: waiting compares
      and parks in one step, waking one unparks a sleeper whenever there is one,
      and a sleeper may return for no reason. */
  ghost predicate Step(s: State, t: Tid, e: Event, s': State) {
    && t in s.pc
    && match e
       case Begin => s.pc[t] == Idle && s' == Move(s, s.word, t, Try)
       case TryOnce =>
         && s.pc[t] == Idle
         && s' == if s.word == 0 then Move(s, 1, t, Held) else s
       case Cas =>
         && s.pc[t] == Try
         && s' == if s.word == 0 then Move(s, 1, t, Held)
                  else if s.word != 2 then Move(s, s.word, t, Mark)
                  else Move(s, s.word, t, Sleep)
       case Exchange =>
         && (s.pc[t] == Mark || s.pc[t] == Retry)
         && s' == Move(s, 2, t, if s.word == 0 then Held else Sleep)
       case Wait =>
         && s.pc[t] == Sleep
         && s' == Move(s, s.word, t, if s.word == 2 then Parked else Retry)
       case Spurious => s.pc[t] == Parked && s' == Move(s, s.word, t, Retry)
       case Subtract =>
         && s.pc[t] == Held
         && s' == Move(s, Decremented(s.word), t, if s.word != 1 then Clear else Idle)
       case Store => s.pc[t] == Clear && s' == Move(s, 0, t, Wake)
       case WakeNone =>
         && s.pc[t] == Wake
         && (forall u :: u in s.pc ==> s.pc[u] != Parked)
         && s' == Move(s, s.word, t, Idle)
       case WakeOne(u) =>
         && s.pc[t] == Wake
         && u in s.pc && s.pc[u] == Parked
         && s' == State(s.word, s.pc[t := Idle][u := Retry])
  }

  ghost predicate Next(s: State, s': State) {
    exists t, e :: Step(s, t, e, s')
  }

  /** The thread keeps the word from reading 0: it owns it, or is half way
      through giving it up. */
  predicate Inside(p: Pc) {
    p == Held || p == Clear
  }

  /** The thread is awake and bound to make the next sleeper move: it still owes
      a wake, or will put 2 back into the word before it can sleep. */
  predicate Answers(p: Pc) {
    p == Clear || p == Wake || p == Mark || p == Retry || p == Sleep
  }

  /** Inside `word_lock`, not yet owning the word. */
  predicate Acquiring(p: Pc) {
    p == Try || p == Mark || p == Sleep || p == Parked || p == Retry
  }

  /** Owning the word, inside `word_unlock`, or done with both. */
  predicate Releasing(p: Pc) {
    p == Held || p == Clear || p == Wake || p == Idle
  }

  ghost function Insiders(s: State): set<Tid> {
    set t | t in s.pc && Inside(s.pc[t])
  }

  /** Mutual exclusion, with the exact meaning of a zero word. */
  ghost predicate Exclusive(s: State) {
    && s.word <= 2
    && (forall t, u :: t in Insiders(s) && u in Insiders(s) ==> t == u)
    && (s.word == 0 <==> Insiders(s) == {})
  }

  /** Nobody sleeps forever: a sleeper is announced by the value 2, or some awake
      thread will deal with it. */
  ghost predicate NoLostWakeup(s: State) {
    (exists t :: t in s.pc && s.pc[t] == Parked) ==>
      s.word == 2 || exists u :: u in s.pc && Answers(s.pc[u])
  }

  ghost predicate Inv(s: State) {
    Exclusive(s) && NoLostWakeup(s)
  }

  /** A step of `t` moves another thread only by waking it. */
  lemma StepFrame(s: State, t: Tid, e: Event, s': State)
    requires Step(s, t, e, s')
    ensures s'.pc.Keys == s.pc.Keys
    ensures forall u :: u in s.pc && u != t ==> s'.pc[u] == s.pc[u] || (s.pc[u] == Parked && s'.pc[u] == Retry)
  {
  }

  lemma StepKeepsExclusive(s: State, t: Tid, e: Event, s': State)
    requires Exclusive(s) && Step(s, t, e, s')
    ensures Exclusive(s')
  {
    if Inside(s'.pc[t]) {
      assert Insiders(s') == Insiders(s) + {t};
      assert t in Insiders(s) || Insiders(s) == {};
    } else {
      assert Insiders(s') == Insiders(s) - {t};
      assert t in Insiders(s) ==> Insiders(s') == {};
    }
  }

  /** Every step keeps exclusion and leaves no sleeper without a waker. */
  lemma StepKeepsInv(s: State, t: Tid, e: Event, s': State)
    requires Inv(s) && Step(s, t, e, s')
    ensures Inv(s')
  {
    StepKeepsExclusive(s, t, e, s');
    if p :| p in s'.pc && s'.pc[p] == Parked && s'.word != 2 && !e.WakeNone? {
      if Answers(s'.pc[t]) {
      } else if e.WakeOne? {
        assert Answers(s'.pc[e.who]);
      } else {
        assert s.pc[p] == Parked && s.word != 2;
        var u :| u in s.pc && Answers(s.pc[u]);
        assert s'.pc[u] == s.pc[u];
      }
    }
  }

  /** Main result: along every run, for any number of threads, the word excludes
      and no wakeup is lost. */
  lemma RunsAreSafe(run: seq<State>, k: nat)
    requires IsRun(Init, Next, run) && k < |run|
    ensures Inv(run[k])
  {
    forall s, s' | Inv(s) && Next(s, s') ensures Inv(s') {
      var t, e :| Step(s, t, e, s');
      StepKeepsInv(s, t, e, s');
    }
    InvariantHolds(Init, Next, Inv, run, k);
  }

  /** When every thread is at rest, a sleeper is waiting for an owner: nobody is
      left asleep on a free word. */
  lemma SleeperHasOwner(s: State, t: Tid)
    requires Inv(s) && t in s.pc && s.pc[t] == Parked
    requires forall u :: u in s.pc ==> s.pc[u] == Idle || s.pc[u] == Parked || s.pc[u] == Held
    ensures s.word == 2 && exists u :: u in s.pc && s.pc[u] == Held
  {
  }

  /** The word is taken by every attempt that finds it 0, and by no other step; an
      exchange leaves 2 behind, the others 1. An attempt in vain goes on to mark the word
      if it is not marked yet, and to sleep only on a marked one. */
  lemma AttemptsAnswer(s: State, t: Tid, e: Event, s': State)
    requires Step(s, t, e, s')
    ensures s'.pc[t] == Held <==> s.word == 0 && (e == TryOnce || e == Cas || e == Exchange)
    ensures s'.pc[t] == Held ==> s'.word == if e == Exchange then 2 else 1
    ensures e == TryOnce && s.word != 0 ==> s' == s
    ensures e == Cas && s.word != 0 ==> s'.word == s.word && s'.pc[t] == if s.word == 2 then Sleep else Mark
    ensures e == Exchange && s.word != 0 ==> s'.word == 2 && s'.pc[t] == Sleep
    ensures e == Wait ==> s'.word == s.word && s'.pc[t] == if s.word == 2 then Parked else Retry
  {
  }

  /** An owner's decrement frees the word exactly when it was 1; from 2 the owner goes on. */
  lemma UnlockFreesWord(s: State, t: Tid, s': State)
    requires Inv(s) && Step(s, t, Subtract, s')
    ensures s'.word == 0 <==> s.word == 1
    ensures s'.pc[t] == Clear <==> s.word == 2
    ensures s'.pc[t] == Idle <==> s.word == 1
  {
    assert t in Insiders(s);
  }

  /** From 2 on, the only way out of the unlock is the store that frees the word and
      then the wake, which reaches a sleeper if there is one. */
  lemma UnlockGoesOn(s: State, t: Tid, e: Event, s': State)
    requires Step(s, t, e, s')
    ensures s.pc[t] == Clear ==> e == Store && s'.word == 0 && s'.pc[t] == Wake
    ensures s.pc[t] == Wake ==> s'.word == s.word && s'.pc[t] == Idle
    ensures s.pc[t] == Wake && (exists u :: u in s.pc && s.pc[u] == Parked) ==>
              exists u :: u in s.pc && s.pc[u] == Parked && s'.pc[u] == Retry
  {
    if e.WakeOne? {
      assert s'.pc[e.who] == Retry;
    }
  }

  /** A thread inside `word_lock` or `word_unlock` and not asleep can always move. */
  lemma Moves(s: State, t: Tid) returns (e: Event, s': State)
    requires t in s.pc && s.pc[t] != Idle && s.pc[t] != Parked && s.pc[t] != Held
    ensures Step(s, t, e, s')
    ensures e.Cas? || e.Exchange? || e.Wait? || e.Store? || e.WakeNone? || e.WakeOne?
  {
    match s.pc[t] {
      case Try => e := Cas;
        s' := if s.word == 0 then Move(s, 1, t, Held) else Move(s, s.word, t, if s.word != 2 then Mark else Sleep);
      case Mark => e, s' := Exchange, Move(s, 2, t, if s.word == 0 then Held else Sleep);
      case Retry => e, s' := Exchange, Move(s, 2, t, if s.word == 0 then Held else Sleep);
      case Sleep => e, s' := Wait, Move(s, s.word, t, if s.word == 2 then Parked else Retry);
      case Clear => e, s' := Store, Move(s, 0, t, Wake);
      case Wake =>
        if u :| u in s.pc && s.pc[u] == Parked {
          e, s' := WakeOne(u), State(s.word, s.pc[t := Idle][u := Retry]);
        } else {
          e, s' := WakeNone, Move(s, s.word, t, Idle);
        }
    }
  }
}
