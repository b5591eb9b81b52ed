/** The signal counter of a condition variable: a waiter reads it under the
    mutex, gives the mutex up and sleeps while the counter is what it read;
    a signal increments it and wakes one sleeper, a broadcast wakes all.
    The counter does not wrap in this model. */
module CondWord {
  import opened Runs
  import opened Options

  type Tid = nat

  /** What the kernel answers to a wait. */
  datatype Answer = Woken | Changed | TimedOut

  /** Where a thread is with this counter. */
  datatype Pc =
    | Idle
    | Ready(seen: nat)                          // read the counter, not yet asleep
    | Parked(seen: nat, expires: Option<nat>)   // asleep in the kernel
    | Back(answer: Answer)                      // the kernel has answered
    | Owes(all: bool, published: nat)           // incremented the counter, not yet woken anyone

  /** `swept` is history: the greatest counter value whose broadcast has completed. */
  datatype State = State(counter: nat, pc: map<Tid, Pc>, swept: nat)

  /** A wait's timeout of 0 means no timeout; otherwise it is in milliseconds,
      while moments are in nanoseconds. */
  datatype Event =
    | Read | Abandon | Wait(now: nat, timeout: nat) | Spurious | Expire(now: nat) | Return
    | Publish(all: bool) | WakeNone | WakeOne(who: Tid) | WakeAll

  ghost predicate Init(s: State) {
    s.counter == 0 && s.swept == 0 && forall t :: t in s.pc ==> s.pc[t] == Idle
  }

  function Move(s: State, t: Tid, p: Pc): State {
    s.(pc := s.pc[t := p])
  }

  /** The moment a wait begun now with this timeout may expire: never early. */
  function Expiry(now: nat, timeout: nat): Option<nat> {
    if timeout == 0 then None else Some(now + timeout * 1_000_000)
  }

  function Max(a: nat, b: nat): nat {
    if a < b then b else a
  }

  function WakeEvery(pc: map<Tid, Pc>): map<Tid, Pc> {
    map u | u in pc :: if pc[u].Parked? then Back(Woken) else pc[u]
  }

  ghost predicate Step(s: State, t: Tid, e: Event, s': State) {
    && t in s.pc
    && match e
       case Read => s.pc[t] == Idle && s' == Move(s, t, Ready(s.counter))
       case Abandon => s.pc[t].Ready? && s' == Move(s, t, Idle)
       case Wait(now, timeout) =>
         && s.pc[t].Ready?
         && s' == Move(s, t, if s.pc[t].seen == s.counter then Parked(s.counter, Expiry(now, timeout)) else Back(Changed))
       case Spurious => s.pc[t].Parked? && s' == Move(s, t, Back(Woken))
       case Expire(now) =>
         && s.pc[t].Parked?
         && s.pc[t].expires.Some? && s.pc[t].expires.value <= now
         && s' == Move(s, t, Back(TimedOut))
       case Return => s.pc[t].Back? && s' == Move(s, t, Idle)
       case Publish(all) =>
         && s.pc[t] == Idle
         && s' == s.(counter := s.counter + 1, pc := s.pc[t := Owes(all, s.counter + 1)])
       case WakeNone =>
         && s.pc[t].Owes? && !s.pc[t].all
         && (forall u :: u in s.pc ==> !s.pc[u].Parked?)
         && s' == Move(s, t, Idle)
       case WakeOne(u) =>
         && s.pc[t].Owes? && !s.pc[t].all
         && u in s.pc && s.pc[u].Parked?
         && s' == s.(pc := s.pc[t := Idle][u := Back(Woken)])
       case WakeAll =>
         && s.pc[t].Owes? && s.pc[t].all
         && s' == s.(pc := WakeEvery(s.pc[t := Idle]), swept := Max(s.swept, s.pc[t].published))
  }

  ghost predicate Next(s: State, s': State) {
    exists t, e :: Step(s, t, e, s')
  }

  /** Asleep, or certain to fall asleep if it moves before the next increment. */
  predicate Dozing(s: State, t: Tid)
    requires t in s.pc
  {
    s.pc[t].Parked? || (s.pc[t].Ready? && s.pc[t].seen == s.counter)
  }

  ghost predicate Inv(s: State) {
    && s.swept <= s.counter
    && forall t :: t in s.pc ==>
         match s.pc[t]
         case Ready(seen) => seen <= s.counter
         case Parked(seen, _) => s.swept <= seen <= s.counter
         case Owes(_, n) => n <= s.counter
         case _ => true
  }

  /** A step of `t` moves another thread only by waking it. */
  lemma StepFrame(s: State, t: Tid, e: Event, s': State)
    requires Step(s, t, e, s')
    ensures s'.pc.Keys == s.pc.Keys && s.counter <= s'.counter
    ensures forall u :: u in s.pc && u != t ==> s'.pc[u] == s.pc[u] || (s.pc[u].Parked? && s'.pc[u] == Back(Woken))
  {
  }

  lemma StepKeepsInv(s: State, t: Tid, e: Event, s': State)
    requires Inv(s) && Step(s, t, e, s')
    ensures Inv(s') && s.swept <= s'.swept
  {
  }

  /** Between an increment and its wake, nobody can still fall asleep. */
  ghost predicate NoFreshWaiter(s: State) {
    forall u, t :: u in s.pc && t in s.pc && s.pc[u].Owes? && s.pc[t].Ready? ==> s.pc[t].seen < s.counter
  }

  /** This holds as long as nobody reads the counter while a wake is owed, which
      is what owning the mutex across a signal gives. */
  lemma StepKeepsNoFresh(s: State, t: Tid, e: Event, s': State)
    requires Inv(s) && NoFreshWaiter(s) && Step(s, t, e, s')
    requires e.Read? ==> forall u :: u in s.pc ==> !s.pc[u].Owes?
    ensures NoFreshWaiter(s')
  {
  }

  /** Only reading the counter makes a thread doze. */
  lemma DozingBefore(s: State, t: Tid, e: Event, s': State, p: Tid)
    requires Inv(s) && Step(s, t, e, s') && p in s'.pc && Dozing(s', p)
    ensures p in s.pc && (Dozing(s, p) || (p == t && e.Read?))
  {
  }

  /** A wake with no fresh waiter about: the thread it picks, or any thread if it
      finds none asleep, is not dozing afterwards. */
  lemma WakeReaches(s: State, t: Tid, e: Event, s': State, u: Tid)
    requires Step(s, t, e, s') && (e.WakeNone? || e.WakeOne? || e.WakeAll?) && u in s.pc
    requires forall v :: v in s.pc && s.pc[v].Ready? ==> s.pc[v].seen < s.counter
    requires e.WakeOne? ==> u == e.who
    ensures u in s'.pc && !Dozing(s', u)
  {
  }

  /** A wait sleeps exactly if nobody has signalled since its read, and then expires its
      timeout in milliseconds later, or never if that is 0; it is told to have timed out
      only by a sleep that has expired. */
  lemma WaitAnswers(s: State, t: Tid, e: Event, s': State)
    requires Step(s, t, e, s')
    ensures e == Read ==> s'.pc[t] == Ready(s.counter)
    ensures e.Wait? ==>
              && (s'.pc[t].Parked? <==> s.pc[t].seen == s.counter)
              && (s.pc[t].seen != s.counter ==> s'.pc[t] == Back(Changed))
              && (s'.pc[t].Parked? ==>
                    s'.pc[t].expires == if e.timeout == 0 then None else Some(e.now + e.timeout * 1_000_000))
    ensures s'.pc[t] == Back(TimedOut) && s.pc[t] != s'.pc[t] ==>
              e.Expire? && s.pc[t].Parked? && s.pc[t].expires.Some? && s.pc[t].expires.value <= e.now
    ensures e.Publish? ==> s'.counter == s.counter + 1 && s'.pc[t] == Owes(e.all, s.counter + 1)
    ensures !e.Publish? ==> s'.counter == s.counter
  {
  }

  /** Main result: once a broadcast has completed, in every later state of the
      run no thread that read the counter before its increment is asleep. */
  lemma BroadcastReachesAllEarlier(run: seq<State>, i: nat, t: Tid, k: nat, u: Tid)
    requires IsRun(Init, Next, run) && i + 1 <= k < |run|
    requires Step(run[i], t, WakeAll, run[i + 1])
    requires u in run[k].pc && run[k].pc[u].Parked?
    ensures run[i].pc[t].published <= run[k].pc[u].seen
  {
    var rel := (a: State, b: State) => a.swept <= b.swept;
    forall s, s' | Inv(s) && Next(s, s') ensures Inv(s') && rel(s, s') {
      var v, e :| Step(s, v, e, s');
      StepKeepsInv(s, v, e, s');
    }
    RelationHolds(Init, Next, Inv, s => true, rel, run, i + 1, k);
    InvariantHolds(Init, Next, Inv, run, k);
  }

  /** A thread that owes a wake can always deliver it. */
  lemma Delivers(s: State, t: Tid) returns (e: Event, s': State)
    requires t in s.pc && s.pc[t].Owes?
    ensures Step(s, t, e, s')
    ensures e.WakeNone? || e.WakeOne? || e.WakeAll?
  {
    if s.pc[t].all {
      e, s' := WakeAll, s.(pc := WakeEvery(s.pc[t := Idle]), swept := Max(s.swept, s.pc[t].published));
    } else if u :| u in s.pc && s.pc[u].Parked? {
      e, s' := WakeOne(u), s.(pc := s.pc[t := Idle][u := Back(Woken)]);
    } else {
      e, s' := WakeNone, Move(s, t, Idle);
    }
  }

  /** Whatever the state, if another thread may read the counter before a signal's wake,
      it can fall asleep on the new value and take the wake, and every earlier
      sleeper stays where it is. */
  lemma LatecomerTakesWake(s: State, t: Tid, q: Tid) returns (s1: State, s2: State, s3: State)
    requires t in s.pc && s.pc[t].Owes? && !s.pc[t].all && q in s.pc && s.pc[q] == Idle
    ensures Step(s, q, Read, s1) && Step(s1, q, Wait(0, 0), s2) && Step(s2, t, WakeOne(q), s3)
    ensures s3.pc[t] == Idle && forall u :: u in s.pc && s.pc[u].Parked? ==> u in s3.pc && s3.pc[u] == s.pc[u]
  {
    s1 := Move(s, q, Ready(s.counter));
    s2 := Move(s1, q, Parked(s.counter, None));
    s3 := s2.(pc := s2.pc[t := Idle][q := Back(Woken)]);
  }

  /** Without the mutex a signal may miss the earlier waiter: between its increment
      and its wake a later thread reads the new counter and falls asleep, and the
      wake picks that one. */
  lemma SignalCanMissEarlier() returns (run: seq<State>)
    ensures IsRun(Init, Next, run)
    ensures var last := run[|run| - 1];
            last.counter == 1 && last.pc == map[0 := Parked(0, None), 1 := Back(Woken), 2 := Idle]
  {
    var s0 := State(0, map[0 := Idle, 1 := Idle, 2 := Idle], 0);
    var s1 := Move(s0, 0, Ready(0));
    var s2 := Move(s1, 0, Parked(0, None));
    var s3 := s2.(counter := 1, pc := s2.pc[2 := Owes(false, 1)]);
    var s4 := Move(s3, 1, Ready(1));
    var s5 := Move(s4, 1, Parked(1, None));
    var s6 := s5.(pc := s5.pc[2 := Idle][1 := Back(Woken)]);
    assert Step(s0, 0, Read, s1);
    assert Step(s1, 0, Wait(0, 0), s2);
    assert Step(s2, 2, Publish(false), s3);
    assert Step(s3, 1, Read, s4);
    assert Step(s4, 1, Wait(0, 0), s5);
    assert Step(s5, 2, WakeOne(1), s6);
    assert s6.pc == map[0 := Parked(0, None), 1 := Back(Woken), 2 := Idle];
    run := [s0, s1, s2, s3, s4, s5, s6];
    SixSteps(s0, s1, s2, s3, s4, s5, s6);
  }

  lemma SixSteps(s0: State, s1: State, s2: State, s3: State, s4: State, s5: State, s6: State)
    requires Init(s0) && Next(s0, s1) && Next(s1, s2) && Next(s2, s3) && Next(s3, s4) && Next(s4, s5) && Next(s5, s6)
    ensures IsRun(Init, Next, [s0, s1, s2, s3, s4, s5, s6])
  {
    hide Init, Next;
  }
}
