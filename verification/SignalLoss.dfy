/** When a signal can miss everybody who was asleep: exactly when its sender does
    not hold the mutex, so that another thread may take it, read the new counter
    and fall asleep in front of them. */
module SignalLoss {
  import opened Runs
  import LockWord
  import CondWord
  import opened Monitor
  import opened Options

  type Tid = nat

  ghost predicate Asleep(s: State, u: Tid) {
    u in s.cond.pc && s.cond.pc[u].Parked?
  }

  ghost predicate IsTrace(run: seq<State>) {
    0 < |run| && forall i :: 0 <= i < |run| - 1 ==> Next(run[i], run[i + 1])
  }

  /** Thread `t` has incremented the counter and still owes its wake. */
  ghost predicate OwesWake(s: State, t: Tid) {
    t in s.thread && s.thread[t].pc.Wake?
  }

  /** `t` pays its wake with the last step of the trace, and everybody who was
      asleep at the first state is asleep at the last. */
  ghost predicate Missed(run: seq<State>, t: Tid) {
    && IsTrace(run) && 1 < |run|
    && (forall j :: 0 <= j < |run| - 1 ==> OwesWake(run[j], t))
    && t in run[|run| - 1].thread && run[|run| - 1].thread[t].pc.Idle?
    && forall u :: Asleep(run[0], u) ==> Asleep(run[|run| - 1], u)
  }

  // ---- The holder's wake reaches somebody ----

  /** While the sender holds the word and owes its wake, nobody falls asleep. */
  lemma HolderLetsNobodyDoze(s: State, s': State, t: Tid)
    requires Inv(s) && Next(s, s') && OwesWake(s, t) && OwesWake(s', t) && Known(s, t) && s.word.pc[t] == LockWord.Held
    ensures Inv(s') && Known(s', t) && s'.word.pc[t] == LockWord.Held
    ensures forall u :: Asleep(s', u) ==> Asleep(s, u)
  {
    var v, e :| Step(s, v, e, s');
    StepKeepsInv(s, v, e, s');
    StepFrame(s, v, e, s');
    assert SignalCovers(s, t) && FitsIn(s, t) && FitsIn(s, v);
    if v != t {
      OtherLayers(s, v, e, s', t);
      NobodyFallsAsleep(s, v, e, s');
    } else {
      WakeBegins(s, t, e, s');
    }
  }

  lemma NobodyFallsAsleep(s: State, v: Tid, e: Event, s': State)
    requires Step(s, v, e, s')
    requires forall u :: u in s.cond.pc && s.cond.pc[u].Ready? ==> s.cond.pc[u].seen < s.cond.counter
    ensures forall u :: Asleep(s', u) ==> Asleep(s, u)
  {
    StepFrame(s, v, e, s');
    StepMovesCond(s, v, e, s');
    if s'.cond != s.cond {
      var ce :| CondMoved(s, v, e, s', ce);
      CondWord.StepFrame(s.cond, v, ce, s'.cond);
    }
  }

  lemma {:induction false} HolderKeepsWatch(run: seq<State>, t: Tid, k: nat)
    requires IsTrace(run) && k < |run| - 1 && (forall j :: 0 <= j < |run| - 1 ==> OwesWake(run[j], t))
    requires Inv(run[0]) && Known(run[0], t) && run[0].word.pc[t] == LockWord.Held
    ensures Inv(run[k]) && Known(run[k], t) && run[k].word.pc[t] == LockWord.Held
    ensures forall u :: Asleep(run[k], u) ==> Asleep(run[0], u)
  {
    if k > 0 {
      HolderKeepsWatch(run, t, k - 1);
      assert Next(run[k - 1], run[k - 1 + 1]);
      HolderLetsNobodyDoze(run[k - 1], run[k], t);
    }
  }

  /** The wake itself takes a sleeper, or finds none. */
  lemma WakeTakesOne(s: State, s': State, t: Tid)
    requires Next(s, s') && OwesWake(s, t) && t in s'.thread && s'.thread[t].pc.Idle?
    ensures (exists u :: Asleep(s, u) && !Asleep(s', u)) || forall u :: !Asleep(s', u)
  {
    var v, e :| Step(s, v, e, s');
    StepFrame(s, v, e, s');
    assert v == t && e.Cond?;
    if e.cond.WakeOne? {
      assert Asleep(s, e.cond.who) && !Asleep(s', e.cond.who);
    }
  }

  /** A sender that holds the mutex from the increment to the wake misses nobody. */
  lemma HolderNeverMisses(run: seq<State>, t: Tid, p: Tid)
    requires Missed(run, t) && Inv(run[0]) && Known(run[0], t) && Asleep(run[0], p)
    ensures run[0].word.pc[t] != LockWord.Held
  {
    if run[0].word.pc[t] == LockWord.Held {
      var n := |run| - 2;
      HolderKeepsWatch(run, t, n);
      assert Next(run[n], run[n + 1]);
      WakeTakesOne(run[n], run[n + 1], t);
    }
  }

  // ---- A free thread locks, waits and falls asleep ----

  /** The state with thread `q` elsewhere and the shared words changed by it. */
  function Put(s: State, q: Tid, th: Thread, word: nat, w: LockWord.Pc, c: CondWord.Pc, owner: Option<Tid>, count: nat): State {
    s.(word := LockWord.Move(s.word, word, q, w), cond := CondWord.Move(s.cond, q, c),
       owner := owner, count := count, thread := s.thread[q := th])
  }

  /** What the thread keeps while it waits without a deadline. */
  const LOCALS: Wait := Wait.Wait(1, None, 0, None)

  /** The thirteen steps from outside every call to sleep, on a free mutex. */
  function Stage(s: State, q: Tid, i: nat): State
    requires i <= 13
  {
    var (o, n, c) := (s.owner, s.count, s.cond.counter);
    var (idle, held, out, read) := (LockWord.Idle, LockWord.Held, CondWord.Idle, CondWord.Ready(c));
    if i == 0 then s
    else if i == 1 then Put(s, q, Thread(LockTest, 0), 0, idle, out, o, n)
    else if i == 2 then Put(s, q, Thread(Locking(None), 0), 0, LockWord.Try, out, o, n)
    else if i == 3 then Put(s, q, Thread(SetOwner(None), 0), 1, held, out, o, n)
    else if i == 4 then Put(s, q, Thread(SetCount(None), 0), 1, held, out, Some(q), n)
    else if i == 5 then Put(s, q, Thread(Idle(Ok), 1), 1, held, out, Some(q), 1)
    else if i == 6 then Put(s, q, Thread(WaitRead(None), 1), 1, held, out, Some(q), 1)
    else if i == 7 then Put(s, q, Thread(WaitMeasure(None, 1), 1), 1, held, read, Some(q), 1)
    else if i == 8 then Put(s, q, Thread(ClearOwner(Some(LOCALS)), 1), 1, held, read, Some(q), 1)
    else if i == 9 then Put(s, q, Thread(ClearCount(Some(LOCALS)), 1), 1, held, read, None, 1)
    else if i == 10 then Put(s, q, Thread(Release(Some(LOCALS)), 1), 1, held, read, None, 0)
    else if i == 11 then Put(s, q, Thread(Release(Some(LOCALS)), 1), 0, idle, read, None, 0)
    else if i == 12 then Put(s, q, Thread(Blocked(LOCALS), 1), 0, idle, read, None, 0)
    else Put(s, q, Thread(Blocked(LOCALS), 1), 0, idle, CondWord.Parked(c, None), None, 0)
  }

  /** The event of each of these steps. */
  function Action(s: State, i: nat): Event {
    if i == 0 then Start(Lock)
    else if i == 1 then Word(LockWord.Begin)
    else if i == 2 then Word(LockWord.Cas)
    else if i == 5 then Start(CondWait)
    else if i == 6 then Cond(CondWord.Read)
    else if i == 10 then Word(LockWord.Subtract)
    else if i == 12 then Cond(CondWord.Wait(s.now, 0))
    else Local
  }

  /** Outside every call, not holding the mutex, which is free. */
  ghost predicate Spare(s: State, q: Tid) {
    && Known(s, q) && s.thread[q].pc.Idle? && s.thread[q].depth == 0
    && s.word.word == 0 && s.word.pc[q] == LockWord.Idle && s.cond.pc[q] == CondWord.Idle && s.owner != Some(q)
  }

  lemma Locks(s: State, q: Tid, i: nat)
    requires Spare(s, q) && i < 3
    ensures Step(Stage(s, q, i), q, Action(s, i), Stage(s, q, i + 1))
  {
  }

  lemma Owns(s: State, q: Tid, i: nat)
    requires Spare(s, q) && 3 <= i < 6
    ensures Step(Stage(s, q, i), q, Action(s, i), Stage(s, q, i + 1))
  {
  }

  lemma Waits(s: State, q: Tid, i: nat)
    requires Spare(s, q) && 6 <= i < 10
    ensures Step(Stage(s, q, i), q, Action(s, i), Stage(s, q, i + 1))
  {
  }

  lemma Sleeps(s: State, q: Tid, i: nat)
    requires Spare(s, q) && 10 <= i < 13
    ensures Step(Stage(s, q, i), q, Action(s, i), Stage(s, q, i + 1))
  {
  }

  lemma StageFollows(s: State, q: Tid, i: nat)
    requires Spare(s, q) && i < 13
    ensures Next(Stage(s, q, i), Stage(s, q, i + 1))
  {
    hide Stage, Action;
    if i < 3 {
      Locks(s, q, i);
    } else if i < 6 {
      Owns(s, q, i);
    } else if i < 10 {
      Waits(s, q, i);
    } else {
      Sleeps(s, q, i);
    }
  }

  /** The thirteen steps move nobody else. */
  lemma StageKeepsOthers(s: State, q: Tid, i: nat)
    requires Spare(s, q) && i <= 13
    ensures KeepsOthers(s, Stage(s, q, i), q)
  {
  }

  function Stages(s: State, q: Tid): (run: seq<State>)
    ensures |run| == 14
  {
    seq(14, i requires 0 <= i < 14 => Stage(s, q, i))
  }

  lemma StagesFollow(s: State, q: Tid)
    requires Spare(s, q)
    ensures Alone(Stages(s, q), q) && Stages(s, q)[0] == s && Stages(s, q)[13].cond.pc[q].Parked?
  {
    var run := Stages(s, q);
    forall i | 0 <= i < |run| ensures KeepsOthers(run[0], run[i], q) {
      StageKeepsOthers(s, q, i);
    }
    forall i | 0 <= i < |run| - 1 ensures Next(run[i], run[i + 1]) {
      StageFollows(s, q, i);
    }
  }

  // ---- The holder itself waits and falls asleep ----

  /** Outside every call, holding the mutex. */
  ghost predicate Resting(s: State, q: Tid) {
    && Known(s, q) && s.thread[q].pc.Idle? && s.thread[q].depth > 0
    && (s.word.word == 1 || s.word.word == 2) && s.word.pc[q] == LockWord.Held && s.cond.pc[q] == CondWord.Idle
    && s.owner == Some(q) && s.count == s.thread[q].depth
  }

  /** The steps of the holder's wait up to its decrement of the word. */
  function HolderStage(s: State, q: Tid, i: nat): State
    requires i <= 6 && q in s.thread
  {
    var (d, o, n, w, held) := (s.thread[q].depth, s.owner, s.count, s.word.word, LockWord.Held);
    var (out, read, locals) := (CondWord.Idle, CondWord.Ready(s.cond.counter), Wait.Wait(d, None, 0, None));
    if i == 0 then s
    else if i == 1 then Put(s, q, Thread(WaitRead(None), d), w, held, out, o, n)
    else if i == 2 then Put(s, q, Thread(WaitMeasure(None, d), d), w, held, read, o, n)
    else if i == 3 then Put(s, q, Thread(ClearOwner(Some(locals)), d), w, held, read, o, n)
    else if i == 4 then Put(s, q, Thread(ClearCount(Some(locals)), d), w, held, read, None, n)
    else if i == 5 then Put(s, q, Thread(Release(Some(locals)), d), w, held, read, None, 0)
    else Put(s, q, Thread(Release(Some(locals)), d), LockWord.Decremented(w), if w == 1 then LockWord.Idle else LockWord.Clear, read, None, 0)
  }

  lemma HolderReads(s: State, q: Tid)
    requires Resting(s, q)
    ensures Next(HolderStage(s, q, 0), HolderStage(s, q, 1)) && Next(HolderStage(s, q, 1), HolderStage(s, q, 2))
  {
    assert Step(HolderStage(s, q, 0), q, Start(CondWait), HolderStage(s, q, 1));
    assert Step(HolderStage(s, q, 1), q, Cond(CondWord.Read), HolderStage(s, q, 2));
  }

  lemma HolderClears(s: State, q: Tid)
    requires Resting(s, q)
    ensures Next(HolderStage(s, q, 2), HolderStage(s, q, 3)) && Next(HolderStage(s, q, 3), HolderStage(s, q, 4))
  {
    assert Step(HolderStage(s, q, 2), q, Local, HolderStage(s, q, 3));
    assert Step(HolderStage(s, q, 3), q, Local, HolderStage(s, q, 4));
  }

  lemma HolderReleases(s: State, q: Tid)
    requires Resting(s, q)
    ensures Next(HolderStage(s, q, 4), HolderStage(s, q, 5)) && Next(HolderStage(s, q, 5), HolderStage(s, q, 6))
  {
    assert Step(HolderStage(s, q, 4), q, Local, HolderStage(s, q, 5));
    assert Step(HolderStage(s, q, 5), q, Word(LockWord.Subtract), HolderStage(s, q, 6));
  }

  /** Nothing but thread `q` and the lock word and fields may differ. */
  ghost predicate KeepsOthers(s: State, r: State, q: Tid) {
    && r.thread.Keys == s.thread.Keys && r.cond.pc.Keys == s.cond.pc.Keys && r.word.pc.Keys == s.word.pc.Keys
    && (forall u :: u in s.thread && u != q ==> r.thread[u] == s.thread[u])
    && (forall u :: u in s.cond.pc && u != q ==> r.cond.pc[u] == s.cond.pc[u])
    && r.cond.counter == s.cond.counter && r.kind == s.kind
  }

  lemma KeepsTwice(a: State, b: State, c: State, q: Tid)
    requires KeepsOthers(a, b, q) && KeepsOthers(b, c, q)
    ensures KeepsOthers(a, c, q)
  {
  }

  /** A trace on which only `q` and the mutex move. */
  ghost predicate Alone(run: seq<State>, q: Tid) {
    IsTrace(run) && forall j :: 0 <= j < |run| ==> KeepsOthers(run[0], run[j], q)
  }

  lemma AloneJoined(a: seq<State>, b: seq<State>, q: Tid)
    requires Alone(a, q) && Alone(b, q) && a[|a| - 1] == b[0]
    ensures Alone(a + b[1..], q)
  {
    var run := a + b[1..];
    forall i | 0 <= i < |run| - 1 ensures Next(run[i], run[i + 1]) {
      if i < |a| - 1 {
        assert Next(a[i], a[i + 1]);
      } else {
        assert Next(b[i - |a| + 1], b[i - |a| + 2]);
      }
    }
    forall j | 0 <= j < |run| ensures KeepsOthers(run[0], run[j], q) {
      if j >= |a| {
        KeepsTwice(a[0], b[0], b[j - |a| + 1], q);
      }
    }
  }

  /** In the middle of its wait, with the word decremented: freed, or still to be stored. */
  ghost predicate Leaving(s: State, q: Tid) {
    && Known(s, q) && s.thread[q].pc.Release? && s.thread[q].pc.wait.Some?
    && s.thread[q].pc.wait.value.deadline == None && s.thread[q].pc.wait.value.timeout == 0
    && s.cond.pc[q] == CondWord.Ready(s.cond.counter)
  }

  lemma HolderKeepsOthers(s: State, q: Tid, i: nat)
    requires Resting(s, q) && i <= 6
    ensures KeepsOthers(s, HolderStage(s, q, i), q)
  {
  }

  lemma HolderIsLeaving(s: State, q: Tid)
    requires Resting(s, q)
    ensures var r := HolderStage(s, q, 6);
            Leaving(r, q) && (r.word.pc[q] == LockWord.Idle || r.word.pc[q] == LockWord.Clear)
  {
  }

  lemma HolderFollows(s: State, q: Tid, i: nat)
    requires Resting(s, q) && i < 6
    ensures Next(HolderStage(s, q, i), HolderStage(s, q, i + 1))
  {
    hide Next, HolderStage, Resting;
    assert q in s.thread by { InThread(s, q); }
    HolderReads(s, q);
    HolderClears(s, q);
    HolderReleases(s, q);
  }

  lemma InThread(s: State, q: Tid)
    requires Resting(s, q)
    ensures q in s.thread
  {
  }

  lemma HolderLeaves(s: State, q: Tid) returns (run: seq<State>)
    requires Resting(s, q)
    ensures Alone(run, q) && run[0] == s
    ensures var r := run[|run| - 1];
            Leaving(r, q) && q in r.word.pc && (r.word.pc[q] == LockWord.Idle || r.word.pc[q] == LockWord.Clear)
  {
    InThread(s, q);
    assert HolderStage(s, q, 0) == s;
    hide Next, HolderStage, Resting, KeepsOthers;
    run := seq(7, i requires 0 <= i < 7 => HolderStage(s, q, i));
    forall i | 0 <= i < 6 ensures Next(run[i], run[i + 1]) {
      HolderFollows(s, q, i);
    }
    forall i | 0 <= i < 7 ensures KeepsOthers(run[0], run[i], q) {
      HolderKeepsOthers(s, q, i);
    }
    HolderIsLeaving(s, q);
  }

  /** The store and the wake of the mutex, if they are still owed. */
  lemma LeaverFrees(s: State, q: Tid) returns (run: seq<State>)
    requires Leaving(s, q) && s.word.pc[q] == LockWord.Clear
    ensures Alone(run, q) && run[0] == s && Leaving(run[|run| - 1], q)
    ensures q in run[|run| - 1].word.pc && run[|run| - 1].word.pc[q] == LockWord.Idle
  {
    var r := s.(word := LockWord.Move(s.word, 0, q, LockWord.Wake));
    assert Step(s, q, Word(LockWord.Store), r);
    var we, w := LockWord.Moves(r.word, q);
    var r' := r.(word := w);
    assert Step(r, q, Word(we), r');
    LockWord.StepFrame(r.word, q, we, w);
    run := [s, r, r'];
  }

  /** Off the mutex, asleep at once: the counter is what was read. */
  lemma LeaverSleeps(s: State, q: Tid) returns (run: seq<State>)
    requires Leaving(s, q) && s.word.pc[q] == LockWord.Idle
    ensures Alone(run, q) && run[0] == s && Known(run[|run| - 1], q) && run[|run| - 1].cond.pc[q].Parked?
  {
    var r := Goto(s, q, Blocked(s.thread[q].pc.wait.value));
    assert Step(s, q, Local, r);
    var r' := r.(cond := CondWord.Move(r.cond, q, CondWord.Parked(r.cond.counter, None)));
    assert Step(r, q, Cond(CondWord.Wait(r.now, 0)), r');
    run := [s, r, r'];
  }

  lemma HolderSleeps(s: State, q: Tid) returns (run: seq<State>)
    requires Resting(s, q)
    ensures Alone(run, q) && run[0] == s && Known(run[|run| - 1], q) && run[|run| - 1].cond.pc[q].Parked?
  {
    hide Alone, Leaving, Resting;
    run := HolderLeaves(s, q);
    AloneIsTrace(run, q);
    if run[|run| - 1].word.pc[q] == LockWord.Clear {
      var more := LeaverFrees(run[|run| - 1], q);
      AloneIsTrace(more, q);
      AloneJoined(run, more, q);
      run := run + more[1..];
    }
    var last := LeaverSleeps(run[|run| - 1], q);
    AloneIsTrace(last, q);
    AloneIsTrace(run, q);
    AloneJoined(run, last, q);
    run := run + last[1..];
  }

  lemma AloneIsTrace(run: seq<State>, q: Tid)
    requires Alone(run, q)
    ensures IsTrace(run) && 0 < |run|
  {
  }

  // ---- Exactly when a signal can miss ----

  /** The state after `t`'s signal has woken `q`. */
  function Woken(s: State, t: Tid, q: Tid): State
    requires t in s.thread
  {
    Return(s, t, Ok, s.thread[t].depth).(cond := s.cond.(pc := s.cond.pc[t := CondWord.Idle][q := CondWord.Back(CondWord.Woken)]))
  }

  /** `t` owes the wake of a signal. */
  ghost predicate OwesSignal(s: State, t: Tid) {
    && Known(s, t) && s.thread[t].pc.Wake? && !s.thread[t].pc.all
    && s.cond.pc[t].Owes? && !s.cond.pc[t].all
  }

  lemma WakesLatecomer(s: State, r: State, t: Tid, q: Tid)
    requires KeepsOthers(s, r, q) && OwesSignal(s, t) && t != q
    requires q in s.cond.pc && !s.cond.pc[q].Parked? && r.cond.pc[q].Parked?
    ensures t in r.thread && Next(r, Woken(r, t, q)) && OwesWake(r, t)
    ensures forall u :: Asleep(s, u) ==> Asleep(Woken(r, t, q), u)
  {
    assert Step(r, t, Cond(CondWord.WakeOne(q)), Woken(r, t, q));
  }

  /** A thread that has fallen asleep meanwhile can take the wake of a signal, in front
      of everybody who slept before. */
  lemma SleeperTakesWake(trace: seq<State>, t: Tid, q: Tid) returns (run: seq<State>)
    requires Alone(trace, q) && OwesSignal(trace[0], t) && t != q
    requires q in trace[0].cond.pc && !trace[0].cond.pc[q].Parked? && trace[|trace| - 1].cond.pc[q].Parked?
    ensures |run| == |trace| + 1 && run[0] == trace[0] && Missed(run, t)
    ensures forall j :: 0 <= j < |run| ==> t in run[j].thread && run[j].thread[t].depth == run[0].thread[t].depth
  {
    hide Next;
    var r := trace[|trace| - 1];
    WakesLatecomer(trace[0], r, t, q);
    run := trace + [Woken(r, t, q)];
    forall j | 0 <= j < |trace| ensures OwesWake(run[j], t) && run[j].thread[t].depth == run[0].thread[t].depth {
      assert run[j] == trace[j] && KeepsOthers(trace[0], trace[j], q);
    }
    forall j | 0 <= j < |run| - 1 ensures Next(run[j], run[j + 1]) {
      if j < |trace| - 1 {
        assert Next(trace[j], trace[j + 1]);
      }
    }
  }

  /** A late thread can lock, wait, and take the wake. */
  lemma LatecomerTakesWake(s: State, t: Tid, q: Tid) returns (run: seq<State>)
    requires Spare(s, q) && OwesSignal(s, t) && t != q
    ensures |run| == 15 && run[0] == s && Missed(run, t)
    ensures forall j :: 0 <= j < 15 ==> t in run[j].thread && run[j].thread[t].depth == s.thread[t].depth
  {
    StagesFollow(s, q);
    run := SleeperTakesWake(Stages(s, q), t, q);
  }

  /** A thread that can begin a wait now: the mutex is its own or free. */
  ghost predicate CanWait(s: State, q: Tid) {
    Known(s, q) && s.thread[q].pc.Idle? && (s.thread[q].depth > 0 || s.word.word == 0)
  }

  /** Main result: take any reachable state in which a signal's wake is owed, somebody
      is asleep, and the sender holds the mutex or some other thread outside every call
      holds it or finds it free. The signal can miss everybody asleep exactly when the
      sender does not hold the mutex. */
  lemma SignalMissesExactly(s: State, t: Tid, p: Tid, q: Tid)
    requires Inv(s) && Known(s, t) && s.thread[t].pc.Wake? && !s.thread[t].pc.all && Asleep(s, p)
    requires s.word.pc[t] == LockWord.Held || (q != t && CanWait(s, q))
    ensures (exists run :: |run| > 0 && run[0] == s && Missed(run, t)) <==> s.word.pc[t] != LockWord.Held
  {
    hide Inv, Missed, Spare, Resting, OwesSignal, Alone;
    if s.word.pc[t] == LockWord.Held {
      forall run | |run| > 0 && run[0] == s && Missed(run, t) ensures false {
        HolderNeverMisses(run, t, p);
      }
    } else {
      SenderOwes(s, t);
      WaiterIsReady(s, q);
      if s.thread[q].depth == 0 {
        var run := LatecomerTakesWake(s, t, q);
      } else {
        var trace := HolderSleeps(s, q);
        AloneIsTrace(trace, q);
        var run := SleeperTakesWake(trace, t, q);
      }
    }
  }

  lemma SenderOwes(s: State, t: Tid)
    requires Inv(s) && Known(s, t) && s.thread[t].pc.Wake? && !s.thread[t].pc.all
    ensures OwesSignal(s, t)
  {
    hide OnTime, SignalCovers, LockWord.Inv, CondWord.Inv;
    assert FitsIn(s, t);
  }

  lemma WaiterIsReady(s: State, q: Tid)
    requires Inv(s) && CanWait(s, q)
    ensures s.cond.pc[q] == CondWord.Idle && if s.thread[q].depth == 0 then Spare(s, q) else Resting(s, q)
  {
    hide OnTime, SignalCovers, CondWord.Inv;
    assert FitsIn(s, q);
    if s.thread[q].depth > 0 {
      OneOwner(s, q, q);
    }
  }

  // ---- From the start ----

  /** The two steps of a signal up to its wake. */
  function Called(s: State, t: Tid): State
    requires t in s.thread
  {
    Goto(s, t, Signal(false))
  }

  function Published(s: State, t: Tid): State
    requires t in s.thread
  {
    var c := s.cond;
    Goto(s, t, Monitor.Wake(false, Waiters(c)))
      .(cond := c.(counter := c.counter + 1, pc := c.pc[t := CondWord.Owes(false, c.counter + 1)]))
  }

  lemma Signals(s: State, t: Tid)
    requires Known(s, t) && s.thread[t].pc.Idle? && s.cond.pc[t] == CondWord.Idle
    ensures Next(s, Called(s, t)) && Next(Called(s, t), Published(Called(s, t), t))
  {
    assert Step(s, t, Start(CondSignal), Called(s, t));
    assert Step(Called(s, t), t, Cond(CondWord.Publish(false)), Published(Called(s, t), t));
  }

  lemma Joined(a: seq<State>, b: seq<State>)
    requires IsTrace(a) && IsTrace(b) && Next(a[|a| - 1], b[0])
    ensures IsTrace(a + b)
  {
    var run := a + b;
    forall i | 0 <= i < |run| - 1 ensures Next(run[i], run[i + 1]) {
      if i < |a| - 1 {
        assert Next(a[i], a[i + 1]);
      } else if i >= |a| {
        assert Next(b[i - |a|], b[i - |a| + 1]);
      }
    }
  }

  /** Such a state is reached: from any start with three threads, `p` falls asleep, then
      `t` signals without ever having locked the mutex, and its signal misses `p`. */
  lemma SignalMissesFromStart(s: State, p: Tid, q: Tid, t: Tid) returns (run: seq<State>)
    requires Init(s) && p in s.thread && q in s.thread && t in s.thread && p != q && q != t && p != t
    ensures IsRun(Init, Next, run) && run[0] == s && |run| == 30
    ensures Known(run[13], t) && run[13].thread[t] == Thread(Idle(Fresh), 0) && Asleep(run[13], p)
    ensures OwesWake(run[15], t) && !run[15].thread[t].pc.all && Asleep(run[15], p) && Missed(run[15..], t)
    ensures t in run[29].thread && run[29].thread[t].pc.Idle? && Asleep(run[29], p)
    ensures forall j :: 0 <= j < 30 ==> t in run[j].thread && run[j].thread[t].depth == 0
  {
    hide Stage, Next, Missed, Called, Published, OwesWake, OwesSignal;
    var stages := Stages(s, p);
    StagesFollow(s, p);
    var a := Stage(s, p, 13);
    SignalReady(s, p, q, t);
    Signals(a, t);
    var b := Called(a, t);
    var c := Published(b, t);
    var tail := LatecomerTakesWake(c, t, q);
    MissedTail(tail, t, p);
    Joined([b], tail);
    Joined(stages, [b] + tail);
    run := stages + ([b] + tail);
    assert run[15..] == tail && run[15] == c;
    StagesKeepDepth(s, p, t);
    forall j | 0 <= j < 30 ensures t in run[j].thread && run[j].thread[t].depth == 0 {
      if j < 14 {
        assert run[j] == stages[j];
      } else if j > 14 {
        assert run[j] == tail[j - 15];
      }
    }
  }

  lemma StagesKeepDepth(s: State, q: Tid, t: Tid)
    requires Spare(s, q) && t in s.thread && t != q
    ensures forall j :: 0 <= j < 14 ==> t in Stages(s, q)[j].thread && Stages(s, q)[j].thread[t] == s.thread[t]
  {
    forall j | 0 <= j < 14 ensures t in Stages(s, q)[j].thread && Stages(s, q)[j].thread[t] == s.thread[t] {
      StageKeepsOthers(s, q, j);
    }
  }

  lemma SignalReady(s: State, p: Tid, q: Tid, t: Tid)
    requires Init(s) && p in s.thread && q in s.thread && t in s.thread && p != q && q != t && p != t
    ensures var a := Stage(s, p, 13);
            && Known(a, t) && a.thread[t] == Thread(Idle(Fresh), 0) && a.cond.pc[t] == CondWord.Idle && Asleep(a, p)
            && t in Called(a, t).thread && Called(a, t).thread[t].depth == 0
            && var c := Published(Called(a, t), t);
               && Spare(c, q) && Known(c, t) && Asleep(c, p) && c.thread[t].depth == 0
               && OwesWake(c, t) && OwesSignal(c, t) && !c.thread[t].pc.all
  {
    StageKeepsOthers(s, p, 13);
  }

  lemma MissedTail(run: seq<State>, t: Tid, p: Tid)
    requires Missed(run, t) && Asleep(run[0], p)
    ensures IsTrace(run) && t in run[|run| - 1].thread && run[|run| - 1].thread[t].pc.Idle? && Asleep(run[|run| - 1], p)
  {
  }
}
