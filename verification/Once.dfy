/** `pthread_once`: 0 not called, 1 the initialiser is running, 2 done. */
module Once {
  import opened Counting
  import opened Runs

  type Tid = nat

  datatype Pc = Idle | Claim | Running | Publish | WakeAll | Check | Sleep | Parked | Returned

  /** `started` and `finished` are history: how often the initialiser has begun and ended. */
  datatype State = State(word: nat, started: nat, finished: nat, pc: map<Tid, Pc>)

  datatype Event = Move | Spurious

  ghost predicate Init(s: State) {
    s.word == 0 && s.started == 0 && s.finished == 0 && forall t :: t in s.pc ==> s.pc[t] == Idle
  }

  function Goto(s: State, t: Tid, p: Pc): State {
    s.(pc := s.pc[t := p])
  }

  ghost predicate Step(s: State, t: Tid, e: Event, s': State) {
    && t in s.pc
    && if e.Spurious? then s.pc[t] == Parked && s' == Goto(s, t, Check)
       else match s.pc[t]
         case Idle => s' == Goto(s, t, Claim)
         case Claim =>
           s' == if s.word == 0 then Goto(s, t, Running).(word := 1, started := s.started + 1) else Goto(s, t, Check)
         case Running => s' == Goto(s, t, Publish).(finished := s.finished + 1)
         case Publish => s' == Goto(s, t, WakeAll).(word := 2)
         case WakeAll =>
           s' == s.(pc := map u | u in s.pc :: if u == t then Returned else if s.pc[u] == Parked then Check else s.pc[u])
         case Check => s' == Goto(s, t, if s.word == 2 then Returned else Sleep)
         case Sleep => s' == Goto(s, t, if s.word == 1 then Parked else Check)
         case Parked => false
         case Returned => s' == Goto(s, t, Claim)    // the same thread may call again
  }

  ghost predicate Next(s: State, s': State) {
    exists t, e :: Step(s, t, e, s')
  }

  /** The one thread that won the claim and has not yet published. */
  predicate Winner(p: Pc) {
    p == Running || p == Publish
  }

  ghost predicate Inv(s: State) {
    && (s.word == 0 ==> s.started == 0 && s.finished == 0 && Count(s.pc, Winner) == 0)
    && (s.word == 1 ==> s.started == 1 && Count(s.pc, Winner) == 1)
    && (s.word == 2 ==> s.started == 1 && s.finished == 1 && Count(s.pc, Winner) == 0)
    && s.word <= 2
    && s.finished <= s.started
    && forall t :: t in s.pc ==>
         match s.pc[t]
         case Returned => s.word == 2
         case WakeAll => s.word == 2
         case Running => s.finished == 0
         case Publish => s.finished == 1
         case Check => s.word != 0
         case Sleep => s.word != 0
         case Parked => s.word == 1 || (s.word == 2 && exists u :: u in s.pc && s.pc[u] == WakeAll)
         case _ => true
  }

  lemma NonWakeKeepsInv(s: State, t: Tid, e: Event, s': State)
    requires Inv(s) && Step(s, t, e, s') && s.pc[t] != WakeAll
    ensures Inv(s')
  {
    CountUpdate(s.pc, t, s'.pc[t], Winner);
    CountZero(s.pc, Winner);
    if Winner(s.pc[t]) {
      forall u | u in s.pc && u != t ensures !Winner(s.pc[u]) {
        if Winner(s.pc[u]) {
          CountTwo(s.pc, t, u, Winner);
        }
      }
    }
    forall u | u in s'.pc && s'.pc[u] == Parked && s'.word != 1
      ensures s'.word == 2 && exists v :: v in s'.pc && s'.pc[v] == WakeAll
    {
      if s.pc[t] == Publish {
        assert s'.pc[t] == WakeAll;
      } else {
        var v :| v in s.pc && s.pc[v] == WakeAll;
        assert s'.pc[v] == WakeAll;
      }
    }
  }

  lemma StepKeepsInv(s: State, t: Tid, e: Event, s': State)
    requires Inv(s) && Step(s, t, e, s')
    ensures Inv(s')
  {
    if s.pc[t] == WakeAll {
      assert Where(s'.pc, Winner) == Where(s.pc, Winner);
    } else {
      NonWakeKeepsInv(s, t, e, s');
    }
  }

  lemma RunsAreSafe(run: seq<State>, k: nat)
    requires IsRun(Init, Next, run) && k < |run|
    ensures Inv(run[k])
  {
    forall s | Init(s) ensures Inv(s) {
      CountZero(s.pc, Winner);
    }
    forall s, s' | Inv(s) && Next(s, s') ensures Inv(s') {
      var t, e :| Step(s, t, e, s');
      StepKeepsInv(s, t, e, s');
    }
    InvariantHolds(Init, Next, Inv, run, k);
  }

  /** Main result: in every reachable state the initialiser has begun at most once,
      nobody has returned before it ended, and a thread asleep after it was
      declared done has its wake on the way. */
  lemma RunsOnce(run: seq<State>, k: nat, t: Tid)
    requires IsRun(Init, Next, run) && k < |run| && t in run[k].pc
    ensures run[k].started <= 1
    ensures run[k].pc[t] == Returned ==> run[k].finished == 1
    ensures run[k].pc[t] == Parked && run[k].word == 2 ==> exists u :: u in run[k].pc && run[k].pc[u] == WakeAll
  {
    RunsAreSafe(run, k);
  }

  /** The initialiser is begun by exactly the call that finds it not called; a call that
      waits returns exactly when it finds it done. */
  lemma CallAnswers(s: State, t: Tid, e: Event, s': State)
    requires Step(s, t, e, s')
    ensures s'.started == s.started + One(e.Move? && s.pc[t] == Claim && s.word == 0)
    ensures t in s'.pc && (e.Move? && s.pc[t] == Claim ==> (s'.pc[t] == Running <==> s.word == 0))
    ensures e.Move? && s.pc[t] == Check ==> s'.pc[t] == if s.word == 2 then Returned else Sleep
    ensures e.Move? && s.pc[t] == Sleep ==> s'.pc[t] == if s.word == 1 then Parked else Check
  {
  }

  /** Main result: nobody is left asleep: when every thread is outside its calls or
      asleep, none is asleep. */
  lemma NobodyLeftAsleep(run: seq<State>, k: nat, t: Tid)
    requires IsRun(Init, Next, run) && k < |run| && t in run[k].pc
    requires forall u :: u in run[k].pc ==> run[k].pc[u] == Idle || run[k].pc[u] == Returned || run[k].pc[u] == Parked
    ensures run[k].pc[t] != Parked
  {
    RunsAreSafe(run, k);
    CountZero(run[k].pc, Winner);
  }
}
