/** Writer-preferring read-write locks: one mutex word, two condition variables
    and three plain counters. The mutex word and both signal counters run at the
    level of single atomic operations; a straight run of plain accesses made
    while owning the word is one step, since nobody else may touch them then. */
module RwLock {
  import opened Counting
  import opened Runs
  import LockWord
  import CondWord
  import opened Options

  type Tid = nat

  datatype Call = Read | TryRead | Write | TryWrite | Unlock

  /** How often a thread holds the lock; read locks may be taken again by their holder. */
  datatype Held = Held(readLocks: nat, writeLocks: nat)

  const NOTHING: Held := Held(0, 0)

  /** Where a thread is with this lock. `held` is history. */
  datatype Pc =
    | Rest(held: Held)                              // outside every call
    | Enter(call: Call, again: bool, held: Held)    // taking the mutex, or owning it before the body
    | Asleep(writer: bool, held: Held)              // inside the condition wait
    | Notify(readers: bool, held: Held)             // owning the mutex, about to signal or broadcast
    | Leave(held: Held)                             // giving the mutex back

  datatype State = State(
    word: LockWord.State,
    readable: CondWord.State,
    writable: CondWord.State,
    readers: int,
    writer: bool,
    waiting: int,
    pc: map<Tid, Pc>)

  datatype Event =
    | Start(call: Call)                  // enter a call
    | Mutex(word: LockWord.Event)        // a step inside the mutex
    | Body                               // the guarded part of a call
    | Doze(cond: CondWord.Event)         // a step inside a condition wait
    | Ring(cond: CondWord.Event)         // a step of a signal or of a broadcast
    | Relock                             // the wait is over: take the mutex again
    | Finish                             // return from the call

  ghost predicate Init(s: State) {
    && LockWord.Init(s.word) && CondWord.Init(s.readable) && CondWord.Init(s.writable)
    && s.readers == 0 && !s.writer && s.waiting == 0
    && s.word.pc.Keys == s.readable.pc.Keys == s.writable.pc.Keys == s.pc.Keys
    && forall t :: t in s.pc ==> s.pc[t] == Rest(NOTHING)
  }

  function CondOf(s: State, forWriters: bool): CondWord.State {
    if forWriters then s.writable else s.readable
  }

  function WithCond(s: State, forWriters: bool, c: CondWord.State): State {
    if forWriters then s.(writable := c) else s.(readable := c)
  }

  function Goto(s: State, t: Tid, p: Pc): State {
    s.(pc := s.pc[t := p])
  }

  /** The only thing asked of callers: to unlock, one must hold the lock. */
  predicate MayStart(h: Held, call: Call) {
    call.Unlock? ==> h != NOTHING
  }

  /** What is left of the locks held after one unlock, which undoes a write lock if
      there is a writer and a read lock otherwise. */
  function Dropped(h: Held, writer: bool): Held {
    if writer then h.(writeLocks := if h.writeLocks > 0 then h.writeLocks - 1 else 0)
    else h.(readLocks := if h.readLocks > 0 then h.readLocks - 1 else 0)
  }

  /** The guarded part of each call, from the mutex taken to the decision what to do next. */
  function BodyResult(s: State, t: Tid, call: Call, again: bool, h: Held): State
    requires t in s.readable.pc && t in s.writable.pc
  {
    match call
    case Read =>
      if s.writer || s.waiting > 0 then
        Goto(s, t, Asleep(false, h)).(readable := CondWord.Move(s.readable, t, CondWord.Ready(s.readable.counter)))
      else
        Goto(s, t, Leave(h.(readLocks := h.readLocks + 1))).(readers := s.readers + 1)
    case TryRead =>
      if s.writer || s.waiting > 0 then Goto(s, t, Leave(h))
      else Goto(s, t, Leave(h.(readLocks := h.readLocks + 1))).(readers := s.readers + 1)
    case Write =>
      var queued := if again then s.waiting else s.waiting + 1;
      if s.writer || s.readers > 0 then
        Goto(s, t, Asleep(true, h)).(waiting := queued,
                                     writable := CondWord.Move(s.writable, t, CondWord.Ready(s.writable.counter)))
      else
        Goto(s, t, Leave(h.(writeLocks := h.writeLocks + 1))).(waiting := queued - 1, writer := true)
    case TryWrite =>
      if s.writer || s.readers > 0 then Goto(s, t, Leave(h))
      else Goto(s, t, Leave(h.(writeLocks := h.writeLocks + 1))).(writer := true)
    case Unlock =>
      var readers := if !s.writer && s.readers > 0 then s.readers - 1 else s.readers;
      var left := Dropped(h, s.writer);
      var next := if s.waiting > 0 then (if readers == 0 then Notify(false, left) else Leave(left)) else Notify(true, left);
      Goto(s, t, next).(readers := readers, writer := false)
  }

  predicate InsideMutexCall(e: LockWord.Event) {
    e.Cas? || e.Exchange? || e.Wait? || e.Spurious? || e.Store? || e.WakeNone? || e.WakeOne?
  }

  /** Enter a call: begin taking the mutex. */
  ghost predicate StartStep(s: State, t: Tid, call: Call, s': State)
    requires Known(s, t)
  {
    && s.pc[t].Rest? && MayStart(s.pc[t].held, call)
    && LockWord.Step(s.word, t, LockWord.Begin, s'.word)
    && s' == Goto(s, t, Enter(call, false, s.pc[t].held)).(word := s'.word)
  }

  /** A step inside the mutex; giving it up happens on leaving a call and inside
      the condition wait. */
  ghost predicate MutexStep(s: State, t: Tid, we: LockWord.Event, s': State)
    requires Known(s, t)
  {
    && (InsideMutexCall(we)
        || (we.Subtract? && (s.pc[t].Leave? || (s.pc[t].Asleep? && CondOf(s, s.pc[t].writer).pc[t].Ready?))))
    && LockWord.Step(s.word, t, we, s'.word)
    && s' == s.(word := s'.word)
  }

  ghost predicate DozeStep(s: State, t: Tid, ce: CondWord.Event, s': State)
    requires Known(s, t)
  {
    && s.pc[t].Asleep?
    && s.word.pc[t] == LockWord.Idle
    && ((ce.Wait? && ce.timeout == 0) || ce.Spurious?)
    && CondWord.Step(CondOf(s, s.pc[t].writer), t, ce, CondOf(s', s.pc[t].writer))
    && s' == WithCond(s, s.pc[t].writer, CondOf(s', s.pc[t].writer))
  }

  ghost predicate RingStep(s: State, t: Tid, ce: CondWord.Event, s': State)
    requires Known(s, t)
  {
    && s.pc[t].Notify?
    && s.word.pc[t] == LockWord.Held
    && (ce == CondWord.Publish(s.pc[t].readers) || ce.WakeNone? || ce.WakeOne? || ce.WakeAll?)
    && CondWord.Step(CondOf(s, !s.pc[t].readers), t, ce, CondOf(s', !s.pc[t].readers))
    && s' == Goto(WithCond(s, !s.pc[t].readers, CondOf(s', !s.pc[t].readers)), t,
                  if ce.Publish? then s.pc[t] else Leave(s.pc[t].held))
  }

  ghost predicate RelockStep(s: State, t: Tid, s': State)
    requires Known(s, t)
  {
    && s.pc[t].Asleep?
    && CondOf(s, s.pc[t].writer).pc[t].Back?
    && LockWord.Step(s.word, t, LockWord.Begin, s'.word)
    && s' == WithCond(Goto(s, t, Enter(if s.pc[t].writer then Write else Read, true, s.pc[t].held)), s.pc[t].writer,
                      CondWord.Move(CondOf(s, s.pc[t].writer), t, CondWord.Idle)).(word := s'.word)
  }

  ghost predicate Known(s: State, t: Tid) {
    t in s.pc && t in s.word.pc && t in s.readable.pc && t in s.writable.pc
  }

  ghost predicate Step(s: State, t: Tid, e: Event, s': State) {
    && Known(s, t)
    && match e
       case Start(call) => StartStep(s, t, call, s')
       case Mutex(we) => MutexStep(s, t, we, s')
       case Body =>
         && s.pc[t].Enter? && s.word.pc[t] == LockWord.Held
         && s' == BodyResult(s, t, s.pc[t].call, s.pc[t].again, s.pc[t].held)
       case Doze(ce) => DozeStep(s, t, ce, s')
       case Ring(ce) => RingStep(s, t, ce, s')
       case Relock => RelockStep(s, t, s')
       case Finish =>
         && s.pc[t].Leave? && s.word.pc[t] == LockWord.Idle
         && s' == Goto(s, t, Rest(s.pc[t].held))
  }

  ghost predicate Next(s: State, s': State) {
    exists t, e :: Step(s, t, e, s')
  }

  // ---- What the counters count ----

  /** Read locks counted by `readers`, each from the increment to the decrement in unlock. */
  function Reads(p: Pc): nat {
    p.held.readLocks
  }

  function Writes(p: Pc): nat {
    p.held.writeLocks
  }

  predicate Holds(p: Pc) {
    p.held != NOTHING
  }

  predicate SleepsOn(p: Pc, forWriters: bool) {
    p.Asleep? && p.writer == forWriters
  }

  predicate Rings(p: Pc, forReaders: bool) {
    p.Notify? && p.readers == forReaders
  }

  predicate WaitingWriter(p: Pc) {
    SleepsOn(p, true) || (p.Enter? && p.call == Write && p.again)
  }

  ghost predicate Accounts(s: State) {
    && s.readers == Sum(s.pc, Reads)
    && One(s.writer) == Sum(s.pc, Writes)
    && (s.writer ==> s.readers == 0)
    && s.waiting == Count(s.pc, WaitingWriter)
  }

  // ---- How the layers fit together, thread by thread ----

  predicate Fits(p: Pc, w: LockWord.Pc, r: CondWord.Pc, x: CondWord.Pc) {
    match p
    case Rest(_) => w == LockWord.Idle && r == CondWord.Idle && x == CondWord.Idle
    case Enter(call, _, h) =>
      && (LockWord.Acquiring(w) || w == LockWord.Held)
      && r == CondWord.Idle && x == CondWord.Idle
      && MayStart(h, call)
    case Asleep(forWriters, _) =>
      var (mine, other) := if forWriters then (x, r) else (r, x);
      && other == CondWord.Idle
      && (mine.Ready? || mine.Parked? || mine.Back?)
      && LockWord.Releasing(w)
      && (!mine.Ready? ==> w == LockWord.Idle)
    case Notify(readers, _) =>
      var (mine, other) := if readers then (r, x) else (x, r);
      && other == CondWord.Idle
      && (mine == CondWord.Idle || (mine.Owes? && mine.all == readers))
      && w == LockWord.Held
    case Leave(_) =>
      && LockWord.Releasing(w)
      && r == CondWord.Idle && x == CondWord.Idle
  }

  ghost predicate SameThreads(s: State) {
    s.word.pc.Keys == s.readable.pc.Keys == s.writable.pc.Keys == s.pc.Keys
  }

  ghost predicate FitsIn(s: State, t: Tid)
    requires Known(s, t)
  {
    Fits(s.pc[t], s.word.pc[t], s.readable.pc[t], s.writable.pc[t])
  }

  ghost predicate AllFit(s: State) {
    forall t :: Known(s, t) ==> FitsIn(s, t)
  }

  ghost predicate Parts(s: State) {
    LockWord.Inv(s.word) && CondWord.Inv(s.readable) && CondWord.Inv(s.writable)
  }

  ghost predicate Layered(s: State) {
    SameThreads(s) && AllFit(s) && Parts(s)
  }

  // ---- Nobody is stranded ----

  ghost predicate SomeDozing(c: CondWord.State) {
    exists t :: t in c.pc && CondWord.Dozing(c, t)
  }

  ghost predicate Notifying(s: State, readers: bool) {
    exists u :: u in s.pc && Rings(s.pc[u], readers)
  }

  /** A waiting writer that is awake and bound to test its guard again. */
  predicate Alert(s: State, u: Tid)
    requires u in s.pc && u in s.writable.pc
  {
    WaitingWriter(s.pc[u]) && !CondWord.Dozing(s.writable, u)
  }

  ghost predicate SomeAlert(s: State) {
    exists u :: u in s.pc && u in s.writable.pc && Alert(s, u)
  }

  /** A sleeping reader has a writer inside or waiting, or its broadcast is on the way. */
  ghost predicate ReadersHaveReason(s: State) {
    SomeDozing(s.readable) ==> s.writer || s.waiting > 0 || Notifying(s, true)
  }

  /** A sleeping writer has somebody inside, its signal on the way, or a fellow
      waiting writer awake. */
  ghost predicate WritersHaveReason(s: State) {
    SomeDozing(s.writable) ==> s.writer || s.readers > 0 || Notifying(s, false) || SomeAlert(s)
  }

  ghost predicate Inv(s: State) {
    && Layered(s)
    && Accounts(s)
    && CondWord.NoFreshWaiter(s.readable) && CondWord.NoFreshWaiter(s.writable)
    && ReadersHaveReason(s) && WritersHaveReason(s)
  }

  // ---- The layers stay in step ----

  lemma StepFrame(s: State, t: Tid, e: Event, s': State)
    requires Step(s, t, e, s')
    ensures s'.pc.Keys == s.pc.Keys && s'.word.pc.Keys == s.word.pc.Keys
    ensures s'.readable.pc.Keys == s.readable.pc.Keys && s'.writable.pc.Keys == s.writable.pc.Keys
    ensures forall u :: u != t && u in s.pc ==> s'.pc[u] == s.pc[u]
  {
    match e {
      case Start(call) => LockWord.StepFrame(s.word, t, LockWord.Begin, s'.word);
      case Mutex(we) => LockWord.StepFrame(s.word, t, we, s'.word);
      case Body =>
      case Doze(ce) => CondWord.StepFrame(CondOf(s, s.pc[t].writer), t, ce, CondOf(s', s.pc[t].writer));
      case Ring(ce) => CondWord.StepFrame(CondOf(s, !s.pc[t].readers), t, ce, CondOf(s', !s.pc[t].readers));
      case Relock => LockWord.StepFrame(s.word, t, LockWord.Begin, s'.word);
      case Finish =>
    }
  }

  /** Each layer only ever takes its own steps, on behalf of the moving thread. */
  lemma StepMovesWord(s: State, t: Tid, e: Event, s': State)
    requires Step(s, t, e, s')
    ensures s'.word == s.word || exists we :: LockWord.Step(s.word, t, we, s'.word)
  {
  }

  /** `ce` is the step the condition variable `forWriters` takes in step `e`. */
  ghost predicate CondMoved(s: State, t: Tid, e: Event, s': State, forWriters: bool, ce: CondWord.Event)
    requires Known(s, t) && Known(s', t)
  {
    && CondWord.Step(CondOf(s, forWriters), t, ce, CondOf(s', forWriters))
    && match ce
       case Read => e.Body? && s.word.pc[t] == LockWord.Held && SleepsOn(s'.pc[t], forWriters)
       case Wait(_, _) => e == Doze(ce) && SleepsOn(s.pc[t], forWriters)
       case Spurious => e == Doze(ce) && SleepsOn(s.pc[t], forWriters)
       case Return => e.Relock? && SleepsOn(s.pc[t], forWriters)
       case Expire(_) => false
       case Abandon => false
       case _ => e == Ring(ce) && Rings(s.pc[t], !forWriters)
  }

  lemma StepMovesConds(s: State, t: Tid, e: Event, s': State, forWriters: bool)
    requires Step(s, t, e, s') && FitsIn(s, t) && Known(s', t)
    ensures CondOf(s', forWriters) == CondOf(s, forWriters) || exists ce :: CondMoved(s, t, e, s', forWriters, ce)
  {
    if CondOf(s', forWriters) != CondOf(s, forWriters) {
      match e {
        case Start(call) =>
        case Mutex(we) =>
        case Body => assert CondMoved(s, t, e, s', forWriters, CondWord.Read);
        case Doze(ce) => assert CondMoved(s, t, e, s', forWriters, ce);
        case Ring(ce) => assert CondMoved(s, t, e, s', forWriters, ce);
        case Relock => assert CondMoved(s, t, e, s', forWriters, CondWord.Return);
        case Finish =>
      }
    }
  }

  lemma StepKeepsParts(s: State, t: Tid, e: Event, s': State)
    requires Parts(s) && Step(s, t, e, s') && FitsIn(s, t)
    ensures Parts(s')
  {
    StepMovesWord(s, t, e, s');
    if s'.word != s.word {
      var we :| LockWord.Step(s.word, t, we, s'.word);
      LockWord.StepKeepsInv(s.word, t, we, s'.word);
    }
    StepFrame(s, t, e, s');
    StepMovesConds(s, t, e, s', false);
    if s'.readable != s.readable {
      var ce :| CondMoved(s, t, e, s', false, ce);
      CondWord.StepKeepsInv(s.readable, t, ce, s'.readable);
    }
    StepMovesConds(s, t, e, s', true);
    if s'.writable != s.writable {
      var ce :| CondMoved(s, t, e, s', true, ce);
      CondWord.StepKeepsInv(s.writable, t, ce, s'.writable);
    }
  }

  lemma BodyFitsSelf(s: State, t: Tid, s': State)
    requires Step(s, t, Body, s') && FitsIn(s, t) && Known(s', t)
    ensures FitsIn(s', t)
  {
  }

  lemma MutexFitsSelf(s: State, t: Tid, we: LockWord.Event, s': State)
    requires Step(s, t, Mutex(we), s') && FitsIn(s, t) && Known(s', t)
    ensures FitsIn(s', t)
  {
  }

  lemma DozeFitsSelf(s: State, t: Tid, ce: CondWord.Event, s': State)
    requires Step(s, t, Doze(ce), s') && FitsIn(s, t) && Known(s', t)
    ensures FitsIn(s', t)
  {
  }

  lemma RingFitsSelf(s: State, t: Tid, ce: CondWord.Event, s': State)
    requires Step(s, t, Ring(ce), s') && FitsIn(s, t) && Known(s', t)
    ensures FitsIn(s', t)
  {
  }

  lemma RelockFitsSelf(s: State, t: Tid, s': State)
    requires Step(s, t, Relock, s') && FitsIn(s, t) && Known(s', t)
    ensures FitsIn(s', t)
  {
  }

  lemma EdgeFitsSelf(s: State, t: Tid, e: Event, s': State)
    requires Step(s, t, e, s') && (e.Start? || e.Finish?) && FitsIn(s, t) && Known(s', t)
    ensures FitsIn(s', t)
  {
  }

  lemma StepFitsSelf(s: State, t: Tid, e: Event, s': State)
    requires Step(s, t, e, s') && FitsIn(s, t)
    requires Known(s', t)
    ensures FitsIn(s', t)
  {
    hide Step, FitsIn;
    match e {
      case Body => BodyFitsSelf(s, t, s');
      case Mutex(we) => MutexFitsSelf(s, t, we, s');
      case Doze(ce) => DozeFitsSelf(s, t, ce, s');
      case Ring(ce) => RingFitsSelf(s, t, ce, s');
      case Relock => RelockFitsSelf(s, t, s');
      case _ => EdgeFitsSelf(s, t, e, s');
    }
  }

  lemma CondMovesOther(s: State, t: Tid, e: Event, s': State, forWriters: bool, u: Tid)
    requires Step(s, t, e, s') && FitsIn(s, t) && Known(s', t)
    requires u != t && u in CondOf(s, forWriters).pc && u in CondOf(s', forWriters).pc
    ensures var (p, p') := (CondOf(s, forWriters).pc[u], CondOf(s', forWriters).pc[u]);
            p' == p || (p.Parked? && p' == CondWord.Back(CondWord.Woken))
  {
    StepMovesConds(s, t, e, s', forWriters);
    if CondOf(s', forWriters) != CondOf(s, forWriters) {
      var ce :| CondMoved(s, t, e, s', forWriters, ce);
      CondWord.StepFrame(CondOf(s, forWriters), t, ce, CondOf(s', forWriters));
    }
  }

  lemma StepFitsOther(s: State, t: Tid, e: Event, s': State, u: Tid)
    requires Step(s, t, e, s') && FitsIn(s, t) && Known(s', t)
    requires u != t && Known(s, u) && Known(s', u) && FitsIn(s, u)
    ensures FitsIn(s', u)
  {
    StepFrame(s, t, e, s');
    StepMovesWord(s, t, e, s');
    if s'.word != s.word {
      var we :| LockWord.Step(s.word, t, we, s'.word);
      LockWord.StepFrame(s.word, t, we, s'.word);
    }
    CondMovesOther(s, t, e, s', false, u);
    CondMovesOther(s, t, e, s', true, u);
  }

  lemma StepKeepsLayered(s: State, t: Tid, e: Event, s': State)
    requires Layered(s) && Step(s, t, e, s')
    ensures Layered(s')
  {
    StepKeepsParts(s, t, e, s');
    StepFrame(s, t, e, s');
    forall u | Known(s', u) ensures FitsIn(s', u) {
      if u == t {
        StepFitsSelf(s, t, e, s');
      } else {
        StepFitsOther(s, t, e, s', u);
      }
    }
  }

  // ---- The counters count ----

  lemma StepCounts(s: State, t: Tid, e: Event, s': State)
    requires Step(s, t, e, s')
    ensures t in s'.pc
    ensures Sum(s'.pc, Reads) == Sum(s.pc, Reads) - Reads(s.pc[t]) + Reads(s'.pc[t])
    ensures Sum(s'.pc, Writes) == Sum(s.pc, Writes) - Writes(s.pc[t]) + Writes(s'.pc[t])
    ensures Count(s'.pc, WaitingWriter)
         == Count(s.pc, WaitingWriter) - One(WaitingWriter(s.pc[t])) + One(WaitingWriter(s'.pc[t]))
  {
    StepFrame(s, t, e, s');
    assert s'.pc == s.pc[t := s'.pc[t]];
    SumUpdate(s.pc, t, s'.pc[t], Reads);
    SumUpdate(s.pc, t, s'.pc[t], Writes);
    CountUpdate(s.pc, t, s'.pc[t], WaitingWriter);
  }

  /** Outside the body of a call nothing that is counted changes. */
  lemma StepHoldsStill(s: State, t: Tid, e: Event, s': State)
    requires Step(s, t, e, s') && !e.Body?
    ensures t in s'.pc && s'.pc[t].held == s.pc[t].held && WaitingWriter(s'.pc[t]) == WaitingWriter(s.pc[t])
    ensures s'.readers == s.readers && s'.writer == s.writer && s'.waiting == s.waiting
  {
  }

  /** The body of a call changes each counter by what it changes of the caller's share. */
  lemma BodyCounts(s: State, t: Tid, s': State)
    requires Step(s, t, Body, s') && FitsIn(s, t)
    requires s.readers >= Reads(s.pc[t]) && One(s.writer) >= Writes(s.pc[t]) && (s.writer ==> s.readers == 0)
    requires !s.writer && s.pc[t].call.Unlock? ==> Reads(s.pc[t]) > 0
    requires s.writer && s.pc[t].call.Unlock? ==> Writes(s.pc[t]) > 0
    ensures t in s'.pc
    ensures s'.readers - s.readers == Reads(s'.pc[t]) - Reads(s.pc[t])
    ensures One(s'.writer) - One(s.writer) == Writes(s'.pc[t]) - Writes(s.pc[t])
    ensures s'.waiting - s.waiting == One(WaitingWriter(s'.pc[t])) - One(WaitingWriter(s.pc[t]))
    ensures s'.writer ==> s'.readers == 0
  {
  }

  lemma StepKeepsAccounts(s: State, t: Tid, e: Event, s': State)
    requires Accounts(s) && Step(s, t, e, s') && FitsIn(s, t)
    ensures Accounts(s')
  {
    hide Step, FitsIn;
    StepCounts(s, t, e, s');
    if e.Body? {
      UnlocksWhatItHolds(s, t, s');
      BodyCounts(s, t, s');
    } else {
      StepHoldsStill(s, t, e, s');
    }
  }

  /** A thread that unlocks holds a lock of the kind the lock is held in. */
  lemma UnlocksWhatItHolds(s: State, t: Tid, s': State)
    requires Accounts(s) && Step(s, t, Body, s') && FitsIn(s, t)
    ensures s.readers >= Reads(s.pc[t]) && One(s.writer) >= Writes(s.pc[t])
    ensures s.pc[t].call.Unlock? ==> if s.writer then Writes(s.pc[t]) > 0 else Reads(s.pc[t]) > 0
  {
    SumTwo(s.pc, t, t, Reads);
    SumTwo(s.pc, t, t, Writes);
  }

  // ---- Nobody is stranded ----

  lemma OneOwner(s: State, t: Tid, u: Tid)
    requires LockWord.Inv(s.word) && t in s.word.pc && u in s.word.pc
    requires s.word.pc[t] == LockWord.Held && s.word.pc[u] == LockWord.Held
    ensures t == u
  {
    assert t in LockWord.Insiders(s.word) && u in LockWord.Insiders(s.word);
  }

  /** While a thread owns the mutex at the body of a call, no wake is owed. */
  lemma OwnerSeesNoDebt(s: State, t: Tid, u: Tid, forWriters: bool)
    requires Layered(s) && Known(s, t) && s.word.pc[t] == LockWord.Held && !s.pc[t].Notify?
    requires u in CondOf(s, forWriters).pc
    ensures !CondOf(s, forWriters).pc[u].Owes?
  {
    assert Known(s, u) && FitsIn(s, u);
    if s.pc[u].Notify? {
      OneOwner(s, t, u);
    }
  }

  lemma StepKeepsNoFresh(s: State, t: Tid, e: Event, s': State, forWriters: bool)
    requires Layered(s) && Step(s, t, e, s') && CondWord.NoFreshWaiter(CondOf(s, forWriters))
    ensures CondWord.NoFreshWaiter(CondOf(s', forWriters))
  {
    StepFrame(s, t, e, s');
    StepMovesConds(s, t, e, s', forWriters);
    if CondOf(s', forWriters) != CondOf(s, forWriters) {
      var ce :| CondMoved(s, t, e, s', forWriters, ce);
      forall u | ce.Read? && u in CondOf(s, forWriters).pc ensures !CondOf(s, forWriters).pc[u].Owes? {
        OwnerSeesNoDebt(s, t, u, forWriters);
      }
      CondWord.StepKeepsNoFresh(CondOf(s, forWriters), t, ce, CondOf(s', forWriters));
    }
  }

  /** A thread dozing after a step was dozing before it, or just queued up. */
  lemma DozingBefore(s: State, t: Tid, e: Event, s': State, forWriters: bool, p: Tid)
    requires Layered(s) && Step(s, t, e, s')
    requires p in CondOf(s', forWriters).pc && CondWord.Dozing(CondOf(s', forWriters), p)
    ensures p in CondOf(s, forWriters).pc
    ensures CondWord.Dozing(CondOf(s, forWriters), p) || (p == t && e.Body? && SleepsOn(s'.pc[t], forWriters))
  {
    StepFrame(s, t, e, s');
    StepMovesConds(s, t, e, s', forWriters);
    if CondOf(s', forWriters) != CondOf(s, forWriters) {
      var ce :| CondMoved(s, t, e, s', forWriters, ce);
      CondWord.DozingBefore(CondOf(s, forWriters), t, ce, CondOf(s', forWriters), p);
    }
  }

  /** A wake step of a signal or a broadcast never finds a waiter that could still fall asleep. */
  lemma BroadcastClears(s: State, t: Tid, ce: CondWord.Event, s': State)
    requires Layered(s) && CondWord.NoFreshWaiter(s.readable)
    requires Step(s, t, Ring(ce), s') && Rings(s.pc[t], true) && !ce.Publish?
    ensures !SomeDozing(s'.readable)
  {
    assert FitsIn(s, t);
  }

  lemma BodyAndReaders(s: State, t: Tid, s': State)
    requires Step(s, t, Body, s') && (WaitingWriter(s.pc[t]) ==> s.waiting > 0)
    ensures t in s'.pc
    ensures (SleepsOn(s'.pc[t], false) || s.writer || s.waiting > 0) ==>
              (s'.writer || s'.waiting > 0 || Rings(s'.pc[t], true))
  {
  }

  lemma BodyKeepsReaders(s: State, t: Tid, s': State)
    requires Inv(s) && Step(s, t, Body, s')
    ensures ReadersHaveReason(s')
  {
    if p :| p in s'.readable.pc && CondWord.Dozing(s'.readable, p) {
      DozingBefore(s, t, Body, s', false, p);
      CountZero(s.pc, WaitingWriter);
      BodyAndReaders(s, t, s');
      NotNotifying(s, t, true);
    }
  }

  /** At the body of a call nobody else is between its decision and its signal. */
  lemma NotNotifying(s: State, t: Tid, readers: bool)
    requires Layered(s) && Known(s, t) && s.word.pc[t] == LockWord.Held && !s.pc[t].Notify?
    ensures !Notifying(s, readers)
  {
    if u :| u in s.pc && Rings(s.pc[u], readers) {
      assert FitsIn(s, u);
      OneOwner(s, t, u);
    }
  }

  lemma StepKeepsReaders(s: State, t: Tid, e: Event, s': State)
    requires Inv(s) && Step(s, t, e, s')
    ensures ReadersHaveReason(s')
  {
    if e.Body? {
      BodyKeepsReaders(s, t, s');
    } else if e.Ring? && Rings(s.pc[t], true) && !e.cond.Publish? {
      BroadcastClears(s, t, e.cond, s');
    } else if p :| p in s'.readable.pc && CondWord.Dozing(s'.readable, p) {
      DozingBefore(s, t, e, s', false, p);
      StepKeepsCounters(s, t, e, s');
      if u :| u in s.pc && Rings(s.pc[u], true) {
        assert Rings(s'.pc[u], true);
      }
    }
  }

  /** Only the body of a call changes the counters; only a wake ends a notification. */
  lemma StepKeepsCounters(s: State, t: Tid, e: Event, s': State)
    requires Step(s, t, e, s') && !e.Body?
    ensures s'.readers == s.readers && s'.writer == s.writer && s'.waiting == s.waiting
    ensures forall u :: u in s.pc && s.pc[u].Notify? && !(u == t && e.Ring? && !e.cond.Publish?)
              ==> u in s'.pc && s'.pc[u] == s.pc[u]
    ensures forall u :: u in s.pc && WaitingWriter(s.pc[u]) ==> u in s'.pc && WaitingWriter(s'.pc[u])
  {
    StepFrame(s, t, e, s');
  }

  // Writers.

  lemma BodyAndWriters(s: State, t: Tid, s': State)
    requires Step(s, t, Body, s') && s.readers >= 0
    ensures t in s'.pc
    ensures SleepsOn(s'.pc[t], true) || (WaitingWriter(s.pc[t]) && !s.pc[t].Asleep?) ==> s'.writer || s'.readers > 0
    ensures (s.writer || s.readers > 0) && s.waiting > 0 ==> s'.writer || s'.readers > 0 || Rings(s'.pc[t], false)
  {
  }

  /** A dozing writer is counted by `waiting`. */
  lemma DozingWriterCounts(s: State, p: Tid)
    requires Layered(s) && Accounts(s) && p in s.writable.pc && CondWord.Dozing(s.writable, p)
    ensures s.waiting > 0
  {
    assert Known(s, p) && FitsIn(s, p);
    CountZero(s.pc, WaitingWriter);
  }

  lemma BodyKeepsWriters(s: State, t: Tid, s': State)
    requires Inv(s) && Step(s, t, Body, s')
    ensures WritersHaveReason(s')
  {
    BodyAndWriters(s, t, s');
    if p :| p in s'.writable.pc && CondWord.Dozing(s'.writable, p) && !s'.writer && s'.readers <= 0 {
      DozingBefore(s, t, Body, s', true, p);
      DozingWriterCounts(s, p);
      NotNotifying(s, t, false);
      if s.writer || s.readers > 0 {
        assert Notifying(s', false);
      } else {
        var u :| u in s.pc && u in s.writable.pc && Alert(s, u);
        AlertStays(s, t, Body, s', u);
      }
    }
  }

  /** A waiting writer that is awake stays so until it enters or queues up again. */
  lemma AlertStays(s: State, t: Tid, e: Event, s': State, u: Tid)
    requires Layered(s) && Step(s, t, e, s') && Known(s, u) && Alert(s, u)
    requires !(e.Body? && u == t)
    ensures u in s'.pc && u in s'.writable.pc && Alert(s', u)
  {
    StepFrame(s, t, e, s');
    StepMovesConds(s, t, e, s', true);
    if CondWord.Dozing(s'.writable, u) {
      DozingBefore(s, t, e, s', true, u);
    }
  }

  /** The writer a signal picks is awake afterwards. */
  lemma PickedIsAlert(s: State, t: Tid, u: Tid, s': State)
    requires AllFit(s) && SameThreads(s) && Step(s, t, Ring(CondWord.WakeOne(u)), s') && Rings(s.pc[t], false)
    ensures u in s'.pc && u in s'.writable.pc && Alert(s', u)
  {
    assert Known(s, u) && FitsIn(s, u) && FitsIn(s, t);
  }

  /** A signal's wake either reaches a waiting writer or finds none asleep. */
  lemma SignalWakes(s: State, t: Tid, ce: CondWord.Event, s': State)
    requires Layered(s) && CondWord.NoFreshWaiter(s.writable)
    requires Step(s, t, Ring(ce), s') && Rings(s.pc[t], false) && !ce.Publish?
    ensures SomeDozing(s'.writable) ==> SomeAlert(s')
  {
    assert FitsIn(s, t);
    if ce.WakeOne? {
      PickedIsAlert(s, t, ce.who, s');
    }
  }

  /** A signal on its way stays so until its wake. */
  lemma RingerStays(s: State, t: Tid, e: Event, s': State)
    requires Step(s, t, e, s') && !e.Body? && !(e.Ring? && Rings(s.pc[t], false) && !e.cond.Publish?)
    requires Notifying(s, false)
    ensures Notifying(s', false)
  {
    StepKeepsCounters(s, t, e, s');
    var u :| u in s.pc && Rings(s.pc[u], false);
    assert Rings(s'.pc[u], false);
  }

  lemma AlertsStay(s: State, t: Tid, e: Event, s': State)
    requires Layered(s) && Step(s, t, e, s') && !e.Body? && SomeAlert(s)
    ensures SomeAlert(s')
  {
    var u :| u in s.pc && u in s.writable.pc && Alert(s, u);
    assert Known(s, u);
    AlertStays(s, t, e, s', u);
  }

  lemma QuietKeepsWriters(s: State, t: Tid, e: Event, s': State)
    requires Inv(s) && Step(s, t, e, s') && !e.Body? && !(e.Ring? && Rings(s.pc[t], false) && !e.cond.Publish?)
    ensures WritersHaveReason(s')
  {
    hide Step, AllFit, Parts, Accounts, CondWord.NoFreshWaiter, CondWord.Dozing, SomeAlert, Notifying;
    if p :| p in s'.writable.pc && CondWord.Dozing(s'.writable, p) {
      DozingBefore(s, t, e, s', true, p);
      StepKeepsCounters(s, t, e, s');
      if Notifying(s, false) {
        RingerStays(s, t, e, s');
      } else if SomeAlert(s) {
        AlertsStay(s, t, e, s');
      }
    }
  }

  lemma StepKeepsWriters(s: State, t: Tid, e: Event, s': State)
    requires Inv(s) && Step(s, t, e, s')
    ensures WritersHaveReason(s')
  {
    assert t in s.pc;
    hide Step;
    if e.Body? {
      BodyKeepsWriters(s, t, s');
    } else if e.Ring? && Rings(s.pc[t], false) && !e.cond.Publish? {
      SignalWakes(s, t, e.cond, s');
    } else {
      QuietKeepsWriters(s, t, e, s');
    }
  }

  /** Every step keeps the whole invariant. */
  lemma StepKeepsInv(s: State, t: Tid, e: Event, s': State)
    requires Inv(s) && Step(s, t, e, s')
    ensures Inv(s')
  {
    StepKeepsLayered(s, t, e, s');
    assert FitsIn(s, t);
    StepKeepsAccounts(s, t, e, s');
    StepKeepsNoFresh(s, t, e, s', false);
    StepKeepsNoFresh(s, t, e, s', true);
    StepKeepsReaders(s, t, e, s');
    StepKeepsWriters(s, t, e, s');
  }

  lemma InitialInv(s: State)
    requires Init(s)
    ensures Inv(s)
  {
    SumZero(s.pc, Reads);
    SumZero(s.pc, Writes);
    CountZero(s.pc, WaitingWriter);
  }

  lemma NextKeepsInv(s: State, s': State)
    requires Inv(s) && Next(s, s')
    ensures Inv(s')
  {
    var t, e :| Step(s, t, e, s');
    StepKeepsInv(s, t, e, s');
  }

  /** Main result: along every run, for any number of threads, the counters count
      the holders, a writer excludes everybody, and nobody sleeps without a reason. */
  lemma RunsAreSafe(run: seq<State>, k: nat)
    requires IsRun(Init, Next, run) && k < |run|
    ensures Inv(run[k])
  {
    forall s | Init(s) ensures Inv(s) {
      InitialInv(s);
    }
    forall s, s' | Inv(s) && Next(s, s') ensures Inv(s') {
      NextKeepsInv(s, s');
    }
    InvariantHolds(Init, Next, Inv, run, k);
  }

  /** Exclusion, in the callers' terms: a thread holding the lock for writing holds it
      once, for nothing else, and alone. */
  lemma WriterIsAlone(s: State, t: Tid, u: Tid)
    requires Inv(s) && t in s.pc && u in s.pc && Writes(s.pc[t]) > 0
    ensures s.pc[t].held == Held(0, 1) && (t != u ==> !Holds(s.pc[u]))
  {
    SumTwo(s.pc, t, u, Writes);
    SumZero(s.pc, Reads);
  }

  // ---- What each call answers ----

  ghost predicate WriteHeld(s: State) {
    exists u :: u in s.pc && s.pc[u].held.writeLocks > 0
  }

  ghost predicate ReadHeld(s: State) {
    exists u :: u in s.pc && s.pc[u].held.readLocks > 0
  }

  /** Some writer has asked in vain and has not been let in yet. */
  ghost predicate WriterWaits(s: State) {
    exists u :: u in s.pc && WaitingWriter(s.pc[u])
  }

  lemma CountersMean(s: State)
    requires Accounts(s)
    ensures s.writer <==> WriteHeld(s)
    ensures s.readers > 0 <==> ReadHeld(s)
    ensures s.waiting > 0 <==> WriterWaits(s)
    ensures s.readers >= 0 && s.waiting >= 0
  {
    SumZero(s.pc, Reads);
    SumZero(s.pc, Writes);
    CountZero(s.pc, WaitingWriter);
    assert forall u :: u in s.pc ==> Reads(s.pc[u]) == s.pc[u].held.readLocks && Writes(s.pc[u]) == s.pc[u].held.writeLocks;
  }

  /** A reader is let in exactly when no thread holds the lock for writing and no writer
      waits; otherwise it sleeps, or if it only tried it leaves with what it had. */
  lemma ReadAnswers(s: State, t: Tid, s': State)
    requires Inv(s) && Step(s, t, Body, s') && (s.pc[t].call == Read || s.pc[t].call == TryRead)
    ensures t in s'.pc
    ensures var (call, h, p) := (s.pc[t].call, s.pc[t].held, s'.pc[t]);
            && (p == Leave(Held(h.readLocks + 1, h.writeLocks)) <==> !WriteHeld(s) && !WriterWaits(s))
            && (p == Asleep(false, h) <==> call == Read && (WriteHeld(s) || WriterWaits(s)))
            && (p == Leave(h) <==> call == TryRead && (WriteHeld(s) || WriterWaits(s)))
  {
    CountersMean(s);
    hide Inv, WriteHeld, ReadHeld, WriterWaits;
  }

  /** A writer is let in exactly when no thread holds the lock at all; otherwise it
      sleeps, counted as waiting, or if it only tried it leaves with what it had. */
  lemma WriteAnswers(s: State, t: Tid, s': State)
    requires Inv(s) && Step(s, t, Body, s') && (s.pc[t].call == Write || s.pc[t].call == TryWrite)
    ensures t in s'.pc
    ensures var (call, h, p) := (s.pc[t].call, s.pc[t].held, s'.pc[t]);
            && (p == Leave(Held(h.readLocks, h.writeLocks + 1)) <==> !WriteHeld(s) && !ReadHeld(s))
            && (p == Asleep(true, h) <==> call == Write && (WriteHeld(s) || ReadHeld(s)))
            && (p == Leave(h) <==> call == TryWrite && (WriteHeld(s) || ReadHeld(s)))
  {
    CountersMean(s);
    hide Inv, WriteHeld, ReadHeld, WriterWaits;
  }

  /** An unlock undoes one lock of the caller's, the write lock if it has that. Then one
      writer is signalled exactly if some writer waits and nobody holds the lock any
      more, and the readers are all called exactly if no writer waits. */
  lemma UnlockAnswers(s: State, t: Tid, s': State)
    requires Inv(s) && Step(s, t, Body, s') && s.pc[t].call == Unlock
    ensures t in s'.pc
    ensures var (h, p) := (s.pc[t].held, s'.pc[t]);
            && p.held == UnlockOne(h) != h
            && !WriteHeld(s')
            && (p == Notify(false, p.held) <==> WriterWaits(s) && !ReadHeld(s'))
            && (p == Notify(true, p.held) <==> !WriterWaits(s))
            && (p == Leave(p.held) <==> WriterWaits(s) && ReadHeld(s'))
  {
    StepKeepsInv(s, t, Body, s');
    CountersMean(s);
    CountersMean(s');
    assert Known(s, t) && FitsIn(s, t);
    HolderMeans(s, t);
    hide Accounts, AllFit, Parts, SameThreads, ReadersHaveReason, WritersHaveReason, CondWord.NoFreshWaiter;
  }

  function UnlockOne(h: Held): Held {
    if h.writeLocks > 0 then Held(h.readLocks, h.writeLocks - 1)
    else Held(if h.readLocks > 0 then h.readLocks - 1 else 0, 0)
  }

  lemma HolderMeans(s: State, t: Tid)
    requires Accounts(s) && t in s.pc && Holds(s.pc[t])
    ensures s.writer <==> s.pc[t].held.writeLocks > 0
    ensures s.writer ==> s.pc[t].held == Held(0, 1)
    ensures !s.writer ==> s.pc[t].held.writeLocks == 0 && s.readers > 0
  {
    SumTwo(s.pc, t, t, Reads);
    SumTwo(s.pc, t, t, Writes);
    assert Reads(s.pc[t]) == s.pc[t].held.readLocks && Writes(s.pc[t]) == s.pc[t].held.writeLocks;
  }

  /** What the caller may hold after a call begun with `h`. */
  predicate Delivered(call: Call, h: Held, after: Held) {
    match call
    case Read => after == Held(h.readLocks + 1, h.writeLocks)
    case Write => after == Held(h.readLocks, h.writeLocks + 1)
    case TryRead => after == h || after == Held(h.readLocks + 1, h.writeLocks)
    case TryWrite => after == h || after == Held(h.readLocks, h.writeLocks + 1)
    case Unlock => after == UnlockOne(h) != h
  }

  /** Inside a call begun with `h`: only a read or a write may sleep. */
  predicate During(p: Pc, call: Call, h: Held) {
    match p
    case Rest(_) => false
    case Enter(c, _, g) => c == call && g == h
    case Asleep(writer, g) => call == (if writer then Write else Read) && g == h
    case Notify(_, g) => call == Unlock && Delivered(call, h, g)
    case Leave(g) => Delivered(call, h, g)
  }

  lemma CallGoesOnSelf(s: State, t: Tid, e: Event, s': State, call: Call, h: Held)
    requires Inv(s) && Step(s, t, e, s') && During(s.pc[t], call, h)
    ensures t in s'.pc && (During(s'.pc[t], call, h) || (s'.pc[t].Rest? && Delivered(call, h, s'.pc[t].held)))
  {
    if e.Body? {
      hide Inv, Step;
      BodyDelivers(s, t, s', call, h);
    } else {
      hide Inv;
    }
  }

  lemma BodyDelivers(s: State, t: Tid, s': State, call: Call, h: Held)
    requires Inv(s) && Step(s, t, Body, s') && During(s.pc[t], call, h)
    ensures t in s'.pc && During(s'.pc[t], call, h)
  {
    assert s.pc[t].Enter?;
    hide Inv, Step, WriteHeld, ReadHeld, WriterWaits;
    match call {
      case Read => ReadAnswers(s, t, s');
      case TryRead => ReadAnswers(s, t, s');
      case Write => WriteAnswers(s, t, s');
      case TryWrite => WriteAnswers(s, t, s');
      case Unlock => UnlockAnswers(s, t, s');
    }
  }

  lemma CallNext(s: State, s': State, t: Tid, call: Call, h: Held)
    requires Inv(s) && Next(s, s') && t in s.pc && During(s.pc[t], call, h)
    ensures t in s'.pc && (During(s'.pc[t], call, h) || (s'.pc[t].Rest? && Delivered(call, h, s'.pc[t].held)))
  {
    hide Inv, Step;
    var u, e :| Step(s, u, e, s');
    StepFrame(s, u, e, s');
    if u == t {
      CallGoesOnSelf(s, t, e, s', call, h);
    }
  }

  lemma CallStarts(s: State, t: Tid, call: Call, s': State)
    requires Step(s, t, Start(call), s')
    ensures t in s.pc && t in s'.pc && During(s'.pc[t], call, s.pc[t].held)
  {
  }

  /** Main result: over a whole run, a read or a write that returns has brought exactly
      one lock more, however often it slept; a try brings one or none and never sleeps;
      an unlock undoes exactly one. */
  lemma {:induction false} CallsDeliver(run: seq<State>, i: nat, k: nat, t: Tid, call: Call)
    requires IsRun(Init, Next, run) && i < k < |run| && Step(run[i], t, Start(call), run[i + 1])
    requires forall j :: i < j < k ==> t in run[j].pc && !run[j].pc[t].Rest?
    ensures t in run[k].pc
    ensures var h := run[i].pc[t].held;
            During(run[k].pc[t], call, h) || (run[k].pc[t].Rest? && Delivered(call, h, run[k].pc[t].held))
    decreases k
  {
    hide Inv, Init, Next, Step, During;
    CallStarts(run[i], t, call, run[i + 1]);
    if i + 1 < k {
      CallsDeliver(run, i, k - 1, t, call);
      assert Next(run[k - 1], run[k - 1 + 1]);
      RunsAreSafe(run, k - 1);
      CallNext(run[k - 1], run[k], t, call, run[i].pc[t].held);
    }
  }

  // ---- Writers are not starved by readers ----

  /** While a writer waits the reader count does not grow, and the only way for
      the number of waiting writers to shrink is for a writer to enter. */
  lemma StepPrefersWriters(s: State, t: Tid, e: Event, s': State)
    requires Inv(s) && Step(s, t, e, s') && s.waiting > 0
    ensures s'.readers <= s.readers
    ensures s'.waiting < s.waiting ==> s'.writer && !s.writer
  {
    if !e.Body? {
      StepKeepsCounters(s, t, e, s');
    }
  }

  lemma NextPrefersWriters(s: State, s': State)
    requires Inv(s) && Next(s, s') && s.waiting > 0
    ensures s'.readers <= s.readers
  {
    var t, e :| Step(s, t, e, s');
    StepPrefersWriters(s, t, e, s');
  }

  /** Over any stretch of a run during which a writer waits, readers only leave. */
  lemma WaitingWriterStopsReaders(run: seq<State>, i: nat, k: nat)
    requires IsRun(Init, Next, run) && i <= k < |run|
    requires forall j :: i <= j < k ==> run[j].waiting > 0
    ensures run[k].readers <= run[i].readers
  {
    var during := (s: State) => s.waiting > 0;
    var rel := (a: State, b: State) => b.readers <= a.readers;
    forall s | Init(s) ensures Inv(s) {
      InitialInv(s);
    }
    forall s, s' | Inv(s) && Next(s, s') ensures Inv(s') && (during(s) ==> rel(s, s')) {
      NextKeepsInv(s, s');
      if during(s) {
        NextPrefersWriters(s, s');
      }
    }
    RelationHolds(Init, Next, Inv, during, rel, run, i, k);
  }

  // ---- Nobody is stranded ----

  /** Nothing will happen to this thread by itself: it is outside every call, or
      asleep in the kernel, on the mutex or on a condition variable. */
  ghost predicate AtRest(s: State, t: Tid)
    requires Known(s, t)
  {
    || s.pc[t].Rest?
    || s.word.pc[t] == LockWord.Parked
    || s.readable.pc[t].Parked? || s.writable.pc[t].Parked?
  }

  ghost predicate AllAtRest(s: State) {
    forall u :: Known(s, u) ==> AtRest(s, u)
  }

  /** A thread asleep anywhere inside a call while every thread is at rest: some
      thread holds the lock, and its unlock is what they all wait for. */
  lemma SleepersWaitForHolder(s: State, t: Tid)
    requires Inv(s) && AllAtRest(s) && t in s.pc && !s.pc[t].Rest?
    ensures exists h :: h in s.pc && Holds(s.pc[h]) && (s.pc[h].Rest? || s.pc[h].Asleep?)
  {
    forall u | u in s.word.pc ensures s.word.pc[u] == LockWord.Idle {
      NobodyOnMutex(s, u);
    }
    assert Known(s, t) && FitsIn(s, t);
    NotNotifyingAtRest(s);
    if s.waiting > 0 {
      CountZero(s.pc, WaitingWriter);
      var w :| w in s.pc && WaitingWriter(s.pc[w]);
      assert Known(s, w) && FitsIn(s, w) && CondWord.Dozing(s.writable, w);
    }
    assert s.writer || s.readers > 0;
    HolderAtRest(s);
  }

  lemma NobodyOnMutex(s: State, u: Tid)
    requires Inv(s) && AllAtRest(s) && u in s.word.pc
    ensures s.word.pc[u] == LockWord.Idle
  {
    forall v | v in s.word.pc ensures s.word.pc[v] == LockWord.Idle || s.word.pc[v] == LockWord.Parked {
      assert Known(s, v) && FitsIn(s, v);
    }
    if s.word.pc[u] == LockWord.Parked {
      LockWord.SleeperHasOwner(s.word, u);
    }
  }

  lemma NotNotifyingAtRest(s: State)
    requires Inv(s) && AllAtRest(s)
    ensures !Notifying(s, true) && !Notifying(s, false) && !SomeAlert(s)
  {
    forall u | u in s.pc ensures !s.pc[u].Notify? && !Alert(s, u) {
      assert Known(s, u) && FitsIn(s, u);
      NobodyOnMutex(s, u);
    }
  }

  lemma HolderAtRest(s: State)
    requires Inv(s) && AllAtRest(s) && (s.writer || s.readers > 0)
    ensures exists h :: h in s.pc && Holds(s.pc[h]) && (s.pc[h].Rest? || s.pc[h].Asleep?)
  {
    SumZero(s.pc, Reads);
    SumZero(s.pc, Writes);
    var h :| h in s.pc && Holds(s.pc[h]);
    assert Known(s, h) && FitsIn(s, h);
    NobodyOnMutex(s, h);
  }

  /** A step a thread takes by itself: not a new call, and not a spurious return
      of the kernel. */
  predicate OwnMove(e: Event) {
    match e
    case Start(_) => false
    case Mutex(we) => !we.Spurious?
    case Doze(ce) => !ce.Spurious?
    case _ => true
  }

  lemma UnlockMoves(s: State, t: Tid) returns (e: Event, s': State)
    requires Known(s, t) && FitsIn(s, t) && LockWord.Releasing(s.word.pc[t]) && s.word.pc[t] != LockWord.Idle
    requires s.pc[t].Leave? || (s.pc[t].Asleep? && CondOf(s, s.pc[t].writer).pc[t].Ready?)
    ensures Step(s, t, e, s') && OwnMove(e)
  {
    if s.word.pc[t] == LockWord.Held {
      var w := LockWord.Move(s.word, LockWord.Decremented(s.word.word), t,
                             if s.word.word != 1 then LockWord.Clear else LockWord.Idle);
      e, s' := Mutex(LockWord.Subtract), s.(word := w);
    } else {
      var we, w := LockWord.Moves(s.word, t);
      e, s' := Mutex(we), s.(word := w);
    }
  }

  lemma NotifierMoves(s: State, t: Tid) returns (e: Event, s': State)
    requires Known(s, t) && FitsIn(s, t) && s.pc[t].Notify?
    ensures Step(s, t, e, s') && OwnMove(e)
  {
    var r := s.pc[t].readers;
    var c := CondOf(s, !r);
    if c.pc[t] == CondWord.Idle {
      var c' := c.(counter := c.counter + 1, pc := c.pc[t := CondWord.Owes(r, c.counter + 1)]);
      e, s' := Ring(CondWord.Publish(r)), Goto(WithCond(s, !r, c'), t, s.pc[t]);
    } else {
      var ce, c' := CondWord.Delivers(c, t);
      e, s' := Ring(ce), Goto(WithCond(s, !r, c'), t, Leave(s.pc[t].held));
    }
  }

  lemma SleeperMoves(s: State, t: Tid) returns (e: Event, s': State)
    requires Known(s, t) && FitsIn(s, t) && s.pc[t].Asleep? && !CondOf(s, s.pc[t].writer).pc[t].Parked?
    ensures Step(s, t, e, s') && OwnMove(e)
  {
    var w := s.pc[t].writer;
    var c := CondOf(s, w);
    if s.word.pc[t] != LockWord.Idle {
      e, s' := UnlockMoves(s, t);
    } else if c.pc[t].Ready? {
      var p := if c.pc[t].seen == c.counter then CondWord.Parked(c.counter, None)
               else CondWord.Back(CondWord.Changed);
      e, s' := Doze(CondWord.Wait(0, 0)), WithCond(s, w, CondWord.Move(c, t, p));
    } else {
      e := Relock;
      s' := WithCond(Goto(s, t, Enter(if w then Write else Read, true, s.pc[t].held)), w, CondWord.Move(c, t, CondWord.Idle))
            .(word := LockWord.Move(s.word, s.word.word, t, LockWord.Try));
    }
  }

  /** Every thread that is not at rest can move by itself. */
  lemma AwakeMoves(s: State, t: Tid) returns (e: Event, s': State)
    requires Known(s, t) && FitsIn(s, t) && !AtRest(s, t)
    ensures Step(s, t, e, s') && OwnMove(e)
  {
    match s.pc[t] {
      case Enter(call, again, h) =>
        if s.word.pc[t] == LockWord.Held {
          e, s' := Body, BodyResult(s, t, call, again, h);
        } else {
          var we, w := LockWord.Moves(s.word, t);
          e, s' := Mutex(we), s.(word := w);
        }
      case Asleep(_, _) => e, s' := SleeperMoves(s, t);
      case Notify(_, _) => e, s' := NotifierMoves(s, t);
      case Leave(h) =>
        if s.word.pc[t] == LockWord.Idle {
          e, s' := Finish, Goto(s, t, Rest(h));
        } else {
          e, s' := UnlockMoves(s, t);
        }
    }
  }

  /** Nothing can happen any more except new calls: somebody is inside a call, and no
      thread can move by itself. */
  ghost predicate Stuck(s: State) {
    && (exists t :: t in s.pc && !s.pc[t].Rest?)
    && !exists u, e, s' :: Step(s, u, e, s') && OwnMove(e)
  }

  lemma StuckIsAtRest(s: State)
    requires Inv(s) && Stuck(s)
    ensures AllAtRest(s)
  {
    forall u | Known(s, u) ensures AtRest(s, u) {
      if !AtRest(s, u) {
        var e, s' := AwakeMoves(s, u);
      }
    }
  }

  /** Main result: the lock never deadlocks by itself. When nobody can move although
      somebody is inside a call, some thread holds the lock; and unless a holder has
      itself gone to sleep inside a call, one is outside every call and free to unlock. */
  lemma NeverStuck(s: State)
    requires Inv(s) && Stuck(s)
    ensures exists h :: h in s.pc && Holds(s.pc[h])
    ensures (forall u :: u in s.pc && s.pc[u].Asleep? ==> !Holds(s.pc[u])) ==>
              exists h :: h in s.pc && Holds(s.pc[h]) && s.pc[h].Rest?
  {
    StuckIsAtRest(s);
    var t :| t in s.pc && !s.pc[t].Rest?;
    SleepersWaitForHolder(s, t);
  }

  // ---- Holders that ask again ----

  /** A holder asks for the lock again in a way that has to wait for an unlock of its own:
      for writing, or for reading while it writes or while a writer waits. */
  predicate AsksInVain(s: State, t: Tid)
    requires t in s.pc
  {
    && s.pc[t].Enter? && Holds(s.pc[t])
    && (s.pc[t].call == Write || (s.pc[t].call == Read && (Writes(s.pc[t]) > 0 || s.waiting > 0)))
  }

  /** That, and nothing else, puts a holder to sleep. */
  lemma HolderSleepsExactly(s: State, t: Tid, s': State)
    requires Inv(s) && Step(s, t, Body, s') && Holds(s.pc[t])
    ensures t in s'.pc && (s'.pc[t].Asleep? <==> AsksInVain(s, t))
  {
    SumTwo(s.pc, t, t, Reads);
    SumTwo(s.pc, t, t, Writes);
    if s.writer && s.pc[t].call == Read {
      assert s.readers == 0;
    }
  }

  ghost predicate NoHolderSleeps(s: State) {
    forall u :: u in s.pc && s.pc[u].Asleep? ==> !Holds(s.pc[u])
  }

  /** In this step some holder finds itself asking in vain. */
  ghost predicate VainStep(s: State, s': State) {
    exists t :: Step(s, t, Body, s') && AsksInVain(s, t)
  }

  lemma PoliteStep(s: State, s': State)
    requires Inv(s) && NoHolderSleeps(s) && Next(s, s') && !VainStep(s, s')
    ensures NoHolderSleeps(s')
  {
    var t, e :| Step(s, t, e, s');
    StepFrame(s, t, e, s');
    if e.Body? {
      BodyShares(s, t, s');
      if Holds(s.pc[t]) {
        HolderSleepsExactly(s, t, s');
      }
    } else {
      StepHoldsStill(s, t, e, s');
      OnlyBodySleeps(s, t, e, s');
    }
  }

  lemma OnlyBodySleeps(s: State, t: Tid, e: Event, s': State)
    requires Step(s, t, e, s') && !e.Body?
    ensures t in s'.pc && (s'.pc[t].Asleep? ==> s.pc[t].Asleep?)
  {
  }

  lemma BodyShares(s: State, t: Tid, s': State)
    requires Step(s, t, Body, s')
    ensures t in s'.pc && (s'.pc[t].Asleep? ==> s'.pc[t].held == s.pc[t].held)
  {
  }

  lemma {:induction false} PoliteRun(run: seq<State>, k: nat)
    requires IsRun(Init, Next, run) && k < |run|
    requires forall j :: 0 <= j < k ==> !VainStep(run[j], run[j + 1])
    ensures NoHolderSleeps(run[k])
  {
    if k > 0 {
      PoliteRun(run, k - 1);
      RunsAreSafe(run, k - 1);
      assert Next(run[k - 1], run[k - 1 + 1]) && !VainStep(run[k - 1], run[k - 1 + 1]);
      PoliteStep(run[k - 1], run[k]);
    }
  }

  /** Main result: as long as no holder has asked in vain, whenever nobody can move
      although somebody is inside a call, a thread outside every call holds the lock. */
  lemma PoliteRunsProgress(run: seq<State>, k: nat)
    requires IsRun(Init, Next, run) && k < |run| && Stuck(run[k])
    requires forall j :: 0 <= j < k ==> !VainStep(run[j], run[j + 1])
    ensures exists h :: h in run[k].pc && Holds(run[k].pc[h]) && run[k].pc[h].Rest?
  {
    RunsAreSafe(run, k);
    PoliteRun(run, k);
    NeverStuck(run[k]);
  }

  /** A holder is inside a call that waits for an unlock of its own. */
  predicate InVain(s: State, p: Tid) {
    && p in s.pc && Holds(s.pc[p])
    && match s.pc[p]
       case Enter(Write, _, _) => true
       case Asleep(true, _) => true
       case Enter(Read, _, h) => h.writeLocks > 0 || s.waiting > 0
       case Asleep(false, h) => h.writeLocks > 0 || s.waiting > 0
       case _ => false
  }

  lemma VainSelf(s: State, p: Tid, e: Event, s': State)
    requires Inv(s) && InVain(s, p) && Step(s, p, e, s')
    ensures InVain(s', p)
  {
    assert FitsIn(s, p);
    if e.Body? {
      HolderSleepsExactly(s, p, s');
      BodyShares(s, p, s');
      StepPrefersWaiting(s, p, s');
    } else {
      StepKeepsCounters(s, p, e, s');
    }
  }

  /** What a body that goes to sleep waits on; no waiting writer is forgotten by it. */
  lemma StepPrefersWaiting(s: State, t: Tid, s': State)
    requires Step(s, t, Body, s')
    ensures t in s'.pc && (s'.pc[t].Asleep? ==> s'.waiting >= s.waiting && (s'.pc[t].writer <==> s.pc[t].call == Write))
  {
  }

  lemma VainOther(s: State, t: Tid, e: Event, s': State, p: Tid)
    requires Inv(s) && Inv(s') && InVain(s, p) && Step(s, t, e, s') && t != p
    ensures InVain(s', p)
  {
    StepFrame(s, t, e, s');
    if s.waiting > 0 && s'.waiting < s.waiting {
      StepPrefersWriters(s, t, e, s');
      SumTwo(s'.pc, p, p, Reads);
      SumTwo(s.pc, p, p, Writes);
    }
  }

  lemma VainNext(s: State, s': State, p: Tid)
    requires Inv(s) && Inv(s') && InVain(s, p) && Next(s, s')
    ensures InVain(s', p)
  {
    hide Inv, InVain, Step;
    var t, e :| Step(s, t, e, s');
    if t == p {
      VainSelf(s, p, e, s');
    } else {
      VainOther(s, t, e, s', p);
    }
  }

  lemma {:induction false} VainForGood(run: seq<State>, i: nat, k: nat, p: Tid)
    requires IsRun(Init, Next, run) && i <= k < |run| && InVain(run[i], p)
    ensures InVain(run[k], p)
    decreases k
  {
    hide Inv, InVain, Next, Init;
    if i < k {
      VainForGood(run, i, k - 1, p);
      assert Next(run[k - 1], run[k - 1 + 1]);
      RunsAreSafe(run, k - 1);
      RunsAreSafe(run, k);
      VainNext(run[k - 1], run[k], p);
    }
  }

  /** Main result, the converse: a holder that has asked in vain never leaves its call
      again, whatever anybody does in any continuation of the run. */
  lemma AskedInVainForever(run: seq<State>, i: nat, k: nat, p: Tid)
    requires IsRun(Init, Next, run) && i <= k < |run| && p in run[i].pc && AsksInVain(run[i], p)
    ensures p in run[k].pc && Holds(run[k].pc[p]) && (run[k].pc[p].Enter? || run[k].pc[p].Asleep?)
  {
    VainForGood(run, i, k, p);
  }

  // ---- A nested read lock that never ends ----

  /** The thread's place, its place on the mutex and the mutex itself changed. */
  function Put(s: State, t: Tid, p: Pc, word: nat, w: LockWord.Pc): State {
    s.(pc := s.pc[t := p], word := LockWord.Move(s.word, word, t, w))
  }

  /** A call on a free mutex, step by step, up to its return or its sleep. */
  function Stage(s: State, t: Tid, call: Call, i: nat): State
    requires i <= 5 && t in s.pc && t in s.readable.pc && t in s.writable.pc
  {
    var enter := Enter(call, false, s.pc[t].held);
    var locked := Put(s, t, enter, 1, LockWord.Held);
    var decided := BodyResult(locked, t, call, false, s.pc[t].held);
    var freed := Put(decided, t, decided.pc[t], 0, LockWord.Idle);
    if i == 0 then s
    else if i == 1 then Put(s, t, enter, 0, LockWord.Try)
    else if i == 2 then locked
    else if i == 3 then decided
    else if i == 4 then freed
    else if freed.pc[t].Asleep? then
      var c := CondOf(freed, freed.pc[t].writer);
      WithCond(freed, freed.pc[t].writer, CondWord.Move(c, t, CondWord.Parked(c.counter, None)))
    else Goto(freed, t, Rest(freed.pc[t].held))
  }

  /** At rest, with the mutex free. */
  ghost predicate Free(s: State, t: Tid) {
    && Known(s, t) && s.pc[t].Rest? && s.word.word == 0 && s.word.pc[t] == LockWord.Idle
    && s.readable.pc[t] == CondWord.Idle && s.writable.pc[t] == CondWord.Idle
  }

  lemma StageEnters(s: State, t: Tid, call: Call)
    requires Free(s, t) && (call == Read || call == Write)
    ensures Step(Stage(s, t, call, 0), t, Start(call), Stage(s, t, call, 1))
    ensures Step(Stage(s, t, call, 1), t, Mutex(LockWord.Cas), Stage(s, t, call, 2))
  {
  }

  lemma StageDecides(s: State, t: Tid, call: Call)
    requires Free(s, t) && (call == Read || call == Write)
    ensures Step(Stage(s, t, call, 2), t, Body, Stage(s, t, call, 3))
    ensures Step(Stage(s, t, call, 3), t, Mutex(LockWord.Subtract), Stage(s, t, call, 4))
  {
  }

  lemma StageSettles(s: State, t: Tid, call: Call)
    requires Free(s, t) && (call == Read || call == Write)
    ensures Step(Stage(s, t, call, 4), t, Doze(CondWord.Wait(0, 0)), Stage(s, t, call, 5))
         || Step(Stage(s, t, call, 4), t, Finish, Stage(s, t, call, 5))
  {
  }

  lemma StageFollows(s: State, t: Tid, call: Call, i: nat)
    requires Free(s, t) && i < 5 && (call == Read || call == Write)
    ensures Next(Stage(s, t, call, i), Stage(s, t, call, i + 1))
  {
    hide Stage, Step;
    if i < 2 {
      StageEnters(s, t, call);
    } else if i < 4 {
      StageDecides(s, t, call);
    } else {
      StageSettles(s, t, call);
    }
  }

  function Stages(s: State, t: Tid, call: Call): (run: seq<State>)
    requires t in s.pc && t in s.readable.pc && t in s.writable.pc
    ensures |run| == 6
  {
    seq(6, i requires 0 <= i < 6 => Stage(s, t, call, i))
  }

  /** A run goes on with a whole call. */
  lemma CallExtends(run: seq<State>, t: Tid, call: Call) returns (longer: seq<State>)
    requires IsRun(Init, Next, run) && Free(run[|run| - 1], t) && (call == Read || call == Write)
    ensures IsRun(Init, Next, longer) && longer[|longer| - 1] == Stage(run[|run| - 1], t, call, 5)
  {
    hide Next, Init, Stage;
    var s := run[|run| - 1];
    longer := run + Stages(s, t, call)[1..];
    forall i | 0 <= i < |longer| - 1 ensures Next(longer[i], longer[i + 1]) {
      if i < |run| - 1 {
        assert Next(run[i], run[i + 1]);
      } else {
        StageFollows(s, t, call, i - (|run| - 1));
        StageStarts(s, t, call);
      }
    }
  }

  lemma StageStarts(s: State, t: Tid, call: Call)
    requires Free(s, t)
    ensures Stage(s, t, call, 0) == s
  {
  }

  lemma RestCannotMove(s: State, u: Tid, e: Event, s': State)
    requires Step(s, u, e, s') && FitsIn(s, u) && AtRest(s, u)
    ensures !OwnMove(e)
  {
  }

  /** What a reader, a waiting writer and the reader once more leave. */
  lemma Deadlocked(s: State, p: Tid, q: Tid)
    requires Init(s) && p in s.pc && q in s.pc && p != q
    ensures var a := Stage(s, p, Read, 5);
            && Free(s, p) && Free(a, q)
            && var b := Stage(a, q, Write, 5);
               && Free(b, p)
               && var c := Stage(b, p, Read, 5);
                  c.pc == s.pc[p := Asleep(false, Held(1, 0))][q := Asleep(true, NOTHING)] && AllAtRest(c)
  {
  }

  /** When every thread is at rest and somebody is inside a call, nobody can move. */
  lemma AtRestIsStuck(s: State, t: Tid)
    requires Inv(s) && AllAtRest(s) && t in s.pc && !s.pc[t].Rest?
    ensures Stuck(s)
  {
    forall u, e, s' | Step(s, u, e, s') ensures !OwnMove(e) {
      assert FitsIn(s, u) && AtRest(s, u);
      RestCannotMove(s, u, e, s');
    }
  }

  ghost predicate OnlyHolder(s: State, p: Tid) {
    forall h :: h in s.pc && Holds(s.pc[h]) ==> h == p
  }

  lemma StartRun(s: State)
    requires Init(s)
    ensures IsRun(Init, Next, [s]) && s.pc.Keys == s.readable.pc.Keys == s.writable.pc.Keys
  {
  }

  /** A read lock taken again while a writer waits: the reader waits for the writer, the
      writer for the reader, and nobody else holds the lock. */
  lemma NestedReadDeadlocks(s: State, p: Tid, q: Tid) returns (run: seq<State>)
    requires Init(s) && p in s.pc && q in s.pc && p != q
    ensures IsRun(Init, Next, run)
    ensures var last := run[|run| - 1]; Stuck(last) && OnlyHolder(last, p) && p in last.pc && last.pc[p].Asleep?
  {
    hide Stage, Next, AllAtRest, Inv;
    StartRun(s);
    Deadlocked(s, p, q);
    run := [s];
    run := CallExtends(run, p, Read);
    run := CallExtends(run, q, Write);
    run := CallExtends(run, p, Read);
    RunsAreSafe(run, |run| - 1);
    AtRestIsStuck(run[|run| - 1], p);
  }
}
