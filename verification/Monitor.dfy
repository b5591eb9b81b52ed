/** Mutexes of the three types with their owner and count fields, and one
    condition variable waited for with them, over the lock word and the signal
    counter. Every access to a shared field is one step; the fields `owner` and
    `count` are read by threads that do not hold the mutex, so nothing is merged. */
module Monitor {
  import opened Counting
  import opened Runs
  import LockWord
  import CondWord
  import opened Deadline
  import opened Options

  type Tid = nat

  datatype Kind = Normal | Recursive | ErrorCheck

  /** What a call returned. A timeout remembers its deadline. */
  datatype Result = Fresh | Ok | Deadlock | Busy | NotOwner | Invalid | TimedOut(deadline: Timespec)

  /** What `cond_wait` keeps in its locals. */
  datatype Wait = Wait(depth: nat, deadline: Option<Timespec>, timeout: nat, answer: Option<CondWord.Answer>)

  /** Where a thread is. `Option<Wait>` tells whether the mutex is given up or
      taken on behalf of a condition wait. */
  datatype Pc =
    | Idle(last: Result)                                       // outside every call
    | LockTest                                                 // lock: about to test the owner
    | Locking(wait: Option<Wait>)                              // inside `word_lock`
    | SetOwner(wait: Option<Wait>)                             // owns the word, about to store the owner
    | SetCount(wait: Option<Wait>)                             // about to store the count
    | Verdict(done: Wait)                                      // wait: about to decide what to return
    | TryTest | TryCas                                         // trylock
    | UnlockTest                                               // unlock: about to test owner and count
    | ClearOwner(wait: Option<Wait>)
    | ClearCount(wait: Option<Wait>)
    | Release(wait: Option<Wait>)                              // inside `word_unlock`
    | WaitRead(deadline: Option<Timespec>)                     // wait: about to read the counter
    | WaitMeasure(deadline: Option<Timespec>, depth: nat)      // about to compute the timeout
    | Blocked(sleep: Wait)                                     // asleep or about to be
    | Signal(all: bool)                                        // about to increment the counter
    | Wake(all: bool, waiters: set<Tid>)                       // about to wake; `waiters` is history

  /** `depth` is history: how many times the caller has locked and not unlocked. */
  datatype Thread = Thread(pc: Pc, depth: nat)

  datatype State = State(
    kind: Kind,
    word: LockWord.State,
    cond: CondWord.State,
    owner: Option<Tid>,
    count: nat,
    now: nat,
    thread: map<Tid, Thread>)

  datatype Call =
    | Lock | TryLock | Unlock
    | CondWait | CondTimedWait(deadline: Timespec)
    | CondSignal | CondBroadcast

  datatype Event =
    | Start(call: Call)
    | Local                            // the next access to an own or shared plain field
    | Word(word: LockWord.Event)       // a step inside the lock word
    | Cond(cond: CondWord.Event)       // a step at the signal counter
    | Relock                           // the sleep is over: take the word again
    | Tick(now: nat)                   // time passes

  ghost predicate Known(s: State, t: Tid) {
    t in s.thread && t in s.word.pc && t in s.cond.pc
  }

  ghost predicate Init(s: State) {
    && LockWord.Init(s.word) && CondWord.Init(s.cond)
    && s.owner == None && s.count == 0
    && s.word.pc.Keys == s.cond.pc.Keys == s.thread.Keys
    && forall t :: t in s.thread ==> s.thread[t] == Thread(Idle(Fresh), 0)
  }

  function Goto(s: State, t: Tid, p: Pc): State
    requires t in s.thread
  {
    s.(thread := s.thread[t := s.thread[t].(pc := p)])
  }

  function Return(s: State, t: Tid, r: Result, depth: nat): State {
    s.(thread := s.thread[t := Thread(Idle(r), depth)])
  }

  /** What POSIX asks of callers: waiting needs the mutex; a normal mutex is not
      locked again by its holder nor unlocked by anybody else. */
  predicate MayStart(kind: Kind, depth: nat, call: Call) {
    match call
    case Lock => kind == Normal ==> depth == 0
    case Unlock => kind == Normal ==> depth > 0
    case CondWait => depth > 0
    case CondTimedWait(_) => depth > 0
    case _ => true
  }

  function StartPc(call: Call): Pc {
    match call
    case Lock => LockTest
    case TryLock => TryTest
    case Unlock => UnlockTest
    case CondWait => WaitRead(None)
    case CondTimedWait(deadline) => if WellFormed(deadline) then WaitRead(Some(deadline)) else Idle(Invalid)
    case CondSignal => Signal(false)
    case CondBroadcast => Signal(true)
  }

  function Expired(now: nat, w: Wait): bool {
    w.deadline.Some? && (w.answer == Some(CondWord.TimedOut) || MillisUntil(Reads(ClockAt(now)), w.deadline.value) == 0)
  }

  /** The tally after one unlock. */
  function OneLess(depth: nat): nat {
    if depth > 0 then depth - 1 else 0
  }

  /** The steps on plain fields. */
  ghost predicate LocalStep(s: State, t: Tid, s': State)
    requires Known(s, t)
  {
    var d := s.thread[t].depth;
    match s.thread[t].pc
    case TryTest =>
      if s.kind == Recursive && s.owner == Some(t) then s' == Return(s, t, Ok, d + 1).(count := s.count + 1)
      else s' == Goto(s, t, TryCas)
    case TryCas => s.word.word != 0 && s' == Return(s, t, Busy, d)
    case SetOwner(w) => s' == Goto(s, t, SetCount(w)).(owner := Some(t))
    case SetCount(w) =>
      if w.None? then s' == Return(s, t, Ok, d + 1).(count := 1)
      else s' == Goto(s, t, Verdict(w.value)).(count := w.value.depth)
    case Verdict(w) =>
      s' == Return(s, t, if Expired(s.now, w) then TimedOut(w.deadline.value) else Ok, d)
    case UnlockTest =>
      if s.kind != Normal && s.owner != Some(t) then s' == Return(s, t, NotOwner, d)
      else if s.kind == Recursive && s.count > 1 then s' == Return(s, t, Ok, OneLess(d)).(count := s.count - 1)
      else s' == s.(thread := s.thread[t := Thread(ClearOwner(None), OneLess(d))],
                    count := if s.kind == Recursive && 0 < s.count then s.count - 1 else s.count)
    case ClearOwner(w) => s' == Goto(s, t, ClearCount(w)).(owner := None)
    case ClearCount(w) => s' == Goto(s, t, Release(w)).(count := 0)
    case Release(None) => s.word.pc[t] == LockWord.Idle && s' == Return(s, t, Ok, d)
    case Release(Some(w)) => s.word.pc[t] == LockWord.Idle && s' == Goto(s, t, Blocked(w))
    case _ => false
  }

  /** The steps that move the lock word. */
  ghost predicate WordStep(s: State, t: Tid, we: LockWord.Event, s': State)
    requires Known(s, t)
  {
    && LockWord.Step(s.word, t, we, s'.word)
    && match s.thread[t].pc
       case LockTest =>
         // Not a relock of an owned recursive or checking mutex: go for the word.
         && we.Begin? && !(s.owner == Some(t) && s.kind != Normal)
         && s' == Goto(s, t, Locking(None)).(word := s'.word)
       case Locking(w) =>
         && (we.Cas? || we.Exchange? || we.Wait? || we.Spurious?)
         && s' == Goto(s, t, if s'.word.pc[t] == LockWord.Held then SetOwner(w) else Locking(w)).(word := s'.word)
       case TryCas => we.TryOnce? && s.word.word == 0 && s' == Goto(s, t, SetOwner(None)).(word := s'.word)
       case Release(w) =>
         && (we.Subtract? || we.Store? || we.WakeNone? || we.WakeOne?)
         && s' == s.(word := s'.word)
       case _ => false
  }

  /** The steps at the signal counter. */
  ghost predicate CondStep(s: State, t: Tid, ce: CondWord.Event, s': State)
    requires Known(s, t)
  {
    && CondWord.Step(s.cond, t, ce, s'.cond)
    && match s.thread[t].pc
       case WaitRead(deadline) =>
         && ce.Read?
         && s' == Goto(s, t, WaitMeasure(deadline, s.count)).(cond := s'.cond)
       case WaitMeasure(deadline, depth) =>
         // The deadline has come already: return at once, the mutex still held.
         && ce.Abandon? && deadline.Some?
         && MillisUntil(Reads(ClockAt(s.now)), deadline.value) == 0
         && s' == Return(s, t, TimedOut(deadline.value), s.thread[t].depth).(cond := s'.cond)
       case Blocked(w) =>
         && (ce == CondWord.Wait(s.now, w.timeout) || ce.Spurious? || ce == CondWord.Expire(s.now))
         && s' == s.(cond := s'.cond)
       case Signal(all) =>
         && ce == CondWord.Publish(all)
         && s' == Goto(s, t, Wake(all, Waiters(s.cond))).(cond := s'.cond)
       case Wake(all, _) =>
         && (ce.WakeNone? || ce.WakeOne? || ce.WakeAll?)
         && s' == Return(s, t, Ok, s.thread[t].depth).(cond := s'.cond)
       case _ => false
  }

  /** The threads that have read the counter and are not yet back. */
  function Waiters(c: CondWord.State): set<Tid> {
    set u | u in c.pc && (c.pc[u].Ready? || c.pc[u].Parked?)
  }

  /** The timeout is computed after the counter is read and before the mutex is given up. */
  ghost predicate MeasureStep(s: State, t: Tid, s': State)
    requires Known(s, t)
  {
    && s.thread[t].pc.WaitMeasure?
    && var deadline := s.thread[t].pc.deadline;
       var timeout := if deadline.None? then 0 else MillisUntil(Reads(ClockAt(s.now)), deadline.value);
       && (deadline.Some? ==> timeout != 0)
       && s' == Goto(s, t, ClearOwner(Some(Wait(s.thread[t].pc.depth, deadline, timeout, None))))
  }

  /** Locking a mutex the caller owns already: count it, or refuse. */
  ghost predicate RelockOwnStep(s: State, t: Tid, s': State)
    requires Known(s, t)
  {
    && s.thread[t].pc == LockTest && s.owner == Some(t)
    && match s.kind
       case Recursive => s' == Return(s, t, Ok, s.thread[t].depth + 1).(count := s.count + 1)
       case ErrorCheck => s' == Return(s, t, Deadlock, s.thread[t].depth)
       case Normal => false
  }

  ghost predicate RelockStep(s: State, t: Tid, s': State)
    requires Known(s, t)
  {
    && s.thread[t].pc.Blocked? && s.cond.pc[t].Back?
    && LockWord.Step(s.word, t, LockWord.Begin, s'.word)
    && CondWord.Step(s.cond, t, CondWord.Return, s'.cond)
    && s' == Goto(s, t, Locking(Some(s.thread[t].pc.sleep.(answer := Some(s.cond.pc[t].answer)))))
             .(word := s'.word, cond := s'.cond)
  }

  ghost predicate Step(s: State, t: Tid, e: Event, s': State) {
    && Known(s, t)
    && match e
       case Start(call) =>
         && s.thread[t].pc.Idle? && MayStart(s.kind, s.thread[t].depth, call)
         && s' == Goto(s, t, StartPc(call))
       case Local => LocalStep(s, t, s') || MeasureStep(s, t, s') || RelockOwnStep(s, t, s')
       case Word(we) => WordStep(s, t, we, s')
       case Cond(ce) => CondStep(s, t, ce, s')
       case Relock => RelockStep(s, t, s')
       case Tick(now) => s.now <= now && s' == s.(now := now)
  }

  ghost predicate Next(s: State, s': State) {
    exists t, e :: Step(s, t, e, s')
  }

  // ---- The invariant ----

  predicate Waiting(c: CondWord.Pc) {
    c.Ready? || c.Parked? || c.Back?
  }

  /** How the layers and the caller's own count of locks fit together. */
  predicate Fits(th: Thread, w: LockWord.Pc, c: CondWord.Pc) {
    var d := th.depth;
    var resting := w == if d > 0 then LockWord.Held else LockWord.Idle;
    match th.pc
    case Idle(_) => resting && c == CondWord.Idle
    case LockTest => resting && c == CondWord.Idle
    case TryTest => resting && c == CondWord.Idle
    case TryCas => resting && c == CondWord.Idle
    case UnlockTest => resting && c == CondWord.Idle
    case Locking(wait) => LockWord.Acquiring(w) && c == CondWord.Idle && InWait(d, wait)
    case SetOwner(wait) => w == LockWord.Held && c == CondWord.Idle && InWait(d, wait)
    case SetCount(wait) => w == LockWord.Held && c == CondWord.Idle && InWait(d, wait)
    case Verdict(wait) => w == LockWord.Held && c == CondWord.Idle && InWait(d, Some(wait))
    case ClearOwner(wait) => w == LockWord.Held && c.Ready? == wait.Some? && (c.Ready? || c == CondWord.Idle) && InWait(d, wait)
    case ClearCount(wait) => w == LockWord.Held && c.Ready? == wait.Some? && (c.Ready? || c == CondWord.Idle) && InWait(d, wait)
    case Release(wait) => LockWord.Releasing(w) && c.Ready? == wait.Some? && (c.Ready? || c == CondWord.Idle) && InWait(d, wait)
    case WaitRead(_) => w == LockWord.Held && c == CondWord.Idle && d > 0
    case WaitMeasure(_, depth) => w == LockWord.Held && c.Ready? && d == depth > 0
    case Blocked(wait) => w == LockWord.Idle && Waiting(c) && InWait(d, Some(wait))
    case Signal(_) => resting && c == CondWord.Idle
    case Wake(all, _) => resting && c.Owes? && c.all == all
  }

  /** In a condition wait the caller still counts its locks; otherwise it has none. */
  predicate InWait(d: nat, wait: Option<Wait>) {
    match wait
    case None => d == 0
    case Some(w) => d == w.depth && d > 0
  }

  /** The owner field names this thread. */
  predicate Owning(th: Thread) {
    match th.pc
    case Locking(_) => false
    case SetOwner(_) => false
    case SetCount(_) => true
    case Verdict(_) => true
    case ClearOwner(_) => true
    case ClearCount(_) => false
    case Release(_) => false
    case Blocked(_) => false
    case _ => th.depth > 0
  }

  /** The count field is this thread's nesting depth. */
  predicate Counted(th: Thread) {
    Owning(th) && !th.pc.SetCount? && !th.pc.ClearOwner?
  }

  /** Only a recursive mutex is locked more than once by its owner, and a call that was
      allowed to start stays so until it looks. */
  predicate Disciplined(kind: Kind, th: Thread) {
    && (kind != Recursive ==> th.depth <= 1)
    && (th.pc.LockTest? && kind == Normal ==> th.depth == 0)
    && (th.pc.UnlockTest? && kind == Normal ==> th.depth > 0)
  }

  ghost predicate FitsIn(s: State, t: Tid)
    requires Known(s, t)
  {
    && Disciplined(s.kind, s.thread[t])
    && Fits(s.thread[t], s.word.pc[t], s.cond.pc[t])
    && (Owning(s.thread[t]) ==> s.owner == Some(t))
    && (Counted(s.thread[t]) ==> s.count == s.thread[t].depth)
  }

  /** What a wait with a deadline knows about time. */
  predicate Timely(now: nat, w: Wait) {
    match w.deadline
    case None => w.timeout == 0 && w.answer != Some(CondWord.TimedOut)
    case Some(deadline) =>
      && w.timeout > 0
      && Nanos(deadline) <= now + w.timeout * 1_000_000
      && (w.answer == Some(CondWord.TimedOut) ==> Nanos(deadline) <= now)
  }

  /** A timeout is never reported early. */
  predicate OnTime(now: nat, th: Thread, c: CondWord.Pc) {
    match th.pc
    case Idle(TimedOut(deadline)) => Nanos(deadline) <= now
    case Locking(Some(w)) => Timely(now, w)
    case SetOwner(Some(w)) => Timely(now, w)
    case SetCount(Some(w)) => Timely(now, w)
    case Verdict(w) => Timely(now, w)
    case ClearOwner(Some(w)) => Timely(now, w)
    case ClearCount(Some(w)) => Timely(now, w)
    case Release(Some(w)) => Timely(now, w)
    case Blocked(w) =>
      && Timely(now, w)
      && (c.Parked? ==> (c.expires.Some? <==> w.deadline.Some?))
      && (c.Parked? && w.deadline.Some? ==> Nanos(w.deadline.value) <= c.expires.value)
      && (c == CondWord.Back(CondWord.TimedOut) ==> w.deadline.Some? && Nanos(w.deadline.value) <= now)
    case _ => true
  }

  ghost predicate OwnerIsReal(s: State) {
    s.owner.Some? ==> Known(s, s.owner.value) && Owning(s.thread[s.owner.value])
  }

  ghost predicate SameThreads(s: State) {
    s.word.pc.Keys == s.cond.pc.Keys == s.thread.Keys
  }

  /** Inside the condition wait, between giving the mutex up and taking it back. */
  predicate AwayFromMutex(p: Pc) {
    (p.Release? && p.wait.Some?) || p.Blocked? || (p.Locking? && p.wait.Some?)
  }

  /** While a thread that holds the mutex owes the wake of a signal, its history
      covers everybody who still waits, all of them from before the increment,
      and none of them has returned. */
  ghost predicate SignalCovers(s: State, t: Tid)
    requires Known(s, t)
  {
    s.thread[t].pc.Wake? && s.word.pc[t] == LockWord.Held ==>
      && Waiters(s.cond) <= s.thread[t].pc.waiters
      && (forall u :: u in s.cond.pc && s.cond.pc[u].Ready? ==> s.cond.pc[u].seen < s.cond.counter)
      && (forall u :: u in s.thread[t].pc.waiters ==> Known(s, u) && AwayFromMutex(s.thread[u].pc))
  }

  ghost predicate Inv(s: State) {
    && SameThreads(s)
    && LockWord.Inv(s.word) && CondWord.Inv(s.cond)
    && OwnerIsReal(s)
    && forall t :: Known(s, t) ==>
         FitsIn(s, t) && OnTime(s.now, s.thread[t], s.cond.pc[t]) && SignalCovers(s, t)
  }

  // ---- What one step changes ----

  lemma StepFrame(s: State, t: Tid, e: Event, s': State)
    requires Step(s, t, e, s')
    ensures s'.thread.Keys == s.thread.Keys && s'.word.pc.Keys == s.word.pc.Keys && s'.cond.pc.Keys == s.cond.pc.Keys
    ensures forall u :: u != t && u in s.thread ==> s'.thread[u] == s.thread[u]
    ensures s'.kind == s.kind && s.now <= s'.now
  {
    match e {
      case Word(we) => LockWord.StepFrame(s.word, t, we, s'.word);
      case Cond(ce) => CondWord.StepFrame(s.cond, t, ce, s'.cond);
      case Relock => LockWord.StepFrame(s.word, t, LockWord.Begin, s'.word);
        CondWord.StepFrame(s.cond, t, CondWord.Return, s'.cond);
      case _ =>
    }
  }

  lemma StepMovesWord(s: State, t: Tid, e: Event, s': State)
    requires Step(s, t, e, s')
    ensures s'.word == s.word || exists we :: LockWord.Step(s.word, t, we, s'.word)
  {
  }

  /** `ce` is the step the signal counter takes in step `e`. */
  ghost predicate CondMoved(s: State, t: Tid, e: Event, s': State, ce: CondWord.Event)
    requires Known(s, t) && Known(s', t)
  {
    && CondWord.Step(s.cond, t, ce, s'.cond)
    && (ce.Read? ==> s.thread[t].pc.WaitRead?)
    && (ce.Publish? ==> s.thread[t].pc.Signal?)
    && (ce.WakeNone? || ce.WakeOne? || ce.WakeAll? ==> s.thread[t].pc.Wake?)
    && (ce.Abandon? ==> s.thread[t].pc.WaitMeasure?)
    && (ce.Wait? ==> s.thread[t].pc.Blocked? && ce == CondWord.Wait(s.now, s.thread[t].pc.sleep.timeout))
    && (ce.Expire? ==> s.thread[t].pc.Blocked? && ce.now == s.now)
    && (ce.Spurious? || ce.Return? ==> s.thread[t].pc.Blocked?)
  }

  lemma StepMovesCond(s: State, t: Tid, e: Event, s': State)
    requires Step(s, t, e, s') && Known(s', t)
    ensures s'.cond == s.cond || exists ce :: CondMoved(s, t, e, s', ce)
  {
    match e {
      case Cond(ce) => assert CondMoved(s, t, e, s', ce);
      case Relock => assert CondMoved(s, t, e, s', CondWord.Return);
      case _ =>
    }
  }

  lemma StepKeepsParts(s: State, t: Tid, e: Event, s': State)
    requires LockWord.Inv(s.word) && CondWord.Inv(s.cond) && Step(s, t, e, s')
    ensures LockWord.Inv(s'.word) && CondWord.Inv(s'.cond)
  {
    StepFrame(s, t, e, s');
    StepMovesWord(s, t, e, s');
    if s'.word != s.word {
      var we :| LockWord.Step(s.word, t, we, s'.word);
      LockWord.StepKeepsInv(s.word, t, we, s'.word);
    }
    StepMovesCond(s, t, e, s');
    if s'.cond != s.cond {
      var ce :| CondMoved(s, t, e, s', ce);
      CondWord.StepKeepsInv(s.cond, t, ce, s'.cond);
    }
  }

  // ---- Ownership ----

  lemma OneOwner(s: State, t: Tid, u: Tid)
    requires LockWord.Inv(s.word) && t in s.word.pc && u in s.word.pc
    requires s.word.pc[t] == LockWord.Held && s.word.pc[u] == LockWord.Held
    ensures t == u && s.word.word != 0
  {
    assert t in LockWord.Insiders(s.word) && u in LockWord.Insiders(s.word);
  }

  /** The owner and count fields change only at the hands of a thread that holds the word. */
  lemma FieldsNeedWord(s: State, t: Tid, e: Event, s': State)
    requires Step(s, t, e, s') && FitsIn(s, t) && OwnerIsReal(s)
    requires s'.owner != s.owner || s'.count != s.count
    ensures s.word.pc[t] == LockWord.Held && e.Local?
  {
  }

  lemma UnlockTestFitsSelf(s: State, t: Tid, s': State)
    requires Known(s, t) && LocalStep(s, t, s') && FitsIn(s, t) && Known(s', t) && s.thread[t].pc == UnlockTest
    requires OwnerIsReal(s) && (s.word.pc[t] == LockWord.Held ==> s.word.word != 0)
    ensures FitsIn(s', t)
  {
  }

  lemma TryFitsSelf(s: State, t: Tid, s': State)
    requires Known(s, t) && LocalStep(s, t, s') && FitsIn(s, t) && Known(s', t)
    requires s.thread[t].pc == TryTest || s.thread[t].pc == TryCas
    requires OwnerIsReal(s) && (s.word.pc[t] == LockWord.Held ==> s.word.word != 0)
    ensures FitsIn(s', t)
  {
  }

  lemma LocalFitsSelf(s: State, t: Tid, s': State)
    requires Known(s, t) && LocalStep(s, t, s') && FitsIn(s, t) && Known(s', t)
    requires OwnerIsReal(s) && (s.word.pc[t] == LockWord.Held ==> s.word.word != 0)
    ensures FitsIn(s', t)
  {
    if s.thread[t].pc == UnlockTest {
      UnlockTestFitsSelf(s, t, s');
    } else if s.thread[t].pc == TryTest || s.thread[t].pc == TryCas {
      TryFitsSelf(s, t, s');
    } else {
      hide OwnerIsReal;
    }
  }

  lemma OtherLocalFitsSelf(s: State, t: Tid, s': State)
    requires Known(s, t) && (MeasureStep(s, t, s') || RelockOwnStep(s, t, s')) && FitsIn(s, t) && OwnerIsReal(s)
    requires Known(s', t)
    ensures FitsIn(s', t)
  {
  }

  lemma RelockFitsSelf(s: State, t: Tid, s': State)
    requires Step(s, t, Relock, s') && FitsIn(s, t) && Known(s', t)
    ensures FitsIn(s', t)
  {
  }

  lemma WordFitsSelf(s: State, t: Tid, we: LockWord.Event, s': State)
    requires Step(s, t, Word(we), s') && FitsIn(s, t) && Known(s', t)
    ensures FitsIn(s', t)
  {
    hide MillisUntil, ClockAt, CondWord.Step;
  }

  lemma CondFitsSelf(s: State, t: Tid, ce: CondWord.Event, s': State)
    requires Step(s, t, Cond(ce), s') && FitsIn(s, t) && Known(s', t)
    ensures FitsIn(s', t)
  {
  }

  lemma StepFitsSelf(s: State, t: Tid, e: Event, s': State)
    requires Step(s, t, e, s') && FitsIn(s, t) && OwnerIsReal(s) && LockWord.Inv(s.word) && Known(s', t)
    ensures FitsIn(s', t)
  {
    hide LocalStep, WordStep, CondStep, RelockStep, MeasureStep, RelockOwnStep, LockWord.Inv, OwnerIsReal;
    match e {
      case Start(call) =>
      case Local =>
        if LocalStep(s, t, s') {
          if s.word.pc[t] == LockWord.Held {
            OneOwner(s, t, t);
          }
          LocalFitsSelf(s, t, s');
        } else {
          OtherLocalFitsSelf(s, t, s');
        }
      case Word(we) => WordFitsSelf(s, t, we, s');
      case Cond(ce) => CondFitsSelf(s, t, ce, s');
      case Relock => RelockFitsSelf(s, t, s');
      case Tick(_) =>
    }
  }

  /** The moving thread ends up owning if the owner field names it. */
  lemma StepOwning(s: State, t: Tid, e: Event, s': State)
    requires Step(s, t, e, s') && FitsIn(s, t) && OwnerIsReal(s) && Known(s', t)
    ensures s'.owner == Some(t) ==> Owning(s'.thread[t])
    ensures s'.owner == s.owner || s'.owner == Some(t) || s'.owner == None
  {
  }

  lemma StepKeepsOwnerReal(s: State, t: Tid, e: Event, s': State)
    requires OwnerIsReal(s) && Step(s, t, e, s') && FitsIn(s, t)
    ensures OwnerIsReal(s')
  {
    StepFrame(s, t, e, s');
    StepOwning(s, t, e, s');
  }

  lemma OtherLayers(s: State, t: Tid, e: Event, s': State, u: Tid)
    requires Step(s, t, e, s') && u != t && Known(s, u)
    ensures Known(s', u) && s'.thread[u] == s.thread[u]
    ensures s'.word.pc[u] == s.word.pc[u] || (s.word.pc[u] == LockWord.Parked && s'.word.pc[u] == LockWord.Retry)
    ensures s'.cond.pc[u] == s.cond.pc[u] || (s.cond.pc[u].Parked? && s'.cond.pc[u] == CondWord.Back(CondWord.Woken))
  {
    StepFrame(s, t, e, s');
    StepMovesWord(s, t, e, s');
    if s'.word != s.word {
      var we :| LockWord.Step(s.word, t, we, s'.word);
      LockWord.StepFrame(s.word, t, we, s'.word);
    }
    StepMovesCond(s, t, e, s');
    if s'.cond != s.cond {
      var ce :| CondMoved(s, t, e, s', ce);
      CondWord.StepFrame(s.cond, t, ce, s'.cond);
    }
  }

  lemma StepFitsOther(s: State, t: Tid, e: Event, s': State, u: Tid)
    requires Step(s, t, e, s') && FitsIn(s, t) && OwnerIsReal(s) && LockWord.Inv(s.word)
    requires u != t && Known(s, u) && FitsIn(s, u)
    ensures Known(s', u) && FitsIn(s', u)
  {
    OtherLayers(s, t, e, s', u);
    if Owning(s.thread[u]) && (s'.owner != s.owner || s'.count != s.count) {
      FieldsNeedWord(s, t, e, s');
      OneOwner(s, t, u);
    }
  }

  // ---- Time ----

  lemma LocalOnTime(s: State, t: Tid, s': State)
    requires Step(s, t, Local, s') && FitsIn(s, t) && Known(s', t)
    requires OnTime(s.now, s.thread[t], s.cond.pc[t])
    ensures OnTime(s'.now, s'.thread[t], s'.cond.pc[t])
  {
    ClockIsRight(s.now);
    match s.thread[t].pc {
      case WaitMeasure(Some(deadline), _) => MillisRoundUp(ClockAt(s.now), deadline);
      case Verdict(w) =>
        if w.deadline.Some? {
          MillisRoundUp(ClockAt(s.now), w.deadline.value);
        }
      case _ =>
    }
  }

  lemma CondOnTime(s: State, t: Tid, ce: CondWord.Event, s': State)
    requires Step(s, t, Cond(ce), s') && FitsIn(s, t) && Known(s', t)
    requires OnTime(s.now, s.thread[t], s.cond.pc[t])
    ensures OnTime(s'.now, s'.thread[t], s'.cond.pc[t])
  {
    ClockIsRight(s.now);
    match s.thread[t].pc {
      case WaitMeasure(Some(deadline), _) => MillisRoundUp(ClockAt(s.now), deadline);
      case _ =>
    }
  }

  lemma StepOnTimeSelf(s: State, t: Tid, e: Event, s': State)
    requires Step(s, t, e, s') && FitsIn(s, t) && Known(s', t)
    requires OnTime(s.now, s.thread[t], s.cond.pc[t])
    ensures OnTime(s'.now, s'.thread[t], s'.cond.pc[t])
  {
    match e {
      case Start(call) =>
      case Local => LocalOnTime(s, t, s');
      case Word(we) =>
      case Cond(ce) => CondOnTime(s, t, ce, s');
      case Relock =>
      case Tick(_) =>
    }
  }

  lemma StepOnTimeOther(s: State, t: Tid, e: Event, s': State, u: Tid)
    requires Step(s, t, e, s') && u != t && Known(s, u) && FitsIn(s, u)
    requires OnTime(s.now, s.thread[u], s.cond.pc[u])
    ensures Known(s', u) && OnTime(s'.now, s'.thread[u], s'.cond.pc[u])
  {
    StepFrame(s, t, e, s');
    OtherLayers(s, t, e, s', u);
  }

  // ---- Signals sent by the holder ----

  /** The signaller publishes: everybody waiting is away from the mutex. */
  lemma WaitersAreAway(s: State, t: Tid, u: Tid)
    requires Inv(s) && Known(s, t) && s.word.pc[t] == LockWord.Held && u in Waiters(s.cond) && !Waiting(s.cond.pc[t])
    ensures Known(s, u) && AwayFromMutex(s.thread[u].pc) && u != t
  {
    assert Known(s, u) && FitsIn(s, u);
    if s.word.pc[u] == LockWord.Held {
      OneOwner(s, t, u);
    }
  }

  lemma PublishCovers(s: State, t: Tid, ce: CondWord.Event, s': State)
    requires Inv(s) && Step(s, t, Cond(ce), s') && s.thread[t].pc.Signal? && Known(s', t)
    ensures SignalCovers(s', t)
  {
    hide OnTime, LockWord.Inv, OwnerIsReal, Disciplined;
    assert FitsIn(s, t);
    assert Waiters(s'.cond) == Waiters(s.cond);
    if s.word.pc[t] == LockWord.Held {
      forall u | u in Waiters(s.cond) ensures Known(s', u) && AwayFromMutex(s'.thread[u].pc) {
        WaitersAreAway(s, t, u);
        StepFrame(s, t, Cond(ce), s');
      }
    }
  }

  /** While `v` holds the word, a mover cannot read the counter, nor come back
      from being away. */
  lemma StepCoversOther(s: State, t: Tid, e: Event, s': State, v: Tid)
    requires Inv(s) && Step(s, t, e, s') && v != t && Known(s, v) && Known(s', v) && LockWord.Inv(s'.word)
    requires s'.thread[v].pc.Wake? && s'.word.pc[v] == LockWord.Held
    ensures SignalCovers(s', v)
  {
    OtherLayers(s, t, e, s', v);
    assert SignalCovers(s, v);
    if s.word.pc[t] == LockWord.Held {
      OneOwner(s, t, v);
    }
    StepFrame(s, t, e, s');
    if s'.word.pc[t] == LockWord.Held {
      OneOwner(s', t, v);
    }
    HolderKeepsWaitersOut(s, t, e, s');
    forall u | u in s.thread[v].pc.waiters ensures Known(s', u) && AwayFromMutex(s'.thread[u].pc) {
      if u == t {
        AwayStaysAway(s, t, e, s');
      } else {
        OtherLayers(s, t, e, s', u);
      }
    }
  }

  /** A step at the counter other than reading it adds no waiter and no fresh reading. */
  lemma CounterKeepsWaiters(c: CondWord.State, t: Tid, ce: CondWord.Event, c': CondWord.State)
    requires CondWord.Step(c, t, ce, c') && !ce.Read?
    requires forall u :: u in c.pc && c.pc[u].Ready? ==> c.pc[u].seen < c.counter
    ensures Waiters(c') <= Waiters(c)
    ensures forall u :: u in c'.pc && c'.pc[u].Ready? ==> c'.pc[u].seen < c'.counter
  {
  }

  lemma HolderKeepsWaitersOut(s: State, t: Tid, e: Event, s': State)
    requires Step(s, t, e, s') && FitsIn(s, t) && s.word.pc[t] != LockWord.Held
    requires forall u :: u in s.cond.pc && s.cond.pc[u].Ready? ==> s.cond.pc[u].seen < s.cond.counter
    ensures Waiters(s'.cond) <= Waiters(s.cond)
    ensures forall u :: u in s'.cond.pc && s'.cond.pc[u].Ready? ==> s'.cond.pc[u].seen < s'.cond.counter
  {
    StepFrame(s, t, e, s');
    assert Known(s', t);
    hide Disciplined, Owning, Counted, Step, CondWord.Step;
    StepMovesCond(s, t, e, s');
    if s'.cond != s.cond {
      var ce :| CondMoved(s, t, e, s', ce);
      CounterKeepsWaiters(s.cond, t, ce, s'.cond);
    }
  }

  lemma AwayStaysAway(s: State, t: Tid, e: Event, s': State)
    requires Step(s, t, e, s') && FitsIn(s, t) && Known(s', t) && AwayFromMutex(s.thread[t].pc)
    requires s.word.pc[t] != LockWord.Held && s'.word.pc[t] != LockWord.Held
    ensures AwayFromMutex(s'.thread[t].pc)
  {
  }

  lemma StepKeepsCovers(s: State, t: Tid, e: Event, s': State, v: Tid)
    requires Inv(s) && Step(s, t, e, s') && Known(s', v)
    ensures SignalCovers(s', v)
  {
    StepFrame(s, t, e, s');
    StepKeepsParts(s, t, e, s');
    if s'.thread[v].pc.Wake? && s'.word.pc[v] == LockWord.Held {
      assert Known(s, v);
      if v != t {
        StepCoversOther(s, t, e, s', v);
      } else {
        WakeBegins(s, t, e, s');
        if e.Cond? {
          PublishCovers(s, t, e.cond, s');
        } else {
          assert SignalCovers(s, t);
        }
      }
    }
  }

  lemma WakeBegins(s: State, t: Tid, e: Event, s': State)
    requires Step(s, t, e, s') && Known(s', t) && s'.thread[t].pc.Wake?
    ensures (e.Cond? && s.thread[t].pc.Signal?) || (e.Tick? && s.thread == s'.thread)
  {
  }

  lemma StepKeepsInv(s: State, t: Tid, e: Event, s': State)
    requires Inv(s) && Step(s, t, e, s')
    ensures Inv(s')
  {
    StepFrame(s, t, e, s');
    StepKeepsParts(s, t, e, s');
    StepKeepsOwnerReal(s, t, e, s');
    forall u | Known(s', u)
      ensures FitsIn(s', u) && OnTime(s'.now, s'.thread[u], s'.cond.pc[u]) && SignalCovers(s', u)
    {
      StepKeepsCovers(s, t, e, s', u);
      assert Known(s, u);
      if u == t {
        StepFitsSelf(s, t, e, s');
        StepOnTimeSelf(s, t, e, s');
      } else {
        StepFitsOther(s, t, e, s', u);
        StepOnTimeOther(s, t, e, s', u);
      }
    }
  }

  // ---- Main results ----

  lemma NextKeepsInv(s: State, s': State)
    requires Inv(s) && Next(s, s')
    ensures Inv(s')
  {
    var t, e :| Step(s, t, e, s');
    StepKeepsInv(s, t, e, s');
  }

  lemma RunsAreSafe(run: seq<State>, k: nat)
    requires IsRun(Init, Next, run) && k < |run|
    ensures Inv(run[k])
  {
    forall s, s' | Inv(s) && Next(s, s') ensures Inv(s') {
      NextKeepsInv(s, s');
    }
    InvariantHolds(Init, Next, Inv, run, k);
  }

  /** The step is the one by which a lock or a trylock gives the caller the mutex once more. */
  predicate Gains(p: Pc, p': Pc) {
    (p.LockTest? || p.TryTest? || p == SetCount(None)) && p' == Idle(Ok)
  }

  /** The step is the one by which an unlock accepts to undo one lock. */
  predicate Drops(p: Pc, p': Pc) {
    p.UnlockTest? && p' != Idle(NotOwner) && p' != p
  }

  // What each call answers.

  /** Neither waiting nor between the word and the owner field. */
  predicate Settled(p: Pc) {
    p.Idle? || p.LockTest? || p.TryTest? || p.TryCas? || p.UnlockTest? || p.Signal? || p.Wake?
  }

  lemma OwnerMeansLocked(s: State, t: Tid)
    requires OwnerIsReal(s) && Known(s, t) && FitsIn(s, t) && Settled(s.thread[t].pc)
    ensures s.owner == Some(t) <==> s.thread[t].depth > 0
    ensures s.thread[t].depth > 0 ==> s.count == s.thread[t].depth
    ensures s.word.pc[t] == LockWord.Held <==> s.thread[t].depth > 0
  {
  }

  /** An unlock is refused exactly to a caller that has not locked; an inner unlock ends
      one lower with the word untouched; an outermost one goes on to free the word. */
  lemma UnlockAnswers(s: State, t: Tid, s': State)
    requires Inv(s) && Step(s, t, Local, s') && s.thread[t].pc == UnlockTest
    ensures t in s'.thread && s'.word == s.word
    ensures var (d, b) := (s.thread[t].depth, s'.thread[t]);
            && (b.pc == Idle(NotOwner) <==> d == 0)
            && (d == 0 ==> b.depth == 0)
            && (d > 1 ==> b.pc == Idle(Ok) && b.depth == d - 1 && s'.owner == Some(t) && s'.count == d - 1)
            && (d == 1 ==> b.pc == ClearOwner(None) && b.depth == 0)
  {
    assert FitsIn(s, t);
    OwnerMeansLocked(s, t);
    hide Fits, OwnerIsReal, Owning, OnTime, SignalCovers;
  }

  lemma TallyElsewhere(s: State, t: Tid, e: Event, s': State)
    requires Step(s, t, e, s') && !(e.Local? && s.thread[t].pc == UnlockTest)
    ensures t in s'.thread && !Drops(s.thread[t].pc, s'.thread[t].pc)
    ensures s'.thread[t].depth == s.thread[t].depth + One(Gains(s.thread[t].pc, s'.thread[t].pc))
  {
    hide LockWord.Step, CondWord.Step, MillisUntil, ClockAt;
  }

  /** The tally is the number of locks gained less the number of locks undone: every step
      moves it by just that, and no accepted unlock finds it at 0. */
  lemma TallyCountsLocks(s: State, t: Tid, e: Event, s': State)
    requires Inv(s) && Step(s, t, e, s')
    ensures t in s'.thread
    ensures var (a, b) := (s.thread[t], s'.thread[t]); b.depth == a.depth + One(Gains(a.pc, b.pc)) - One(Drops(a.pc, b.pc))
  {
    assert Known(s, t);
    hide Inv, Step;
    if e.Local? && s.thread[t].pc == UnlockTest {
      UnlockAnswers(s, t, s');
    } else {
      TallyElsewhere(s, t, e, s');
    }
  }

  /** Inside an unlock begun with this many locks. */
  predicate Unlocking(th: Thread, d: nat) {
    || (th.pc == UnlockTest && th.depth == d)
    || (d == 1 && th.depth == 0 && (th.pc == ClearOwner(None) || th.pc == ClearCount(None) || th.pc == Release(None)))
  }

  /** An unlock that was due has been accepted: one lock fewer, and none means the word
      is no longer the caller's. */
  ghost predicate Unlocked(s: State, t: Tid, d: nat) {
    && Known(s, t) && d > 0 && s.thread[t] == Thread(Idle(Ok), d - 1)
    && (s.word.pc[t] == LockWord.Held <==> d > 1) && (s.owner == Some(t) <==> d > 1)
  }

  lemma UnlockGoesOnSelf(s: State, e: Event, s': State, t: Tid)
    requires Step(s, t, e, s') && Known(s, t) && Unlocking(s.thread[t], 1) && s.thread[t].pc != UnlockTest
    ensures Known(s', t) && (Unlocking(s'.thread[t], 1) || s'.thread[t] == Thread(Idle(Ok), 0))
  {
    StepFrame(s, t, e, s');
  }

  lemma UnlockTestMoves(s: State, e: Event, s': State, t: Tid)
    requires Step(s, t, e, s') && s.thread[t].pc == UnlockTest
    ensures e.Local? || (e.Tick? && s'.thread == s.thread && s'.word == s.word && s'.cond == s.cond)
  {
  }

  lemma UnlockGoesOn(s: State, u: Tid, e: Event, s': State, t: Tid, d: nat)
    requires Inv(s) && Inv(s') && Step(s, u, e, s') && Known(s, t) && d > 0 && Unlocking(s.thread[t], d)
    ensures Known(s', t) && (Unlocking(s'.thread[t], d) || Unlocked(s', t, d))
  {
    hide Step, Inv, Fits, OwnerIsReal;
    StepFrame(s, u, e, s');
    if u == t {
      if s.thread[t].pc == UnlockTest {
        UnlockTestMoves(s, e, s', t);
        if e.Local? {
          UnlockAnswers(s, t, s');
        }
      } else {
        UnlockGoesOnSelf(s, e, s', t);
      }
      if s'.thread[t].pc.Idle? {
        IdleOwner(s', t);
      }
    }
  }

  lemma IdleOwner(s: State, t: Tid)
    requires Inv(s) && Known(s, t) && s.thread[t].pc.Idle?
    ensures s.owner == Some(t) <==> s.thread[t].depth > 0
    ensures s.word.pc[t] == LockWord.Held <==> s.thread[t].depth > 0
  {
    assert FitsIn(s, t);
    OwnerMeansLocked(s, t);
  }

  /** Main result: over a whole run, an unlock by a thread that has locked `d` times ends
      in success with d - 1 locks left, and the mutex is still its own exactly if any is. */
  lemma {:induction false} UnlockUndoesOne(run: seq<State>, i: nat, k: nat, t: Tid)
    requires IsRun(Init, Next, run) && i < k < |run| && Known(run[i], t)
    requires run[i].thread[t].pc == UnlockTest && run[i].thread[t].depth > 0
    requires forall j :: i <= j < k ==> t in run[j].thread && !run[j].thread[t].pc.Idle?
    ensures Known(run[k], t)
    ensures Unlocking(run[k].thread[t], run[i].thread[t].depth) || Unlocked(run[k], t, run[i].thread[t].depth)
    ensures run[k].thread[t].pc.Idle? ==> Unlocked(run[k], t, run[i].thread[t].depth)
    decreases k
  {
    hide Inv, Init, Next;
    if i + 1 < k {
      UnlockUndoesOne(run, i, k - 1, t);
    }
    assert Next(run[k - 1], run[k - 1 + 1]);
    RunsAreSafe(run, k - 1);
    RunsAreSafe(run, k);
    UnlockNext(run[k - 1], run[k], t, run[i].thread[t].depth);
  }

  lemma UnlockNext(s: State, s': State, t: Tid, d: nat)
    requires Inv(s) && Inv(s') && Next(s, s') && Known(s, t) && d > 0 && Unlocking(s.thread[t], d)
    ensures Known(s', t) && (Unlocking(s'.thread[t], d) || Unlocked(s', t, d))
  {
    hide Inv, Step;
    var u, e :| Step(s, u, e, s');
    UnlockGoesOn(s, u, e, s', t, d);
  }

  /** Locking what one has locked already is answered at once: counted on a recursive
      mutex, refused on a checking one; otherwise the caller goes for the word. */
  lemma LockAnswers(s: State, t: Tid, e: Event, s': State)
    requires Inv(s) && Step(s, t, e, s') && s.thread[t].pc == LockTest && !e.Tick?
    ensures t in s'.thread
    ensures var (d, b) := (s.thread[t].depth, s'.thread[t]);
            && (b == Thread(Idle(Ok), d + 1) <==> d > 0 && s.kind == Recursive)
            && (b == Thread(Idle(Deadlock), d) <==> d > 0 && s.kind == ErrorCheck)
            && (b == Thread(Locking(None), d) <==> d == 0)
  {
    assert FitsIn(s, t);
    OwnerMeansLocked(s, t);
    hide Fits, OwnerIsReal, Owning, OnTime, SignalCovers;
  }

  /** The word is taken by the step that finds it 0, and by each such step; then the lock
      is answered Ok with the caller recorded once. */
  lemma WordAnswers(s: State, t: Tid, e: Event, s': State)
    requires Step(s, t, e, s') && FitsIn(s, t) && !e.Tick?
    ensures t in s'.thread
    ensures s.thread[t].pc.Locking? && s'.thread[t].pc.SetOwner? ==> s.word.word == 0 && s'.word.word != 0
    ensures s.thread[t].pc.Locking? && (e == Word(LockWord.Cas) || e == Word(LockWord.Exchange)) && s.word.word == 0 ==>
              s'.thread[t].pc == SetOwner(s.thread[t].pc.wait)
    ensures s.thread[t].pc == SetCount(None) ==>
              s'.thread[t] == Thread(Idle(Ok), 1) && s'.owner == Some(t) && s'.count == 1
  {
  }

  /** A trylock is counted on a recursive mutex one has; otherwise it is answered Busy
      exactly on a word that is not 0, and takes a word that is. */
  lemma TryAnswers(s: State, t: Tid, e: Event, s': State)
    requires Inv(s) && Step(s, t, e, s') && !e.Tick? && (s.thread[t].pc == TryTest || s.thread[t].pc == TryCas)
    ensures t in s'.thread
    ensures s.thread[t].pc == TryTest ==>
              s'.thread[t] == if s.kind == Recursive && s.thread[t].depth > 0
                              then Thread(Idle(Ok), s.thread[t].depth + 1) else Thread(TryCas, s.thread[t].depth)
    ensures s.thread[t].pc == TryCas ==>
              s'.thread[t] == if s.word.word == 0 then Thread(SetOwner(None), s.thread[t].depth)
                              else Thread(Idle(Busy), s.thread[t].depth)
  {
    assert FitsIn(s, t);
    OwnerMeansLocked(s, t);
    hide Fits, OwnerIsReal, Owning, OnTime, SignalCovers;
  }

  /** A condition wait answers TimedOut exactly when it had a deadline and the kernel said
      so or the deadline has come; before sleeping it gives up exactly if it has come. */
  lemma WaitAnswers(s: State, t: Tid, e: Event, s': State)
    requires Step(s, t, e, s') && !e.Tick?
    ensures t in s'.thread
    ensures s.thread[t].pc.Verdict? ==>
              var w := s.thread[t].pc.done;
              && s'.thread[t].pc.Idle? && s'.thread[t].depth == s.thread[t].depth
              && (s'.thread[t].pc.last == Ok <==>
                    w.deadline == None || (w.answer != Some(CondWord.TimedOut) && s.now < Nanos(w.deadline.value)))
              && (s'.thread[t].pc.last != Ok ==> s'.thread[t].pc.last == TimedOut(w.deadline.value))
    ensures s.thread[t].pc.WaitMeasure? ==>
              (s'.thread[t].pc.Idle? <==> s.thread[t].pc.deadline.Some? && Nanos(s.thread[t].pc.deadline.value) <= s.now)
  {
    ClockIsRight(s.now);
    if s.thread[t].pc.Verdict? && s.thread[t].pc.done.deadline.Some? {
      MillisRoundUp(ClockAt(s.now), s.thread[t].pc.done.deadline.value);
    }
    if s.thread[t].pc.WaitMeasure? && s.thread[t].pc.deadline.Some? {
      MillisRoundUp(ClockAt(s.now), s.thread[t].pc.deadline.value);
    }
  }

  /** A timed wait is refused as invalid exactly when its nanoseconds are out of range. */
  lemma TimedWaitStarts(s: State, t: Tid, deadline: Timespec, s': State)
    requires Step(s, t, Start(CondTimedWait(deadline)), s')
    ensures t in s'.thread && (s'.thread[t].pc == Idle(Invalid) <==> deadline.nsec < 0 || deadline.nsec >= 1_000_000_000)
    ensures s'.thread[t].pc == Idle(Invalid) || s'.thread[t].pc == WaitRead(Some(deadline))
  {
  }

  // ---- Whole calls ----

  /** The condition wait that this call is. */
  predicate WaitsFor(call: Call, deadline: Option<Timespec>) {
    match deadline
    case None => call == CondWait
    case Some(d) => call == CondTimedWait(d)
  }

  /** In a part that locking or unlocking shares with the condition wait. */
  predicate Shares(th: Thread, wait: Option<Wait>, plain: bool, call: Call, d: nat) {
    match wait
    case None => plain
    case Some(w) => WaitsFor(call, w.deadline) && th.depth == d
  }

  /** Inside a call begun with `d` locks. */
  predicate During(th: Thread, call: Call, d: nat) {
    var locks := (call == Lock || call == TryLock) && th.depth == d;
    var frees := call == Unlock && d == 1 && th.depth == 0;
    match th.pc
    case Idle(_) => false
    case LockTest => call == Lock && th.depth == d
    case TryTest => call == TryLock && th.depth == d
    case TryCas => call == TryLock && th.depth == d
    case UnlockTest => call == Unlock && th.depth == d
    case Locking(wait) => Shares(th, wait, locks && call == Lock, call, d)
    case SetOwner(wait) => Shares(th, wait, locks, call, d)
    case SetCount(wait) => Shares(th, wait, locks, call, d)
    case ClearOwner(wait) => Shares(th, wait, frees, call, d)
    case ClearCount(wait) => Shares(th, wait, frees, call, d)
    case Release(wait) => Shares(th, wait, frees, call, d)
    case Blocked(w) => WaitsFor(call, w.deadline) && th.depth == d
    case Verdict(w) => WaitsFor(call, w.deadline) && th.depth == d
    case WaitRead(deadline) => WaitsFor(call, deadline) && th.depth == d
    case WaitMeasure(deadline, _) => WaitsFor(call, deadline) && th.depth == d
    case Signal(all) => call == (if all then CondBroadcast else CondSignal) && th.depth == d
    case Wake(all, _) => call == (if all then CondBroadcast else CondSignal) && th.depth == d
  }

  /** What a call begun with `d` locks may return, and the locks it leaves. */
  predicate Ended(th: Thread, call: Call, d: nat) {
    && th.pc.Idle?
    && var r := th.pc.last;
       match call
       case Lock => (r == Ok && th.depth == d + 1) || (r == Deadlock && th.depth == d > 0)
       case TryLock => (r == Ok && th.depth == d + 1) || (r == Busy && th.depth == d)
       case Unlock => (r == Ok && d > 0 && th.depth == d - 1) || (r == NotOwner && th.depth == d == 0)
       case CondTimedWait(deadline) =>
         (r == Ok || r == TimedOut(deadline) || (r == Invalid && !WellFormed(deadline))) && th.depth == d
       case _ => r == Ok && th.depth == d
  }

  lemma CallStarts(s: State, t: Tid, call: Call, s': State)
    requires Step(s, t, Start(call), s')
    ensures t in s.thread && t in s'.thread
    ensures During(s'.thread[t], call, s.thread[t].depth) || Ended(s'.thread[t], call, s.thread[t].depth)
  {
  }

  lemma FieldsGoOn(s: State, t: Tid, s': State, call: Call, d: nat)
    requires Known(s, t) && (LocalStep(s, t, s') || MeasureStep(s, t, s'))
    requires During(s.thread[t], call, d) && s.thread[t].pc != UnlockTest
    ensures t in s'.thread && (During(s'.thread[t], call, d) || Ended(s'.thread[t], call, d))
  {
    hide MillisUntil, ClockAt;
  }

  lemma LocalKinds(s: State, t: Tid, s': State)
    requires Step(s, t, Local, s')
    ensures Known(s, t) && (s.thread[t].pc != LockTest ==> LocalStep(s, t, s') || MeasureStep(s, t, s'))
    ensures t in s'.thread
    ensures s.thread[t].pc == LockTest ==> s'.thread[t].pc.Idle? && s.kind != Normal
  {
  }

  lemma LocalGoesOn(s: State, t: Tid, s': State, call: Call, d: nat)
    requires Inv(s) && Step(s, t, Local, s') && During(s.thread[t], call, d)
    ensures t in s'.thread && (During(s'.thread[t], call, d) || Ended(s'.thread[t], call, d))
  {
    hide Inv, Step, LocalStep, MeasureStep;
    LocalKinds(s, t, s');
    if s.thread[t].pc == UnlockTest {
      UnlockAnswers(s, t, s');
    } else if s.thread[t].pc == LockTest {
      LockAnswers(s, t, Local, s');
    } else {
      FieldsGoOn(s, t, s', call, d);
    }
  }

  lemma OtherGoesOn(s: State, t: Tid, e: Event, s': State, call: Call, d: nat)
    requires Step(s, t, e, s') && !e.Local? && During(s.thread[t], call, d)
    ensures t in s'.thread && (During(s'.thread[t], call, d) || Ended(s'.thread[t], call, d))
  {
    hide LockWord.Step, CondWord.Step, MillisUntil, ClockAt;
  }

  lemma CallNext(s: State, s': State, t: Tid, call: Call, d: nat)
    requires Inv(s) && Next(s, s') && t in s.thread && During(s.thread[t], call, d)
    ensures t in s'.thread && (During(s'.thread[t], call, d) || Ended(s'.thread[t], call, d))
  {
    hide Inv, Step;
    var u, e :| Step(s, u, e, s');
    StepFrame(s, u, e, s');
    if u == t {
      if e.Local? {
        LocalGoesOn(s, t, s', call, d);
      } else {
        OtherGoesOn(s, t, e, s', call, d);
      }
    }
  }

  /** Main result: over a whole run, every call answers what is its own to answer and
      leaves the locks its answer says: a lock or a try that succeeds one more, an unlock
      one fewer, everything else as many as there were. */
  lemma {:induction false} CallsDeliver(run: seq<State>, i: nat, k: nat, t: Tid, call: Call)
    requires IsRun(Init, Next, run) && i < k < |run| && Step(run[i], t, Start(call), run[i + 1])
    requires forall j :: i < j < k ==> t in run[j].thread && !run[j].thread[t].pc.Idle?
    ensures t in run[k].thread
    ensures During(run[k].thread[t], call, run[i].thread[t].depth) || Ended(run[k].thread[t], call, run[i].thread[t].depth)
    decreases k
  {
    hide Inv, Init, Next, Step, During;
    CallStarts(run[i], t, call, run[i + 1]);
    if i + 1 < k {
      CallsDeliver(run, i, k - 1, t, call);
      assert Next(run[k - 1], run[k - 1 + 1]);
      RunsAreSafe(run, k - 1);
      CallNext(run[k - 1], run[k], t, call, run[i].thread[t].depth);
    }
  }

  /** What a caller may rely on, in any reachable state, between its calls: its
      own tally of locks decides whether it holds the mutex, the mutex records
      it as owner with exactly that count, and nobody else holds it. */
  lemma HolderIsRecorded(run: seq<State>, k: nat, t: Tid, u: Tid)
    requires IsRun(Init, Next, run) && k < |run|
    requires Known(run[k], t) && run[k].thread[t].pc.Idle?
    ensures run[k].thread[t].depth > 0 <==> run[k].word.pc[t] == LockWord.Held
    ensures run[k].owner == Some(t) <==> run[k].thread[t].depth > 0
    ensures run[k].thread[t].depth > 0 ==> run[k].count == run[k].thread[t].depth && run[k].word.word != 0
    ensures run[k].thread[t].depth > 0 && u in run[k].thread && run[k].thread[u].pc.Idle? && run[k].thread[u].depth > 0 ==> t == u
  {
    RunsAreSafe(run, k);
    var s := run[k];
    assert FitsIn(s, t);
    if s.thread[t].depth > 0 {
      OneOwner(s, t, t);
      if u in s.thread && s.thread[u].pc.Idle? && s.thread[u].depth > 0 {
        assert Known(s, u) && FitsIn(s, u);
        OneOwner(s, t, u);
      }
    }
  }

  /** The word is given up only by an outermost unlock, when the caller has
      undone all its locks, or on behalf of a condition wait, which keeps the tally. */
  lemma OnlyOutermostUnlockFrees(s: State, t: Tid, s': State)
    requires Inv(s) && Step(s, t, Word(LockWord.Subtract), s')
    ensures s.owner != Some(t)
    ensures s.thread[t].depth == 0 || s.thread[t].pc.wait.Some?
  {
    assert FitsIn(s, t);
    assert s.owner.Some? ==> Owning(s.thread[s.owner.value]);
  }

  /** Inside `cond_wait`. */
  predicate InCondWait(p: Pc) {
    match p
    case WaitRead(_) => true
    case WaitMeasure(_, _) => true
    case ClearOwner(w) => w.Some?
    case ClearCount(w) => w.Some?
    case Release(w) => w.Some?
    case Blocked(_) => true
    case Locking(w) => w.Some?
    case SetOwner(w) => w.Some?
    case SetCount(w) => w.Some?
    case Verdict(_) => true
    case _ => false
  }

  ghost predicate WaitsIn(s: State, t: Tid) {
    t in s.thread && InCondWait(s.thread[t].pc)
  }

  ghost predicate SameDepth(a: State, b: State, t: Tid) {
    t in a.thread ==> t in b.thread && b.thread[t].depth == a.thread[t].depth
  }

  lemma WaitStepKeepsDepth(s: State, s': State, t: Tid)
    requires WaitsIn(s, t) && Next(s, s')
    ensures SameDepth(s, s', t)
  {
    var u, e :| Step(s, u, e, s');
    StepFrame(s, u, e, s');
  }

  /** A condition wait, timed out or not, returns with the mutex held at its former depth. */
  lemma WaitReturnsHolding(run: seq<State>, i: nat, k: nat, t: Tid)
    requires IsRun(Init, Next, run) && i < k < |run|
    requires WaitsIn(run[i], t) && forall j :: i < j < k ==> WaitsIn(run[j], t)
    requires Known(run[k], t) && run[k].thread[t].pc.Idle?
    ensures run[k].thread[t].depth == run[i].thread[t].depth == run[k].count
    ensures run[k].owner == Some(t) && run[k].word.pc[t] == LockWord.Held
  {
    WaitKeepsDepth(run, i, k, t);
    RunsAreSafe(run, i);
    assert Known(run[i], t) && FitsIn(run[i], t);
    HolderIsRecorded(run, k, t, t);
  }

  lemma WaitKeepsDepth(run: seq<State>, i: nat, k: nat, t: Tid)
    requires IsRun(Init, Next, run) && i <= k < |run|
    requires forall j :: i <= j < k ==> WaitsIn(run[j], t)
    ensures SameDepth(run[i], run[k], t)
  {
    var during := s => WaitsIn(s, t);
    var rel := (a, b) => SameDepth(a, b, t);
    forall s, s' | Inv(s) && Next(s, s') ensures Inv(s') && (during(s) ==> rel(s, s')) {
      NextKeepsInv(s, s');
      if during(s) {
        WaitStepKeepsDepth(s, s', t);
      }
    }
    RelationHolds(Init, Next, Inv, during, rel, run, i, k);
  }

  lemma WokenWasCovered(s: State, t: Tid, ce: CondWord.Event, s': State) returns (u: Tid)
    requires Step(s, t, Cond(ce), s') && SignalCovers(s, t)
    requires s.thread[t].pc.Wake? && s.word.pc[t] == LockWord.Held && s.thread[t].pc.waiters != {}
    ensures u in s.thread[t].pc.waiters && (ce.WakeOne? ==> u == ce.who)
  {
    if ce.WakeOne? {
      u := ce.who;
      assert u in Waiters(s.cond);
    } else {
      u :| u in s.thread[t].pc.waiters;
    }
  }

  /** A signal sent while holding the mutex releases a thread that was waiting at
      its increment, wherever that thread was between reading the counter and
      parking: after the wake it is neither asleep nor able to fall asleep, and
      it has not returned meanwhile. */
  lemma SignalReleasesWaiter(s: State, t: Tid, ce: CondWord.Event, s': State)
    requires Inv(s) && Step(s, t, Cond(ce), s')
    requires s.thread[t].pc.Wake? && s.word.pc[t] == LockWord.Held && s.thread[t].pc.waiters != {}
    ensures exists u :: u in s.thread[t].pc.waiters && Known(s', u)
                        && !CondWord.Dozing(s'.cond, u) && AwayFromMutex(s'.thread[u].pc)
  {
    assert SignalCovers(s, t);
    var u := WokenWasCovered(s, t, ce, s');
    CoveredIsReleased(s, t, ce, s', u);
  }

  /** Main result: a broadcast sent while holding the mutex releases every thread that
      was waiting at its increment. */
  lemma BroadcastReleasesAll(s: State, t: Tid, d: nat, ce: CondWord.Event, s': State, u: Tid)
    requires Inv(s) && Step(s, t, Cond(ce), s') && During(s.thread[t], CondBroadcast, d)
    requires s.thread[t].pc.Wake? && s.word.pc[t] == LockWord.Held && u in s.thread[t].pc.waiters
    ensures Known(s', u) && !CondWord.Dozing(s'.cond, u) && AwayFromMutex(s'.thread[u].pc)
  {
    assert SignalCovers(s, t) && FitsIn(s, t);
    CoveredIsReleased(s, t, ce, s', u);
  }

  lemma CoveredIsReleased(s: State, t: Tid, ce: CondWord.Event, s': State, u: Tid)
    requires Step(s, t, Cond(ce), s') && s.thread[t].pc.Wake? && s.word.pc[t] == LockWord.Held && SignalCovers(s, t)
    requires u in s.thread[t].pc.waiters && (ce.WakeOne? ==> u == ce.who)
    ensures Known(s', u) && !CondWord.Dozing(s'.cond, u) && AwayFromMutex(s'.thread[u].pc)
  {
    CondWord.WakeReaches(s.cond, t, ce, s'.cond, u);
    StepFrame(s, t, Cond(ce), s');
  }

  /** A timed wait reports a timeout only at or after its deadline, and while it
      sleeps with a deadline its timeout is never the 0 that means forever. */
  lemma TimeoutIsNeverEarly(run: seq<State>, k: nat, t: Tid)
    requires IsRun(Init, Next, run) && k < |run| && Known(run[k], t)
    ensures match run[k].thread[t].pc
            case Idle(TimedOut(deadline)) => Nanos(deadline) <= run[k].now
            case Blocked(w) => w.deadline.Some? ==> w.timeout > 0
            case _ => true
  {
    RunsAreSafe(run, k);
    assert OnTime(run[k].now, run[k].thread[t], run[k].cond.pc[t]);
  }
}
