/** Counting semaphores: the free units lie in a 32-bit word, and waiters sleep
    on that word while it is 0. A poster wakes somebody only if `waiters` says
    that there may be somebody. */
module Semaphore {
  import opened Counting
  import opened Runs
  import opened Deadline
  import opened Options

  type Tid = nat

  const INT_MAX: nat := 0x7FFF_FFFF
  const WORD: nat := 0x1_0000_0000

  /** What the caller asked for: `sem_trywait`, or a wait with or without a deadline. */
  datatype Want = Try | Wait(deadline: Option<Timespec>)

  datatype Result = Fresh | Taken | Again | TimedOut(deadline: Timespec) | Given | Overflow | Invalid

  datatype Pc =
    | Idle(last: Result)                            // outside every call
    | Load(want: Want)                              // about to load the value
    | Swap(want: Want, seen: nat)                   // about to exchange `seen` for one less
    | Measure(until: Timespec)                      // saw 0: about to compute the timeout
    | Register(deadline: Option<Timespec>, timeout: nat)   // about to add itself to `waiters`
    | Sleep(deadline: Option<Timespec>, timeout: nat)      // about to wait while the value is 0
    | Parked(deadline: Option<Timespec>, expires: Option<nat>)
    | Unregister(deadline: Option<Timespec>)        // back from the wait
    | Add                                           // post: about to add a unit
    | Undo                                          // found INT_MAX: about to take the unit back
    | Look                                          // added: about to load `waiters`
    | Wake                                          // about to wake one sleeper

  /** `given` and `taken` are history: the posts and the waits that have succeeded.
      `overflowed` records that a post has found the value at INT_MAX, `wrapped`
      that the 32-bit word has wrapped around. */
  datatype Shared = Shared(
    value: nat, waiters: int, now: nat,
    initial: nat, given: nat, taken: nat, overflowed: bool, wrapped: bool)

  datatype State = State(sem: Shared, pc: map<Tid, Pc>)

  datatype Call = TryWait | WaitForever | TimedWait(deadline: Timespec) | Post

  datatype Event = Start(call: Call) | Move | SpuriousFailure | Spurious | Expire | WakeOne(who: Tid) | Tick(now: nat)

  ghost predicate Init(s: State) {
    && s.sem.value == s.sem.initial <= INT_MAX && s.sem.waiters == 0
    && s.sem.given == 0 && s.sem.taken == 0 && !s.sem.overflowed && !s.sem.wrapped
    && forall t :: t in s.pc ==> s.pc[t] == Idle(Fresh)
  }

  function StartPc(call: Call): Pc {
    match call
    case TryWait => Load(Try)
    case WaitForever => Load(Wait(None))
    case TimedWait(deadline) => if WellFormed(deadline) then Load(Wait(Some(deadline))) else Idle(Invalid)
    case Post => Add
  }

  /** What a thread does after reading `seen` from the value. */
  function Saw(want: Want, seen: nat): Pc {
    if seen != 0 then Swap(want, seen)
    else match want
         case Try => Idle(Again)
         case Wait(None) => Register(None, 0)
         case Wait(Some(deadline)) => Measure(deadline)
  }

  /** The kernel never lets a timeout fire early; a timeout of 0 never fires. */
  function Expiry(now: nat, timeout: nat): Option<nat> {
    if timeout == 0 then None else Some(now + timeout * 1_000_000)
  }

  function Incremented(value: nat): nat {
    if value + 1 == WORD then 0 else value + 1
  }

  function Decremented(value: nat): nat {
    if value == 0 then WORD - 1 else value - 1
  }

  /** The next access of a thread at `p`: what it leaves in the semaphore, and where it goes. */
  function Act(m: Shared, p: Pc): (Shared, Pc) {
    match p
    case Load(want) => (m, Saw(want, m.value))
    case Swap(want, seen) =>
      if m.value == seen && seen > 0 then (m.(value := seen - 1, taken := m.taken + 1), Idle(Taken))
      else (m, Saw(want, m.value))
    case Measure(deadline) =>
      var timeout := MillisUntil(Reads(ClockAt(m.now)), deadline);
      (m, if timeout == 0 then Idle(TimedOut(deadline)) else Register(Some(deadline), timeout))
    case Register(deadline, timeout) => (m.(waiters := m.waiters + 1), Sleep(deadline, timeout))
    case Sleep(deadline, timeout) =>
      (m, if m.value == 0 then Parked(deadline, Expiry(m.now, timeout)) else Unregister(deadline))
    case Unregister(deadline) => (m.(waiters := m.waiters - 1), Load(Wait(deadline)))
    case Add =>
      if m.value == INT_MAX then (m.(value := Incremented(m.value), overflowed := true), Undo)
      else (m.(value := Incremented(m.value), given := m.given + 1, wrapped := m.wrapped || m.value + 1 == WORD), Look)
    case Undo => (m.(value := Decremented(m.value), wrapped := m.wrapped || m.value == 0), Idle(Overflow))
    case Look => (m, if m.waiters != 0 then Wake else Idle(Given))
    case Wake => (m, Idle(Given))
    case _ => (m, p)
  }

  /** The kernel lets a sleeper go: woken, expired, or for no reason. */
  predicate MayReturn(now: nat, e: Event, p: Pc) {
    p.Parked? && (e.Spurious? || (e.Expire? && p.expires.Some? && p.expires.value <= now))
  }

  /** Every step but a wake that finds a sleeper moves one thread. */
  predicate Single(m: Shared, p: Pc, e: Event, m': Shared, p': Pc) {
    match e
    case Start(call) => p.Idle? && m' == m && p' == StartPc(call)
    case Move => !p.Idle? && !p.Parked? && (m', p') == Act(m, p)
    // The exchange is a weak one: it may fail although the value is the expected one.
    case SpuriousFailure => p.Swap? && m' == m && p' == Saw(p.want, m.value)
    case Spurious => MayReturn(m.now, e, p) && m' == m && p' == Unregister(p.deadline)
    case Expire => MayReturn(m.now, e, p) && m' == m && p' == Unregister(p.deadline)
    case Tick(now) => m.now <= now && m' == m.(now := now) && p' == p
    case WakeOne(_) => false
  }

  ghost predicate Step(s: State, t: Tid, e: Event, s': State) {
    && t in s.pc
    && match e
       case WakeOne(u) =>
         && s.pc[t] == Wake && u in s.pc && s.pc[u].Parked?
         && s' == s.(pc := s.pc[t := Idle(Given)][u := Unregister(s.pc[u].deadline)])
       case _ =>
         && t in s'.pc && s'.pc == s.pc[t := s'.pc[t]]
         && Single(s.sem, s.pc[t], e, s'.sem, s'.pc[t])
         // A wake that wakes nobody finds nobody asleep.
         && (e.Move? && s.pc[t] == Wake ==> forall u :: u in s.pc ==> !s.pc[u].Parked?)
  }

  ghost predicate Next(s: State, s': State) {
    exists t, e :: Step(s, t, e, s')
  }

  // ---- The invariant ----

  /** Counted by `waiters`. */
  predicate Registered(p: Pc) {
    p.Sleep? || p.Parked? || p.Unregister?
  }

  predicate Undoing(p: Pc) {
    p == Undo
  }

  /** Accounts for one unit of the value: a poster that still owes a wake, or a
      waiter that is awake and has not yet seen 0. */
  predicate Credit(p: Pc) {
    || p == Look || p == Wake || p == Undo
    || p.Unregister?
    || (p.Load? && p.want.Wait?) || (p.Swap? && p.want.Wait?)
  }

  predicate Asleep(p: Pc) {
    p.Parked?
  }

  /** The value as the history has it: a post that must undo its unit still counts. */
  function Ledger(m: Shared, undoing: nat): int {
    m.initial + m.given - m.taken + undoing
  }

  /** Units are neither made nor lost, up to the wrap-around of the word. */
  predicate Conserved(m: Shared, undoing: nat) {
    && m.value < WORD
    && m.value == Ledger(m, undoing) % WORD
    && (!m.wrapped ==> m.value == Ledger(m, undoing))
  }

  /** Away from the limit nothing wraps and the value keeps its bound. */
  predicate Bounded(m: Shared, undoing: nat) {
    !m.overflowed ==> !m.wrapped && m.value <= INT_MAX && undoing == 0
  }

  /** While somebody sleeps, every unit of the value is accounted for. */
  predicate NoLostWakeup(m: Shared, asleep: nat, credit: nat) {
    !m.wrapped && asleep > 0 ==> m.value <= credit
  }

  /** What a thread with a deadline knows about time. */
  predicate OnTime(now: nat, p: Pc) {
    match p
    case Idle(TimedOut(deadline)) => Nanos(deadline) <= now
    case Register(deadline, timeout) => deadline.Some? <==> timeout > 0
    case Sleep(deadline, timeout) => deadline.Some? <==> timeout > 0
    case Parked(deadline, expires) => deadline.Some? <==> expires.Some?
    case _ => true
  }

  ghost predicate Inv(s: State) {
    && Conserved(s.sem, Count(s.pc, Undoing))
    && Bounded(s.sem, Count(s.pc, Undoing))
    && NoLostWakeup(s.sem, Count(s.pc, Asleep), Count(s.pc, Credit))
    && s.sem.waiters == Count(s.pc, Registered)
    && forall t :: t in s.pc ==> OnTime(s.sem.now, s.pc[t])
  }

  // ---- One thread's move, in plain numbers ----

  /** The value and the ledger move together, by at most one. */
  lemma MoveConserves(m: Shared, p: Pc, e: Event, m': Shared, p': Pc, undoing: nat, undoing': nat)
    requires Single(m, p, e, m', p') && Conserved(m, undoing)
    requires undoing' == undoing - One(Undoing(p)) + One(Undoing(p'))
    ensures Conserved(m', undoing')
  {
    var delta := Ledger(m', undoing') - Ledger(m, undoing);
    assert delta == (if e.Move? && p.Add? then 1
                     else if e.Move? && (p.Undo? || (p.Swap? && p' == Idle(Taken))) then -1 else 0);
    assert m'.value == m.value + delta
           || (delta == 1 && m.value == WORD - 1 && m'.value == 0 && m'.wrapped)
           || (delta == -1 && m.value == 0 && m'.value == WORD - 1 && m'.wrapped);
  }

  lemma MoveKeepsBound(m: Shared, p: Pc, e: Event, m': Shared, p': Pc, undoing: nat, undoing': nat)
    requires Single(m, p, e, m', p') && Bounded(m, undoing)
    requires undoing' == undoing - One(Undoing(p)) + One(Undoing(p'))
    ensures Bounded(m', undoing')
    ensures m'.waiters == m.waiters - One(Registered(p)) + One(Registered(p'))
  {
  }

  lemma MoveKeepsWakeups(m: Shared, p: Pc, e: Event, m': Shared, p': Pc,
                         asleep: nat, asleep': nat, credit: nat, credit': nat)
    requires Single(m, p, e, m', p') && NoLostWakeup(m, asleep, credit) && asleep <= m.waiters
    requires e.Move? && p == Wake ==> asleep == 0
    requires asleep' == asleep - One(Asleep(p)) + One(Asleep(p'))
    requires credit' == credit - One(Credit(p)) + One(Credit(p'))
    ensures NoLostWakeup(m', asleep', credit')
  {
  }

  lemma MoveKeepsTime(m: Shared, p: Pc, e: Event, m': Shared, p': Pc)
    requires Single(m, p, e, m', p') && OnTime(m.now, p)
    ensures m.now <= m'.now && OnTime(m'.now, p')
  {
    ClockIsRight(m.now);
    if p.Measure? {
      MillisRoundUp(ClockAt(m.now), p.until);
    }
  }

  // ---- Every step of every thread ----

  ghost predicate CountsMove(pc: map<Tid, Pc>, pc': map<Tid, Pc>, p: Pc, p': Pc) {
    && Count(pc', Registered) == Count(pc, Registered) - One(Registered(p)) + One(Registered(p'))
    && Count(pc', Undoing) == Count(pc, Undoing) - One(Undoing(p)) + One(Undoing(p'))
    && Count(pc', Credit) == Count(pc, Credit) - One(Credit(p)) + One(Credit(p'))
    && Count(pc', Asleep) == Count(pc, Asleep) - One(Asleep(p)) + One(Asleep(p'))
  }

  lemma MoveCounts(pc: map<Tid, Pc>, t: Tid, p': Pc)
    requires t in pc
    ensures CountsMove(pc, pc[t := p'], pc[t], p')
  {
    CountUpdate(pc, t, p', Registered);
    CountUpdate(pc, t, p', Undoing);
    CountUpdate(pc, t, p', Credit);
    CountUpdate(pc, t, p', Asleep);
  }

  lemma SingleKeepsInv(s: State, t: Tid, e: Event, s': State)
    requires Step(s, t, e, s') && !e.WakeOne? && Inv(s)
    ensures Inv(s')
  {
    var p, p' := s.pc[t], s'.pc[t];
    MoveCounts(s.pc, t, p');
    MoveConserves(s.sem, p, e, s'.sem, p', Count(s.pc, Undoing), Count(s'.pc, Undoing));
    MoveKeepsBound(s.sem, p, e, s'.sem, p', Count(s.pc, Undoing), Count(s'.pc, Undoing));
    CountZero(s.pc, Asleep);
    CountMonotone(s.pc, Asleep, Registered);
    MoveKeepsWakeups(s.sem, p, e, s'.sem, p', Count(s.pc, Asleep), Count(s'.pc, Asleep),
                     Count(s.pc, Credit), Count(s'.pc, Credit));
    MoveKeepsTime(s.sem, p, e, s'.sem, p');
  }

  lemma WakeKeepsInv(s: State, t: Tid, u: Tid, s': State)
    requires Step(s, t, WakeOne(u), s') && Inv(s)
    ensures Inv(s')
  {
    MoveCounts(s.pc, t, Idle(Given));
    MoveCounts(s.pc[t := Idle(Given)], u, Unregister(s.pc[u].deadline));
  }

  lemma StepKeepsInv(s: State, t: Tid, e: Event, s': State)
    requires Inv(s) && Step(s, t, e, s')
    ensures Inv(s')
  {
    if e.WakeOne? {
      WakeKeepsInv(s, t, e.who, s');
    } else {
      SingleKeepsInv(s, t, e, s');
    }
  }

  lemma InitialInv(s: State)
    requires Init(s)
    ensures Inv(s)
  {
    CountZero(s.pc, Registered);
    CountZero(s.pc, Undoing);
    CountZero(s.pc, Asleep);
  }

  /** Main result: along every run, for any number of threads, units are conserved,
      the bound holds away from the limit, no wakeup is lost, no timeout is early. */
  lemma RunsAreSafe(run: seq<State>, k: nat)
    requires IsRun(Init, Next, run) && k < |run|
    ensures Inv(run[k])
  {
    forall s | Init(s) ensures Inv(s) {
      InitialInv(s);
    }
    forall s, s' | Inv(s) && Next(s, s') ensures Inv(s') {
      var t, e :| Step(s, t, e, s');
      StepKeepsInv(s, t, e, s');
    }
    InvariantHolds(Init, Next, Inv, run, k);
  }

  /** Away from the limit, the value is exactly what was put in less what was taken out. */
  lemma ExactAwayFromLimit(run: seq<State>, k: nat)
    requires IsRun(Init, Next, run) && k < |run| && !run[k].sem.overflowed
    ensures run[k].sem.value == run[k].sem.initial + run[k].sem.given - run[k].sem.taken
    ensures run[k].sem.value <= INT_MAX
  {
    RunsAreSafe(run, k);
  }

  /** A post that finds the limit has put its unit in already. */
  lemma FindingLimitExceedsIt(s: State, s': State)
    requires Next(s, s')
    ensures s.sem.overflowed ==> s'.sem.overflowed
    ensures !s.sem.overflowed && s'.sem.overflowed ==> s'.sem.value == INT_MAX + 1
  {
    var t, e :| Step(s, t, e, s');
  }

  /** Once a post has found the limit, the value has been beyond it. */
  lemma {:induction false} LimitWasExceeded(run: seq<State>, k: nat) returns (j: nat)
    requires IsRun(Init, Next, run) && k < |run| && run[k].sem.overflowed
    ensures j <= k && run[j].sem.value == INT_MAX + 1
  {
    assert k > 0;
    assert Next(run[k - 1], run[k - 1 + 1]);
    FindingLimitExceedsIt(run[k - 1], run[k]);
    if run[k - 1].sem.overflowed {
      j := LimitWasExceeded(run, k - 1);
    } else {
      j := k;
    }
  }

  lemma {:induction false} LimitNotYetFound(run: seq<State>, j: nat, k: nat)
    requires IsRun(Init, Next, run) && j <= k < |run| && !run[k].sem.overflowed
    ensures !run[j].sem.overflowed
    decreases k
  {
    if j < k {
      assert Next(run[k - 1], run[k - 1 + 1]);
      FindingLimitExceedsIt(run[k - 1], run[k]);
      LimitNotYetFound(run, j, k - 1);
    }
  }

  /** Main result: the value has kept within INT_MAX all along a run exactly when no
      post has come upon it at INT_MAX. */
  lemma BoundedUntilLimitIsFound(run: seq<State>, k: nat)
    requires IsRun(Init, Next, run) && k < |run|
    ensures (forall j :: 0 <= j <= k ==> run[j].sem.value <= INT_MAX) <==> !run[k].sem.overflowed
  {
    if run[k].sem.overflowed {
      var j := LimitWasExceeded(run, k);
    } else {
      forall j | 0 <= j <= k ensures run[j].sem.value <= INT_MAX {
        LimitNotYetFound(run, j, k);
        RunsAreSafe(run, j);
      }
    }
  }

  /** Nobody sleeps beside a free unit: when every thread is at rest, outside its
      calls or asleep, and somebody is asleep, the value is 0. */
  lemma SleepersMeanZero(s: State, t: Tid)
    requires Inv(s) && !s.sem.wrapped && t in s.pc && s.pc[t].Parked?
    requires forall u :: u in s.pc ==> s.pc[u].Idle? || s.pc[u].Parked?
    ensures s.sem.value == 0
  {
    CountZero(s.pc, Credit);
    CountZero(s.pc, Asleep);
  }

  /** The only steps that consume a unit are exchanges that end the call in success,
      and each consumes one. */
  lemma OnlySuccessTakes(s: State, t: Tid, e: Event, s': State)
    requires Step(s, t, e, s')
    ensures s'.sem.taken != s.sem.taken <==> !s.pc[t].Idle? && t in s'.pc && s'.pc[t] == Idle(Taken)
    ensures s'.sem.taken != s.sem.taken ==> s'.sem.taken == s.sem.taken + 1
  {
  }

  /** If it was thread `t` that stepped, it took no unit. */
  ghost predicate TakesNone(s: State, t: Tid, s': State) {
    forall e :: Step(s, t, e, s') ==> s'.sem.taken == s.sem.taken
  }

  lemma NoSuccessTakesNone(s: State, t: Tid, s': State)
    requires t in s'.pc && s'.pc[t] != Idle(Taken)
    ensures TakesNone(s, t, s')
  {
    forall e | Step(s, t, e, s') ensures s'.sem.taken == s.sem.taken {
      OnlySuccessTakes(s, t, e, s');
    }
  }

  /** Main result: over a whole call that ends in a timeout, from any moment inside it
      on, no step of the caller takes a unit, and its deadline has passed. */
  lemma TimeoutTakesNothing(run: seq<State>, i: nat, k: nat, t: Tid)
    requires IsRun(Init, Next, run) && i <= k < |run|
    requires forall j :: i <= j < k ==> t in run[j].pc && !run[j].pc[t].Idle?
    requires t in run[k].pc && run[k].pc[t].Idle? && run[k].pc[t].last.TimedOut?
    ensures forall j :: i <= j < k ==> TakesNone(run[j], t, run[j + 1])
    ensures Nanos(run[k].pc[t].last.deadline) <= run[k].sem.now
  {
    forall j | i <= j < k ensures TakesNone(run[j], t, run[j + 1]) {
      NoSuccessTakesNone(run[j], t, run[j + 1]);
    }
    RunsAreSafe(run, k);
    assert OnTime(run[k].sem.now, run[k].pc[t]);
  }

  // ---- What each call answers ----

  /** An attempt to take a unit: it is taken exactly if the exchange finds the value it
      expected; a 0 is refused to `sem_trywait` and makes the others go to wait; any
      other value is tried for anew. */
  lemma TakeAnswers(m: Shared, p: Pc, e: Event, m': Shared, p': Pc)
    requires Single(m, p, e, m', p') && (e.Move? || e.SpuriousFailure?) && (p.Load? || p.Swap?)
    ensures p' == Idle(Taken) <==> e.Move? && p.Swap? && m.value == p.seen && p.seen > 0
    ensures m'.value == m.value - One(p' == Idle(Taken)) && m'.waiters == m.waiters
    ensures p' == Idle(Again) <==> p.want == Try && m.value == 0
    ensures p' == Register(None, 0) <==> p.want == Wait(None) && m.value == 0
    ensures p'.Measure? <==> p.want.Wait? && p.want.deadline.Some? && m.value == 0
    ensures p'.Measure? ==> p.want.deadline == Some(p'.until)
    ensures p' == Swap(p.want, m.value) <==> m.value > 0 && p' != Idle(Taken)
  {
  }

  /** A wait gives up exactly when its deadline has come; otherwise it registers, with a
      timeout that ends at or after the deadline and less than a millisecond late, sleeps
      only on a value of 0, and afterwards tries again. */
  lemma WaitAnswers(m: Shared, p: Pc, m': Shared, p': Pc)
    requires Single(m, p, Move, m', p')
    ensures p.Measure? ==>
              && (p' == Idle(TimedOut(p.until)) <==> Nanos(p.until) <= m.now)
              && (Nanos(p.until) > m.now ==>
                    && p'.Register? && p'.deadline == Some(p.until)
                    && m.now + (p'.timeout - 1) * 1_000_000 < Nanos(p.until) <= m.now + p'.timeout * 1_000_000)
    ensures p.Register? ==> p' == Sleep(p.deadline, p.timeout) && m'.waiters == m.waiters + 1
    ensures p.Sleep? ==> (p'.Parked? <==> m.value == 0) && (m.value != 0 ==> p' == Unregister(p.deadline))
    ensures p.Sleep? && m.value == 0 && p.timeout > 0 ==> p' == Parked(p.deadline, Some(m.now + p.timeout * 1_000_000))
    ensures p.Unregister? ==> p' == Load(Wait(p.deadline)) && m'.waiters == m.waiters - 1
  {
    ClockIsRight(m.now);
    if p.Measure? {
      MillisRoundUp(ClockAt(m.now), p.until);
    }
  }

  /** A post is refused exactly when it finds INT_MAX, and then takes its unit back;
      otherwise it is given, and it wakes somebody exactly when somebody is registered. */
  lemma PostAnswers(m: Shared, p: Pc, m': Shared, p': Pc)
    requires Single(m, p, Move, m', p') && m.value < 0x1_0000_0000
    ensures p == Add ==>
              && m'.value == (m.value + 1) % 0x1_0000_0000
              && (p' == Undo <==> m.value == 0x7FFF_FFFF) && (p' == Look <==> m.value != 0x7FFF_FFFF)
              && m'.given == m.given + One(m.value != 0x7FFF_FFFF)
    ensures p == Undo ==> p' == Idle(Overflow) && m'.value == (m.value - 1) % 0x1_0000_0000
    ensures p == Look ==> m' == m && (p' == Wake <==> m.waiters != 0) && (p' == Idle(Given) <==> m.waiters == 0)
  {
  }

  /** A call starts; only a deadline with nanoseconds out of range is refused at once. */
  lemma StartAnswers(m: Shared, p: Pc, call: Call, m': Shared, p': Pc)
    requires Single(m, p, Start(call), m', p')
    ensures p' == Idle(Invalid) <==>
              call.TimedWait? && (call.deadline.nsec < 0 || call.deadline.nsec >= 1_000_000_000)
    ensures p' == Idle(Invalid) || During(p', call)
  {
  }

  /** Inside a call. A try never sleeps. */
  predicate During(p: Pc, call: Call) {
    match p
    case Idle(_) => false
    case Load(want) => Wants(call, want)
    case Swap(want, seen) => Wants(call, want) && seen > 0
    case Measure(until) => call == TimedWait(until)
    case Register(d, _) => Wants(call, Wait(d))
    case Sleep(d, _) => Wants(call, Wait(d))
    case Parked(d, _) => Wants(call, Wait(d))
    case Unregister(d) => Wants(call, Wait(d))
    case _ => call == Post
  }

  predicate Wants(call: Call, want: Want) {
    match call
    case TryWait => want == Try
    case WaitForever => want == Wait(None)
    case TimedWait(deadline) => want == Wait(Some(deadline))
    case Post => false
  }

  /** What a call may return. */
  predicate Answers(call: Call, r: Result) {
    match call
    case TryWait => r == Taken || r == Again
    case WaitForever => r == Taken
    case TimedWait(deadline) => r == Taken || r == TimedOut(deadline) || (r == Invalid && !WellFormed(deadline))
    case Post => r == Given || r == Overflow
  }

  predicate GoesOn(p: Pc, call: Call) {
    During(p, call) || (p.Idle? && Answers(call, p.last))
  }

  lemma SingleGoesOn(m: Shared, p: Pc, e: Event, m': Shared, p': Pc, call: Call)
    requires Single(m, p, e, m', p') && During(p, call)
    ensures GoesOn(p', call)
  {
  }

  lemma CallNext(s: State, s': State, t: Tid, call: Call)
    requires Next(s, s') && t in s.pc && During(s.pc[t], call)
    ensures t in s'.pc && GoesOn(s'.pc[t], call)
  {
    var u, e :| Step(s, u, e, s');
    if u == t && !e.WakeOne? {
      SingleGoesOn(s.sem, s.pc[t], e, s'.sem, s'.pc[t], call);
    }
  }

  /** Main result: over a whole run, a call answers only what is its own to answer: a
      wait without a deadline returns only with a unit, and a try is never put to sleep. */
  lemma {:induction false} CallsAnswer(run: seq<State>, i: nat, k: nat, t: Tid, call: Call)
    requires IsRun(Init, Next, run) && i < k < |run| && Step(run[i], t, Start(call), run[i + 1])
    requires forall j :: i < j < k ==> t in run[j].pc && !run[j].pc[t].Idle?
    ensures t in run[k].pc && GoesOn(run[k].pc[t], call)
    decreases k
  {
    assert t in run[i + 1].pc;
    StartAnswers(run[i].sem, run[i].pc[t], call, run[i + 1].sem, run[i + 1].pc[t]);
    hide Next, Step, During, Wants;
    if i + 1 < k {
      CallsAnswer(run, i, k - 1, t, call);
      assert Next(run[k - 1], run[k - 1 + 1]);
      CallNext(run[k - 1], run[k], t, call);
    }
  }

  /** At the limit the bound is lost: while one post is between finding INT_MAX and
      taking its unit back, a second post succeeds, and the value exceeds INT_MAX. */
  lemma OvershootAtLimit() returns (run: seq<State>)
    ensures IsRun(Init, Next, run)
    ensures var last := run[|run| - 1]; last.sem.value == INT_MAX + 2 && last.sem.given == 1 && !last.sem.wrapped
  {
    var m := Shared(INT_MAX, 0, 0, INT_MAX, 0, 0, false, false);
    var m1 := m.(value := INT_MAX + 1, overflowed := true);
    var s0 := State(m, map[0 := Idle(Fresh), 1 := Idle(Fresh)]);
    var s1 := State(m, map[0 := Add, 1 := Idle(Fresh)]);
    var s2 := State(m, map[0 := Add, 1 := Add]);
    var s3 := State(m1, map[0 := Undo, 1 := Add]);
    var s4 := State(m1.(value := INT_MAX + 2, given := 1), map[0 := Undo, 1 := Look]);
    assert Step(s0, 0, Start(Post), s1);
    assert Step(s1, 1, Start(Post), s2);
    assert Step(s2, 0, Move, s3);
    assert Step(s3, 1, Move, s4);
    run := [s0, s1, s2, s3, s4];
    assert forall i :: 0 <= i < |run| - 1 ==> Next(run[i], run[i + 1]);
  }
}
