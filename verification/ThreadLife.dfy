/** The life of thread control blocks: creation, exit, join, detach, and the
    lock-free list of detached threads that have exited, which the next
    creation sweeps. The heap holds exactly the blocks that are allocated; a
    freed address may be handed out again. */
module ThreadLife {
  import opened Runs
  import opened Options

  type Tid = nat   // a running thread
  type Id = nat    // the address of a control block
  type Value = int // what a thread function returns

  datatype Mode = Joinable | Detached | Exited

  /** History: who is responsible for a block at the moment. */
  datatype Place = Own | Listed | Reaping(who: Tid) | Holding(who: Tid)

  /** `place`, `claimed` (who has called join or detach on it) and `given` (the
      value passed to `finish`) are history. */
  datatype Block = Block(
    result: Option<Value>, done: bool, mode: Mode, next: Option<Id>, tlsFreed: bool,
    place: Place, claimed: Option<Tid>, given: Option<Value>)

  /** What a push onto the list is for: the pusher's own exit, or putting back a
      thread that the sweep found not quite gone, the rest of the sweep to follow. */
  datatype Back = ToExit | ToSweep(next: Option<Id>, rest: seq<Id>)

  /** `rest` is history: the blocks the pointer beside it leads through. */
  datatype Pc =
    | Run
    | Take                                                  // create: about to empty the list
    | Next(list: Option<Id>, rest: seq<Id>)                 // about to read the link of the first
    | Look(cur: Id, next: Option<Id>, rest: seq<Id>)        // about to load its `done`
    | FreeTls(cur: Id, next: Option<Id>, rest: seq<Id>)
    | FreeBlock(cur: Id, next: Option<Id>, rest: seq<Id>)
    | Create                                                // about to allocate and start a thread
    | PushLoad(cur: Id, back: Back)
    | PushLink(cur: Id, head: Option<Id>, back: Back)
    | PushSwap(cur: Id, head: Option<Id>, back: Back)
    | JoinTest(h: Id)
    | JoinLook(h: Id)
    | JoinSleep(h: Id)
    | JoinParked(h: Id)
    | JoinRead(h: Id)
    | JoinFreeTls(h: Id, read: Option<Value>)
    | JoinFree(h: Id, read: Option<Value>)
    | DetachSwap(h: Id)
    | Finish(value: Value)                                  // about to store the result
    | Exchange                                              // about to exchange EXITED into the mode
    | Done                                                  // about to store `done`
    | Wake(b: Id)                                           // about to wake the joiner
    | Gone

  datatype Actor = Actor(self: Id, pc: Pc)

  /** `list` is history: the blocks reached from `zombies`. */
  datatype State = State(heap: map<Id, Block>, zombies: Option<Id>, list: seq<Id>, actor: map<Tid, Actor>)

  datatype Event =
    | CallCreate | CallJoin(h: Id) | CallDetach(h: Id) | CallFinish(value: Value)
    | Move | Spawn(detached: bool, block: Id, tid: Tid) | SpawnFails | Spurious | WakeUp

  /** The main thread's block is static: it is never listed and never freed. */
  const MAIN: Id := 0

  function FreshBlock(mode: Mode, claimed: Option<Tid>): Block {
    Block(None, false, mode, None, false, Own, claimed, None)
  }

  ghost predicate Init(s: State) {
    && s.zombies == None && s.list == []
    && s.heap == map[MAIN := FreshBlock(Joinable, None)]
    && exists t: Tid :: s.actor == map[t := Actor(MAIN, Run)]
  }

  /** What POSIX asks of callers: each joinable thread gets at most one join or detach. */
  predicate MayClaim(heap: map<Id, Block>, h: Id) {
    h in heap && heap[h].claimed == None
  }

  /** The block whose fields the next step of a thread reads or writes. */
  function Touches(a: Actor): Option<Id> {
    match a.pc
    case Next(Some(b), _) => Some(b)
    case Look(cur, _, _) => Some(cur)
    case FreeTls(cur, _, _) => Some(cur)
    case FreeBlock(cur, _, _) => Some(cur)
    case PushLink(cur, _, _) => Some(cur)
    case JoinTest(h) => Some(h)
    case JoinLook(h) => Some(h)
    case JoinSleep(h) => Some(h)
    case JoinRead(h) => Some(h)
    case JoinFreeTls(h, _) => Some(h)
    case JoinFree(h, _) => Some(h)
    case DetachSwap(h) => Some(h)
    case Finish(_) => Some(a.self)
    case Exchange => Some(a.self)
    case Done => Some(a.self)
    case _ => None
  }

  predicate Allocated(heap: map<Id, Block>, a: Actor) {
    Touches(a).Some? ==> Touches(a).value in heap
  }

  function Pushed(cur: Id, back: Back): Pc {
    match back
    case ToExit => Done
    case ToSweep(next, rest) => Next(next, rest)
  }

  /** What one step does to the heap. */
  datatype HeapOp = Keep | Write(b: Id, x: Block) | Free(b: Id) | TakeAll

  /** What one step does to the list. */
  datatype ListOp = Same | Empty | Prepend(b: Id)

  datatype Effect = Effect(heap: HeapOp, list: ListOp, pc: Pc)

  function Quiet(p: Pc): Effect {
    Effect(Keep, Same, p)
  }

  /** The sweep of the list in `reap_zombies`, up to the pushes. */
  function SweepMove(heap: map<Id, Block>, zombies: Option<Id>, list: seq<Id>, t: Tid, a: Actor): Effect
    requires Allocated(heap, a)
  {
    match a.pc
    case Take => Effect(TakeAll, Empty, Next(zombies, list))
    case Next(None, _) => Quiet(Create)
    case Next(Some(b), rest) =>
      Effect(Write(b, heap[b].(place := Holding(t))), Same, Look(b, heap[b].next, if rest == [] then [] else rest[1..]))
    case Look(cur, next, rest) =>
      Quiet(if heap[cur].done then FreeTls(cur, next, rest) else PushLoad(cur, ToSweep(next, rest)))
    case FreeTls(cur, next, rest) => Effect(Write(cur, heap[cur].(tlsFreed := true)), Same, FreeBlock(cur, next, rest))
    case FreeBlock(cur, next, rest) => Effect(Free(cur), Same, Next(next, rest))
    case _ => Quiet(a.pc)
  }

  /** Pushing a block: load the head, link to it, swap it in if it is still the head. */
  function PushMove(heap: map<Id, Block>, zombies: Option<Id>, a: Actor): Effect
    requires Allocated(heap, a)
  {
    match a.pc
    case PushLoad(cur, back) => Quiet(PushLink(cur, zombies, back))
    case PushLink(cur, head, back) => Effect(Write(cur, heap[cur].(next := head)), Same, PushSwap(cur, head, back))
    case PushSwap(cur, head, back) =>
      if zombies == head && cur in heap then
        Effect(Write(cur, heap[cur].(place := Listed)), Prepend(cur), Pushed(cur, back))
      else Quiet(PushLoad(cur, back))
    case _ => Quiet(a.pc)
  }

  function JoinMove(heap: map<Id, Block>, a: Actor): Effect
    requires Allocated(heap, a)
  {
    match a.pc
    case JoinTest(h) => Quiet(if heap[h].mode == Detached then Run else JoinLook(h))
    case JoinLook(h) => Quiet(if heap[h].done then JoinRead(h) else JoinSleep(h))
    case JoinSleep(h) => Quiet(if heap[h].done then JoinLook(h) else JoinParked(h))
    case JoinRead(h) => Quiet(if h == MAIN then Run else JoinFreeTls(h, heap[h].result))
    case JoinFreeTls(h, v) => Effect(Write(h, heap[h].(tlsFreed := true)), Same, JoinFree(h, v))
    case JoinFree(h, v) => Effect(Free(h), Same, Run)
    case DetachSwap(h) =>
      if heap[h].mode == Joinable then Effect(Write(h, heap[h].(mode := Detached)), Same, Run)
      else if heap[h].mode == Detached then Quiet(Run)
      else Quiet(JoinTest(h))
    case _ => Quiet(a.pc)
  }

  function ExitMove(heap: map<Id, Block>, t: Tid, a: Actor): Effect
    requires Allocated(heap, a)
  {
    var self := a.self;
    match a.pc
    case Finish(v) => Effect(Write(self, heap[self].(result := Some(v))), Same, Exchange)
    case Exchange =>
      if heap[self].mode == Detached && self != MAIN then
        Effect(Write(self, heap[self].(mode := Exited, place := Holding(t))), Same, PushLoad(self, ToExit))
      else Effect(Write(self, heap[self].(mode := Exited)), Same, Done)
    case Done => Effect(Write(self, heap[self].(done := true)), Same, Wake(self))
    case _ => Quiet(a.pc)
  }

  predicate Sweeps(p: Pc) {
    p.Take? || p.Next? || p.Look? || p.FreeTls? || p.FreeBlock?
  }

  predicate Pushes(p: Pc) {
    p.PushLoad? || p.PushLink? || p.PushSwap?
  }

  predicate Joins(p: Pc) {
    p.JoinTest? || p.JoinLook? || p.JoinSleep? || p.JoinRead? || p.JoinFreeTls? || p.JoinFree? || p.DetachSwap?
  }

  predicate Exits(p: Pc) {
    p.Finish? || p.Exchange? || p.Done?
  }

  /** A step of one thread that starts no thread and wakes nobody. */
  predicate Single(heap: map<Id, Block>, zombies: Option<Id>, list: seq<Id>, t: Tid, a: Actor, e: Event, f: Effect) {
    match e
    case CallCreate => a.pc == Run && f == Quiet(Take)
    case CallJoin(h) =>
      // Joining oneself is refused; it does not count as the join.
      && a.pc == Run
      && if h == a.self then f == Quiet(Run)
         else MayClaim(heap, h) && f == Effect(Write(h, heap[h].(claimed := Some(t))), Same, JoinTest(h))
    case CallDetach(h) =>
      a.pc == Run && MayClaim(heap, h) && f == Effect(Write(h, heap[h].(claimed := Some(t))), Same, DetachSwap(h))
    case CallFinish(v) =>
      a.pc == Run && a.self in heap && f == Effect(Write(a.self, heap[a.self].(given := Some(v))), Same, Finish(v))
    case Move =>
      && Allocated(heap, a)
      && ((Sweeps(a.pc) && f == SweepMove(heap, zombies, list, t, a)) || (Pushes(a.pc) && f == PushMove(heap, zombies, a))
          || (Joins(a.pc) && f == JoinMove(heap, a)) || (Exits(a.pc) && f == ExitMove(heap, t, a)))
    case SpawnFails => a.pc == Create && f == Quiet(Run)
    case Spurious => a.pc.JoinParked? && f == Quiet(JoinLook(a.pc.h))
    case _ => false
  }

  function ApplyHeap(heap: map<Id, Block>, t: Tid, op: HeapOp): map<Id, Block> {
    match op
    case Keep => heap
    case Write(b, x) => heap[b := x]
    case Free(b) => heap - {b}
    case TakeAll => map b | b in heap :: if heap[b].place == Listed then heap[b].(place := Reaping(t)) else heap[b]
  }

  function Apply(s: State, t: Tid, f: Effect): State
    requires t in s.actor
  {
    var (zombies, list) := match f.list
                           case Same => (s.zombies, s.list)
                           case Empty => (None, [])
                           case Prepend(b) => (Some(b), [b] + s.list);
    State(ApplyHeap(s.heap, t, f.heap), zombies, list, s.actor[t := s.actor[t].(pc := f.pc)])
  }

  function WakeJoiners(actor: map<Tid, Actor>, b: Id): map<Tid, Actor> {
    map u | u in actor :: if actor[u].pc == JoinParked(b) then actor[u].(pc := JoinLook(b)) else actor[u]
  }

  ghost predicate Step(s: State, t: Tid, e: Event, s': State) {
    && t in s.actor
    && match e
       case Spawn(detached, b, u) =>
         && s.actor[t].pc == Create && b !in s.heap && u !in s.actor
         && s' == s.(heap := s.heap[b := if detached then FreshBlock(Detached, Some(t)) else FreshBlock(Joinable, None)],
                     actor := s.actor[t := s.actor[t].(pc := Run)][u := Actor(b, Run)])
       case WakeUp =>
         && s.actor[t].pc.Wake?
         && s' == s.(actor := WakeJoiners(s.actor[t := s.actor[t].(pc := Gone)], s.actor[t].pc.b))
       case _ => exists f :: Single(s.heap, s.zombies, s.list, t, s.actor[t], e, f) && s' == Apply(s, t, f)
  }

  ghost predicate NextState(s: State, s': State) {
    exists t, e :: Step(s, t, e, s')
  }

  // ---- Lists ----

  /** The pointer `head` leads through exactly the blocks of `l`. */
  ghost predicate Chain(heap: map<Id, Block>, head: Option<Id>, l: seq<Id>)
    decreases |l|
  {
    if l == [] then head == None
    else head == Some(l[0]) && l[0] in heap && Chain(heap, heap[l[0]].next, l[1..])
  }

  ghost predicate NoDup(l: seq<Id>) {
    forall i, j :: 0 <= i < j < |l| ==> l[i] != l[j]
  }

  /** A list all of whose blocks are in `place`. */
  ghost predicate ListAt(heap: map<Id, Block>, head: Option<Id>, l: seq<Id>, place: Place) {
    && Chain(heap, head, l) && NoDup(l)
    && forall b :: b in l ==> b in heap && heap[b].place == place
  }

  lemma {:induction false} ChainFrame(heap: map<Id, Block>, heap': map<Id, Block>, head: Option<Id>, l: seq<Id>)
    requires Chain(heap, head, l)
    requires forall b :: b in l && b in heap ==> b in heap' && heap'[b].next == heap[b].next
    ensures Chain(heap', head, l)
    decreases |l|
  {
    if l != [] {
      ChainFrame(heap, heap', heap[l[0]].next, l[1..]);
    }
  }

  /** Changing blocks elsewhere leaves a list as it is. */
  lemma ListFrame(heap: map<Id, Block>, heap': map<Id, Block>, head: Option<Id>, l: seq<Id>, place: Place)
    requires ListAt(heap, head, l, place)
    requires forall b :: b in heap && heap[b].place == place ==>
               b in heap' && heap'[b].next == heap[b].next && heap'[b].place == place
    ensures ListAt(heap', head, l, place)
  {
    ChainFrame(heap, heap', head, l);
  }

  // ---- The invariant ----

  /** Still a thread: its block and storage are in use. */
  predicate Live(p: Pc) {
    !p.Wake? && !p.Gone?
  }

  /** Has not yet exchanged EXITED into its mode. */
  predicate Running(p: Pc) {
    && Live(p) && !p.Done?
    && (Pushes(p) ==> p.back.ToSweep?)
  }

  /** The block a thread has in hand, taken from the list or to be put on it. */
  function InHand(p: Pc): Option<Id> {
    match p
    case Look(cur, _, _) => Some(cur)
    case FreeTls(cur, _, _) => Some(cur)
    case FreeBlock(cur, _, _) => Some(cur)
    case PushLoad(cur, _) => Some(cur)
    case PushLink(cur, _, _) => Some(cur)
    case PushSwap(cur, _, _) => Some(cur)
    case _ => None
  }

  /** The part of a taken list a thread still has to sweep. */
  function ToDo(p: Pc): (Option<Id>, seq<Id>) {
    match p
    case Next(list, rest) => (list, rest)
    case Look(_, next, rest) => (next, rest)
    case FreeTls(_, next, rest) => (next, rest)
    case FreeBlock(_, next, rest) => (next, rest)
    case PushLoad(_, ToSweep(next, rest)) => (next, rest)
    case PushLink(_, _, ToSweep(next, rest)) => (next, rest)
    case PushSwap(_, _, ToSweep(next, rest)) => (next, rest)
    case _ => (None, [])
  }

  /** The thread somebody is joining or detaching. */
  function Target(p: Pc): Option<Id> {
    match p
    case JoinTest(h) => Some(h)
    case JoinLook(h) => Some(h)
    case JoinSleep(h) => Some(h)
    case JoinParked(h) => Some(h)
    case JoinRead(h) => Some(h)
    case JoinFreeTls(h, _) => Some(h)
    case JoinFree(h, _) => Some(h)
    case DetachSwap(h) => Some(h)
    case _ => None
  }

  /** A live thread's own block is allocated, not done, its storage not freed. */
  ghost predicate SelfOk(heap: map<Id, Block>, t: Tid, a: Actor) {
    Live(a.pc) ==>
      && a.self in heap
      && var b := heap[a.self];
         && !b.done && !b.tlsFreed
         && (Running(a.pc) <==> b.mode != Exited)
         && (a.pc.Finish? ==> b.given == Some(a.pc.value))
         && (a.pc.Exchange? || !Running(a.pc) ==> b.given.Some? && b.result == b.given)
         && (Pushes(a.pc) && a.pc.back.ToExit? ==> a.pc.cur == a.self)
  }

  ghost predicate HandOk(heap: map<Id, Block>, t: Tid, p: Pc) {
    InHand(p).Some? ==>
      && InHand(p).value in heap
      && var b := heap[InHand(p).value];
         && b.place == Holding(t)
         && (p.FreeTls? || p.FreeBlock? ==> b.done)
         && (b.tlsFreed <==> p.FreeBlock?)
         && (p.PushSwap? ==> b.next == p.head)
  }

  ghost predicate SweepOk(heap: map<Id, Block>, t: Tid, a: Actor) {
    ListAt(heap, ToDo(a.pc).0, ToDo(a.pc).1, Reaping(t)) && HandOk(heap, t, a.pc)
  }

  ghost predicate JoinOk(heap: map<Id, Block>, t: Tid, a: Actor) {
    Target(a.pc).Some? ==>
      && Target(a.pc).value in heap
      && var b := heap[Target(a.pc).value];
         && b.claimed == Some(t) && b.place == Own && b.mode != Detached
         && (a.pc.JoinRead? || a.pc.JoinFreeTls? || a.pc.JoinFree? ==> b.done)
         && (b.tlsFreed <==> a.pc.JoinFree?)
         && (a.pc.JoinFreeTls? || a.pc.JoinFree? ==> a.pc.read == b.given && a.pc.h != MAIN)
  }

  /** What holds of every block by itself. */
  ghost predicate BlockSound(b: Id, x: Block) {
    && (x.done ==> x.mode == Exited && x.result == x.given)
    && (x.mode == Exited ==> x.given.Some?)
    && (x.tlsFreed ==> x.done)
    && (x.place != Own ==> x.mode == Exited && x.claimed.Some? && b != MAIN)
    && (x.mode == Detached ==> x.claimed.Some?)
    && (x.place == Listed || x.place.Reaping? ==> !x.tlsFreed)
    && (x.tlsFreed && x.place == Own ==> b != MAIN && x.claimed.Some?)
  }

  /** Somebody answers for the block. */
  ghost predicate BlockAnswered(list: seq<Id>, actor: map<Tid, Actor>, b: Id, x: Block) {
    // Every listed block is on the list, every block somebody took is with that somebody.
    && (x.place == Listed ==> b in list)
    && (x.place.Reaping? ==> x.place.who in actor && b in ToDo(actor[x.place.who].pc).1)
    && (x.place.Holding? ==> x.place.who in actor && InHand(actor[x.place.who].pc) == Some(b))
    // A thread that is not detached and on no list waits for its join, or somebody is at it.
    && (x.place == Own && b != MAIN && x.mode != Detached && x.claimed.Some? ==>
          x.claimed.value in actor && Target(actor[x.claimed.value].pc) == Some(b))
  }

  ghost predicate BlockOk(s: State, b: Id)
    requires b in s.heap
  {
    BlockSound(b, s.heap[b]) && BlockAnswered(s.list, s.actor, b, s.heap[b])
  }

  ghost predicate OneLife(s: State) {
    forall t, u :: t in s.actor && u in s.actor ==>
      (Live(s.actor[t].pc) && Live(s.actor[u].pc) && s.actor[t].self == s.actor[u].self ==> t == u)
  }

  /** A parked joiner's thread is not done, or its wake is on the way. */
  ghost predicate JoinerHasReason(s: State, t: Tid)
    requires t in s.actor
  {
    s.actor[t].pc.JoinParked? && s.actor[t].pc.h in s.heap && s.heap[s.actor[t].pc.h].done ==>
      exists u :: u in s.actor && s.actor[u].pc == Wake(s.actor[t].pc.h)
  }

  ghost predicate ActorOk(s: State, t: Tid)
    requires t in s.actor
  {
    SelfOk(s.heap, t, s.actor[t]) && SweepOk(s.heap, t, s.actor[t]) && JoinOk(s.heap, t, s.actor[t])
  }

  ghost predicate Inv(s: State) {
    && MAIN in s.heap
    && ListAt(s.heap, s.zombies, s.list, Listed)
    && OneLife(s)
    && (forall t :: t in s.actor ==> ActorOk(s, t) && JoinerHasReason(s, t))
    && forall b :: b in s.heap ==> BlockOk(s, b)
  }

  // ---- What one step may do to a block ----

  ghost predicate Fires(s: State, t: Tid, e: Event, f: Effect) {
    t in s.actor && Single(s.heap, s.zombies, s.list, t, s.actor[t], e, f)
  }

  /** A write respects who is responsible for the block: the running thread
      itself, the thread that has it in hand, or the one that claimed it. */
  ghost predicate FairWrite(x: Block, x': Block, t: Tid, own: bool, inHand: bool, target: bool) {
    && (x'.result != x.result || x'.given != x.given || x'.done != x.done ==> own)
    && (x.done ==> x'.done)
    && (x'.mode != x.mode ==>
          (own && x'.mode == Exited && !x'.done) || (target && x.mode == Joinable && x'.mode == Detached))
    && (x'.tlsFreed != x.tlsFreed ==> x.done && x'.tlsFreed && (inHand || target))
    && (x'.next != x.next ==> inHand)
    && (x'.place != x.place ==> (own && x.mode == Detached) || inHand || x.place == Reaping(t))
    && (x'.claimed != x.claimed ==> x.claimed == None && x'.claimed == Some(t))
  }

  lemma WritesAreFair(s: State, t: Tid, e: Event, f: Effect)
    requires Fires(s, t, e, f) && ActorOk(s, t) && f.heap.Write?
    ensures f.heap.b in s.heap
    ensures FairWrite(s.heap[f.heap.b], f.heap.x, t, Live(s.actor[t].pc) && f.heap.b == s.actor[t].self,
                      InHand(s.actor[t].pc) == Some(f.heap.b), Target(s.actor[t].pc) == Some(f.heap.b))
  {
  }

  lemma FreesAreDue(s: State, t: Tid, e: Event, f: Effect)
    requires Fires(s, t, e, f) && ActorOk(s, t) && f.heap.Free?
    ensures f.heap.b in s.heap && s.heap[f.heap.b].done && s.heap[f.heap.b].tlsFreed
    ensures InHand(s.actor[t].pc) == Some(f.heap.b) || (Target(s.actor[t].pc) == Some(f.heap.b) && f.heap.b != MAIN)
  {
  }

  // ---- Other threads keep what they rely on ----

  lemma OtherSelf(s: State, t: Tid, e: Event, f: Effect, u: Tid)
    requires Fires(s, t, e, f) && ActorOk(s, t) && u != t && u in s.actor && OneLife(s)
    requires SelfOk(s.heap, u, s.actor[u])
    ensures SelfOk(ApplyHeap(s.heap, t, f.heap), u, s.actor[u])
  {
    if f.heap.Write? {
      WritesAreFair(s, t, e, f);
    } else if f.heap.Free? {
      FreesAreDue(s, t, e, f);
    }
  }

  /** Blocks still to be swept by `u` are touched by nobody else, and by `u` only
      as it takes them off. */
  lemma ToDoUntouched(s: State, t: Tid, e: Event, f: Effect, u: Tid, b: Id)
    requires Fires(s, t, e, f) && ActorOk(s, t) && b in s.heap && BlockOk(s, b) && s.heap[b].place == Reaping(u)
    requires u != t || !s.actor[t].pc.Next?
    ensures b in ApplyHeap(s.heap, t, f.heap)
    ensures ApplyHeap(s.heap, t, f.heap)[b].next == s.heap[b].next
    ensures ApplyHeap(s.heap, t, f.heap)[b].place == s.heap[b].place
  {
    if f.heap.Write? {
      WritesAreFair(s, t, e, f);
    } else if f.heap.Free? {
      FreesAreDue(s, t, e, f);
    }
  }

  lemma ToDoKept(s: State, t: Tid, e: Event, f: Effect, u: Tid, list: Option<Id>, rest: seq<Id>)
    requires Fires(s, t, e, f) && ActorOk(s, t) && forall b :: b in s.heap ==> BlockOk(s, b)
    requires u != t || !s.actor[t].pc.Next?
    requires ListAt(s.heap, list, rest, Reaping(u))
    ensures ListAt(ApplyHeap(s.heap, t, f.heap), list, rest, Reaping(u))
  {
    forall b | b in s.heap && s.heap[b].place == Reaping(u)
      ensures b in ApplyHeap(s.heap, t, f.heap) && ApplyHeap(s.heap, t, f.heap)[b].next == s.heap[b].next
      ensures ApplyHeap(s.heap, t, f.heap)[b].place == s.heap[b].place
    {
      ToDoUntouched(s, t, e, f, u, b);
    }
    ListFrame(s.heap, ApplyHeap(s.heap, t, f.heap), list, rest, Reaping(u));
  }

  lemma OtherSweep(s: State, t: Tid, e: Event, f: Effect, u: Tid)
    requires Fires(s, t, e, f) && ActorOk(s, t) && u != t && u in s.actor
    requires forall b :: b in s.heap ==> BlockOk(s, b)
    requires SweepOk(s.heap, u, s.actor[u])
    ensures SweepOk(ApplyHeap(s.heap, t, f.heap), u, s.actor[u])
  {
    ToDoKept(s, t, e, f, u, ToDo(s.actor[u].pc).0, ToDo(s.actor[u].pc).1);
    if InHand(s.actor[u].pc).Some? {
      assert BlockOk(s, InHand(s.actor[u].pc).value);
      if f.heap.Write? {
        WritesAreFair(s, t, e, f);
      } else if f.heap.Free? {
        FreesAreDue(s, t, e, f);
      }
    }
  }

  lemma OtherJoin(s: State, t: Tid, e: Event, f: Effect, u: Tid)
    requires Fires(s, t, e, f) && ActorOk(s, t) && u != t && u in s.actor
    requires JoinOk(s.heap, u, s.actor[u])
    ensures JoinOk(ApplyHeap(s.heap, t, f.heap), u, s.actor[u])
  {
    if f.heap.Write? {
      WritesAreFair(s, t, e, f);
    } else if f.heap.Free? {
      FreesAreDue(s, t, e, f);
    }
  }

  // ---- The moving thread keeps what it relies on ----

  lemma MySelfExits(s: State, t: Tid, e: Event, f: Effect)
    requires Fires(s, t, e, f) && SelfOk(s.heap, t, s.actor[t]) && Exits(s.actor[t].pc)
    ensures SelfOk(ApplyHeap(s.heap, t, f.heap), t, s.actor[t].(pc := f.pc))
  {
  }

  lemma MySelfPushes(s: State, t: Tid, e: Event, f: Effect)
    requires Fires(s, t, e, f) && SelfOk(s.heap, t, s.actor[t]) && Pushes(s.actor[t].pc)
    ensures SelfOk(ApplyHeap(s.heap, t, f.heap), t, s.actor[t].(pc := f.pc))
  {
  }

  lemma MySelfSweeps(s: State, t: Tid, e: Event, f: Effect)
    requires Fires(s, t, e, f) && ActorOk(s, t) && Sweeps(s.actor[t].pc)
    ensures SelfOk(ApplyHeap(s.heap, t, f.heap), t, s.actor[t].(pc := f.pc))
  {
  }

  lemma MySelfJoins(s: State, t: Tid, e: Event, f: Effect)
    requires Fires(s, t, e, f) && ActorOk(s, t) && Joins(s.actor[t].pc)
    ensures SelfOk(ApplyHeap(s.heap, t, f.heap), t, s.actor[t].(pc := f.pc))
  {
  }

  lemma MySelf(s: State, t: Tid, e: Event, f: Effect)
    requires Fires(s, t, e, f) && ActorOk(s, t)
    ensures SelfOk(ApplyHeap(s.heap, t, f.heap), t, s.actor[t].(pc := f.pc))
  {
    if Exits(s.actor[t].pc) {
      MySelfExits(s, t, e, f);
    } else if Pushes(s.actor[t].pc) {
      MySelfPushes(s, t, e, f);
    } else if Sweeps(s.actor[t].pc) {
      MySelfSweeps(s, t, e, f);
    } else if Joins(s.actor[t].pc) {
      MySelfJoins(s, t, e, f);
    }
  }

  lemma MySweepTake(s: State, t: Tid, e: Event, f: Effect)
    requires Fires(s, t, e, f) && s.actor[t].pc.Take? && ListAt(s.heap, s.zombies, s.list, Listed)
    ensures SweepOk(ApplyHeap(s.heap, t, f.heap), t, s.actor[t].(pc := f.pc))
  {
    ChainFrame(s.heap, ApplyHeap(s.heap, t, f.heap), s.zombies, s.list);
  }

  /** Taking the first block off leaves a list of the others. */
  lemma ListTail(heap: map<Id, Block>, head: Option<Id>, l: seq<Id>, place: Place)
    requires ListAt(heap, head, l, place) && l != []
    ensures head == Some(l[0]) && l[0] in heap && heap[l[0]].place == place
    ensures ListAt(heap, heap[l[0]].next, l[1..], place) && l[0] !in l[1..]
  {
    assert forall b :: b in l[1..] ==> b in l;
  }

  lemma MySweepNext(s: State, t: Tid, e: Event, f: Effect)
    requires Fires(s, t, e, f) && SweepOk(s.heap, t, s.actor[t]) && s.actor[t].pc.Next?
    requires forall b :: b in s.heap ==> BlockOk(s, b)
    ensures SweepOk(ApplyHeap(s.heap, t, f.heap), t, s.actor[t].(pc := f.pc))
  {
    var (list, rest) := ToDo(s.actor[t].pc);
    if list.Some? {
      assert rest != [] && e.Move?;
      ListTail(s.heap, list, rest, Reaping(t));
      ChainFrame(s.heap, ApplyHeap(s.heap, t, f.heap), s.heap[rest[0]].next, rest[1..]);
    }
  }

  lemma MyHandSweeps(s: State, t: Tid, e: Event, f: Effect)
    requires Fires(s, t, e, f) && ActorOk(s, t) && Sweeps(s.actor[t].pc) && !s.actor[t].pc.Next?
    ensures HandOk(ApplyHeap(s.heap, t, f.heap), t, f.pc)
  {
  }

  lemma MyHandPushes(s: State, t: Tid, e: Event, f: Effect)
    requires Fires(s, t, e, f) && ActorOk(s, t) && Pushes(s.actor[t].pc)
    ensures HandOk(ApplyHeap(s.heap, t, f.heap), t, f.pc)
  {
  }

  lemma MyHand(s: State, t: Tid, e: Event, f: Effect)
    requires Fires(s, t, e, f) && ActorOk(s, t) && !s.actor[t].pc.Next?
    ensures HandOk(ApplyHeap(s.heap, t, f.heap), t, f.pc)
  {
    if Sweeps(s.actor[t].pc) {
      MyHandSweeps(s, t, e, f);
    } else if Pushes(s.actor[t].pc) {
      MyHandPushes(s, t, e, f);
    }
  }

  lemma SameToDo(s: State, t: Tid, e: Event, f: Effect)
    requires Fires(s, t, e, f) && !s.actor[t].pc.Take? && !s.actor[t].pc.Next?
    ensures ToDo(f.pc) == ToDo(s.actor[t].pc)
  {
  }

  lemma MySweep(s: State, t: Tid, e: Event, f: Effect)
    requires Fires(s, t, e, f) && ActorOk(s, t) && ListAt(s.heap, s.zombies, s.list, Listed)
    requires forall b :: b in s.heap ==> BlockOk(s, b)
    ensures SweepOk(ApplyHeap(s.heap, t, f.heap), t, s.actor[t].(pc := f.pc))
  {
    if s.actor[t].pc.Take? {
      MySweepTake(s, t, e, f);
    } else if s.actor[t].pc.Next? {
      MySweepNext(s, t, e, f);
    } else {
      SameToDo(s, t, e, f);
      ToDoKept(s, t, e, f, t, ToDo(f.pc).0, ToDo(f.pc).1);
      MyHand(s, t, e, f);
    }
  }

  lemma MyJoinMoves(s: State, t: Tid, e: Event, f: Effect)
    requires Fires(s, t, e, f) && ActorOk(s, t) && Joins(s.actor[t].pc)
    requires Target(s.actor[t].pc).Some? && Target(s.actor[t].pc).value in s.heap ==> BlockSound(Target(s.actor[t].pc).value, s.heap[Target(s.actor[t].pc).value])
    ensures JoinOk(ApplyHeap(s.heap, t, f.heap), t, s.actor[t].(pc := f.pc))
  {
    hide SelfOk, SweepOk, SweepMove, PushMove, ExitMove;
  }

  lemma MyJoin(s: State, t: Tid, e: Event, f: Effect)
    requires Fires(s, t, e, f) && ActorOk(s, t)
    requires forall b :: b in s.heap ==> BlockOk(s, b)
    ensures JoinOk(ApplyHeap(s.heap, t, f.heap), t, s.actor[t].(pc := f.pc))
  {
    hide SelfOk, SweepOk;
    if Joins(s.actor[t].pc) {
      var h := Target(s.actor[t].pc);
      assert h.Some? && h.value in s.heap ==> BlockOk(s, h.value);
      MyJoinMoves(s, t, e, f);
    }
  }

  // ---- The list and the blocks ----

  lemma ListedUntouched(s: State, t: Tid, e: Event, f: Effect, b: Id)
    requires Fires(s, t, e, f) && ActorOk(s, t) && b in s.heap && BlockOk(s, b) && s.heap[b].place == Listed
    requires !f.heap.TakeAll?
    ensures b in ApplyHeap(s.heap, t, f.heap)
    ensures ApplyHeap(s.heap, t, f.heap)[b].next == s.heap[b].next
    ensures ApplyHeap(s.heap, t, f.heap)[b].place == s.heap[b].place
  {
    if f.heap.Write? {
      WritesAreFair(s, t, e, f);
    } else if f.heap.Free? {
      FreesAreDue(s, t, e, f);
    }
  }

  lemma PushKeepsList(s: State, t: Tid, e: Event, f: Effect)
    requires Fires(s, t, e, f) && ActorOk(s, t) && f.list.Prepend?
    requires ListAt(ApplyHeap(s.heap, t, f.heap), s.zombies, s.list, Listed) && ListAt(s.heap, s.zombies, s.list, Listed)
    ensures ListAt(ApplyHeap(s.heap, t, f.heap), Some(f.list.b), [f.list.b] + s.list, Listed)
  {
    hide SelfOk, JoinOk;
    var l := [f.list.b] + s.list;
    assert l[1..] == s.list && f.list.b !in s.list;
  }

  lemma ListedKept(s: State, t: Tid, e: Event, f: Effect)
    requires Fires(s, t, e, f) && ActorOk(s, t) && ListAt(s.heap, s.zombies, s.list, Listed)
    requires !f.heap.TakeAll? && forall b :: b in s.heap ==> BlockOk(s, b)
    ensures ListAt(ApplyHeap(s.heap, t, f.heap), s.zombies, s.list, Listed)
  {
    forall b | b in s.heap && s.heap[b].place == Listed
      ensures b in ApplyHeap(s.heap, t, f.heap) && ApplyHeap(s.heap, t, f.heap)[b].next == s.heap[b].next
      ensures ApplyHeap(s.heap, t, f.heap)[b].place == s.heap[b].place
    {
      ListedUntouched(s, t, e, f, b);
    }
    ListFrame(s.heap, ApplyHeap(s.heap, t, f.heap), s.zombies, s.list, Listed);
  }

  lemma TakesWhole(s: State, t: Tid, e: Event, f: Effect)
    requires Fires(s, t, e, f)
    ensures f.heap.TakeAll? <==> f.list.Empty?
    ensures f.list.Prepend? ==> f.heap == Write(f.list.b, f.heap.x) && f.heap.x.place == Listed
  {
  }

  lemma ListKept(s: State, t: Tid, e: Event, f: Effect)
    requires Fires(s, t, e, f) && ActorOk(s, t) && ListAt(s.heap, s.zombies, s.list, Listed)
    requires forall b :: b in s.heap ==> BlockOk(s, b)
    ensures ListAt(Apply(s, t, f).heap, Apply(s, t, f).zombies, Apply(s, t, f).list, Listed)
  {
    TakesWhole(s, t, e, f);
    if !f.heap.TakeAll? {
      ListedKept(s, t, e, f);
      if f.list.Prepend? {
        PushKeepsList(s, t, e, f);
      }
    }
  }

  lemma ExitKeepsSound(s: State, t: Tid, f: Effect)
    requires Fires(s, t, Move, f) && ActorOk(s, t) && f.heap.Write? && f.heap.b in s.heap && Exits(s.actor[t].pc)
    requires BlockSound(f.heap.b, s.heap[f.heap.b])
    ensures BlockSound(f.heap.b, f.heap.x)
  {
    hide SweepOk, JoinOk, SweepMove, PushMove, JoinMove;
  }

  lemma SweepKeepsSound(s: State, t: Tid, f: Effect)
    requires Fires(s, t, Move, f) && ActorOk(s, t) && f.heap.Write? && f.heap.b in s.heap
    requires Sweeps(s.actor[t].pc) || Pushes(s.actor[t].pc)
    requires BlockSound(f.heap.b, s.heap[f.heap.b])
    ensures BlockSound(f.heap.b, f.heap.x)
  {
    hide JoinOk, JoinMove, ExitMove;
  }

  lemma WriteKeepsSound(s: State, t: Tid, e: Event, f: Effect)
    requires Fires(s, t, e, f) && ActorOk(s, t) && f.heap.Write? && f.heap.b in s.heap
    requires BlockSound(f.heap.b, s.heap[f.heap.b])
    ensures BlockSound(f.heap.b, f.heap.x)
  {
    hide SweepOk, SweepMove, PushMove, ExitMove;
    if e.Move? && Exits(s.actor[t].pc) {
      ExitKeepsSound(s, t, f);
    } else if e.Move? && (Sweeps(s.actor[t].pc) || Pushes(s.actor[t].pc)) {
      SweepKeepsSound(s, t, f);
    }
  }

  /** A block leaves a thread's sweep only into its hand. */
  lemma ToDoPasses(s: State, t: Tid, e: Event, f: Effect, b: Id)
    requires Fires(s, t, e, f) && ActorOk(s, t)
    requires b in ToDo(s.actor[t].pc).1 && b !in ToDo(f.pc).1
    ensures f.heap.Write? && f.heap.b == b && f.heap.x.place == Holding(t)
  {
    if !s.actor[t].pc.Next? {
      if !s.actor[t].pc.Take? {
        SameToDo(s, t, e, f);
      }
    } else {
      assert e.Move?;
    }
  }

  /** A block leaves a thread's hand only freed or onto the list. */
  lemma HandPasses(s: State, t: Tid, e: Event, f: Effect, b: Id)
    requires Fires(s, t, e, f) && ActorOk(s, t) && InHand(s.actor[t].pc) == Some(b) && InHand(f.pc) != Some(b)
    ensures f.heap == Free(b) || (f.heap.Write? && f.heap.b == b && f.heap.x.place == Listed)
  {
  }

  /** A join or detach ends with the block freed, or detached and its thread still running. */
  lemma TargetPasses(s: State, t: Tid, e: Event, f: Effect, b: Id)
    requires Fires(s, t, e, f) && ActorOk(s, t) && Target(s.actor[t].pc) == Some(b) && Target(f.pc) != Some(b)
    ensures f.heap == Free(b) || b == MAIN || (f.heap.Write? && f.heap.b == b && f.heap.x.mode == Detached)
  {
  }

  /** After a write somebody answers for the block written. */
  lemma WriteAnswered(s: State, t: Tid, e: Event, f: Effect)
    requires Fires(s, t, e, f) && ActorOk(s, t) && f.heap.Write? && f.heap.b in s.heap && BlockOk(s, f.heap.b)
    ensures BlockAnswered(Apply(s, t, f).list, Apply(s, t, f).actor, f.heap.b, f.heap.x)
  {
    var b, x, x' := f.heap.b, s.heap[f.heap.b], f.heap.x;
    WritesAreFair(s, t, e, f);
    TakesWhole(s, t, e, f);
    if x'.place != x.place {
      PlaceMoves(s, t, e, f);
    } else if x.place == Reaping(t) && b !in ToDo(f.pc).1 {
      ToDoPasses(s, t, e, f, b);
    } else if x.place == Holding(t) && InHand(f.pc) != Some(b) {
      HandPasses(s, t, e, f, b);
    } else if x.place == Own && Target(s.actor[t].pc) == Some(b) && Target(f.pc) != Some(b) {
      TargetPasses(s, t, e, f, b);
    } else {
      ClaimAnswered(s, t, e, f);
    }
  }

  lemma PlaceMoves(s: State, t: Tid, e: Event, f: Effect)
    requires Fires(s, t, e, f) && f.heap.Write? && f.heap.b in s.heap && f.heap.x.place != s.heap[f.heap.b].place
    ensures (f.heap.x.place == Holding(t) && InHand(f.pc) == Some(f.heap.b))
         || (f.heap.x.place == Listed && f.list == Prepend(f.heap.b))
  {
  }

  lemma NewClaimTargets(s: State, t: Tid, e: Event, f: Effect)
    requires Fires(s, t, e, f) && f.heap.Write? && f.heap.b in s.heap
    requires f.heap.x.claimed != s.heap[f.heap.b].claimed
    ensures f.heap.x.claimed == Some(t) && Target(f.pc) == Some(f.heap.b)
  {
  }

  lemma ModeMoves(s: State, t: Tid, e: Event, f: Effect)
    requires Fires(s, t, e, f) && f.heap.Write? && f.heap.b in s.heap
    requires f.heap.x.mode != Detached && f.heap.x.mode != s.heap[f.heap.b].mode
    ensures f.heap.x.place == Holding(t) || s.heap[f.heap.b].mode == Joinable || f.heap.b == MAIN
  {
  }

  lemma ClaimAnswered(s: State, t: Tid, e: Event, f: Effect)
    requires Fires(s, t, e, f) && f.heap.Write? && f.heap.b in s.heap
    ensures f.heap.x.claimed != s.heap[f.heap.b].claimed ==>
              f.heap.x.claimed == Some(t) && Target(f.pc) == Some(f.heap.b)
    ensures f.heap.x.mode != Detached && f.heap.x.mode != s.heap[f.heap.b].mode ==>
              f.heap.x.place == Holding(t) || s.heap[f.heap.b].mode == Joinable || f.heap.b == MAIN
  {
    hide Single;
    if f.heap.x.claimed != s.heap[f.heap.b].claimed {
      NewClaimTargets(s, t, e, f);
    }
    if f.heap.x.mode != Detached && f.heap.x.mode != s.heap[f.heap.b].mode {
      ModeMoves(s, t, e, f);
    }
  }

  /** A block that is not written keeps whoever answers for it. */
  lemma OthersAnswered(s: State, t: Tid, e: Event, f: Effect, b: Id)
    requires Fires(s, t, e, f) && ActorOk(s, t) && b in s.heap && BlockOk(s, b)
    requires !(f.heap.Write? && f.heap.b == b) && f.heap != Free(b) && !f.heap.TakeAll?
    ensures BlockAnswered(Apply(s, t, f).list, Apply(s, t, f).actor, b, s.heap[b])
  {
    var x := s.heap[b];
    TakesWhole(s, t, e, f);
    if x.place == Reaping(t) && b !in ToDo(f.pc).1 {
      ToDoPasses(s, t, e, f, b);
    } else if x.place == Holding(t) && InHand(f.pc) != Some(b) {
      HandPasses(s, t, e, f, b);
    } else if Target(s.actor[t].pc) == Some(b) && Target(f.pc) != Some(b) {
      TargetPasses(s, t, e, f, b);
    }
  }

  lemma TakenAnswered(s: State, t: Tid, e: Event, f: Effect, b: Id)
    requires Fires(s, t, e, f) && b in s.heap && BlockOk(s, b) && f.heap.TakeAll?
    ensures var x' := ApplyHeap(s.heap, t, f.heap)[b];
            BlockSound(b, x') && BlockAnswered(Apply(s, t, f).list, Apply(s, t, f).actor, b, x')
  {
  }

  /** Responsibility is passed on, never dropped. */
  lemma BlockKept(s: State, t: Tid, e: Event, f: Effect, b: Id)
    requires Fires(s, t, e, f) && ActorOk(s, t) && b in s.heap && BlockOk(s, b) && b in Apply(s, t, f).heap
    ensures BlockOk(Apply(s, t, f), b)
  {
    if f.heap.TakeAll? {
      TakenAnswered(s, t, e, f, b);
    } else if f.heap.Write? && f.heap.b == b {
      WriteKeepsSound(s, t, e, f);
      WriteAnswered(s, t, e, f);
    } else {
      OthersAnswered(s, t, e, f, b);
    }
  }

  // ---- Every step ----

  lemma SingleKeepsInv(s: State, t: Tid, e: Event, f: Effect)
    requires Inv(s) && Fires(s, t, e, f)
    ensures Inv(Apply(s, t, f))
  {
    hide BlockOk, JoinerHasReason, SelfOk, SweepOk, JoinOk, Single;
    var s' := Apply(s, t, f);
    assert ActorOk(s, t);
    ListKept(s, t, e, f);
    forall b | b in s'.heap ensures BlockOk(s', b) {
      SingleAllocatesNothing(s, t, e, f, b);
      BlockKept(s, t, e, f, b);
    }
    SingleIsLive(s, t, e, f);
    forall u | u in s'.actor ensures ActorOk(s', u) {
      if u == t {
        MySelf(s, t, e, f);
        MySweep(s, t, e, f);
        MyJoin(s, t, e, f);
      } else {
        assert ActorOk(s, u);
        OtherSelf(s, t, e, f, u);
        OtherSweep(s, t, e, f, u);
        OtherJoin(s, t, e, f, u);
      }
    }
    forall u | u in s'.actor ensures JoinerHasReason(s', u) {
      JoinerKept(s, t, e, f, u);
    }
  }

  lemma SingleIsLive(s: State, t: Tid, e: Event, f: Effect)
    requires Fires(s, t, e, f) && ActorOk(s, t)
    ensures Live(s.actor[t].pc)
    ensures MAIN in s.heap && BlockOk(s, MAIN) ==> MAIN in Apply(s, t, f).heap
  {
  }

  lemma SingleAllocatesNothing(s: State, t: Tid, e: Event, f: Effect, b: Id)
    requires Fires(s, t, e, f) && ActorOk(s, t) && b in Apply(s, t, f).heap
    ensures b in s.heap
  {
    if f.heap.Write? {
      WritesAreFair(s, t, e, f);
    }
  }

  lemma JoinerKept(s: State, t: Tid, e: Event, f: Effect, u: Tid)
    requires Fires(s, t, e, f) && ActorOk(s, t) && u in s.actor && ActorOk(s, u) && JoinerHasReason(s, u)
    ensures JoinerHasReason(Apply(s, t, f), u)
  {
    var s' := Apply(s, t, f);
    if s'.actor[u].pc.JoinParked? && s'.actor[u].pc.h in s'.heap && s'.heap[s'.actor[u].pc.h].done {
      var h := s'.actor[u].pc.h;
      if !(h in s.heap && s.heap[h].done) {
        DoneIsAnnounced(s, t, e, f, h);
      }
      if s'.actor[t].pc != Wake(h) {
        if u == t {
          ParksOnRunning(s, t, e, f);
        }
        var v :| v in s.actor && s.actor[v].pc == Wake(h);
        SingleIsLive(s, t, e, f);
        assert s'.actor[v].pc == Wake(h);
      }
    }
  }

  lemma DoneIsAnnounced(s: State, t: Tid, e: Event, f: Effect, h: Id)
    requires Fires(s, t, e, f) && ActorOk(s, t) && h in ApplyHeap(s.heap, t, f.heap)
    requires ApplyHeap(s.heap, t, f.heap)[h].done && !(h in s.heap && s.heap[h].done)
    ensures f.pc == Wake(h)
  {
    if f.heap.Write? {
      WritesAreFair(s, t, e, f);
    }
  }

  lemma ParksOnRunning(s: State, t: Tid, e: Event, f: Effect)
    requires Fires(s, t, e, f) && ActorOk(s, t) && f.pc.JoinParked?
    ensures f.heap == Keep && f.pc.h in s.heap && !s.heap[f.pc.h].done
  {
  }

  lemma SpawnKeepsBlocks(s: State, t: Tid, detached: bool, b: Id, u: Tid, s': State, c: Id)
    requires Inv(s) && Step(s, t, Spawn(detached, b, u), s') && c in s'.heap
    ensures BlockOk(s', c)
  {
    hide ActorOk, JoinerHasReason, OneLife, ListAt;
    if c != b {
      assert BlockOk(s, c);
    }
  }

  /** A new block disturbs nobody. */
  lemma NewBlockDisturbsNobody(heap: map<Id, Block>, b: Id, x: Block, v: Tid, a: Actor)
    requires b !in heap && SelfOk(heap, v, a) && SweepOk(heap, v, a) && JoinOk(heap, v, a)
    ensures SelfOk(heap[b := x], v, a) && SweepOk(heap[b := x], v, a) && JoinOk(heap[b := x], v, a)
  {
    ListFrame(heap, heap[b := x], ToDo(a.pc).0, ToDo(a.pc).1, Reaping(v));
  }

  lemma CreatorRuns(heap: map<Id, Block>, t: Tid, a: Actor)
    requires a.pc == Create && SelfOk(heap, t, a)
    ensures SelfOk(heap, t, a.(pc := Run)) && SweepOk(heap, t, a.(pc := Run)) && JoinOk(heap, t, a.(pc := Run))
  {
  }

  lemma NewcomerRuns(heap: map<Id, Block>, u: Tid, b: Id, mode: Mode, claimed: Option<Tid>)
    requires b in heap && heap[b] == FreshBlock(mode, claimed) && mode != Exited
    ensures SelfOk(heap, u, Actor(b, Run)) && SweepOk(heap, u, Actor(b, Run)) && JoinOk(heap, u, Actor(b, Run))
  {
  }

  lemma SpawnKeepsActors(s: State, t: Tid, detached: bool, b: Id, u: Tid, s': State, v: Tid)
    requires Inv(s) && Step(s, t, Spawn(detached, b, u), s') && v in s'.actor
    ensures ActorOk(s', v)
  {
    hide BlockOk, JoinerHasReason, OneLife, SelfOk, SweepOk, JoinOk, ListAt;
    if v == u {
      NewcomerRuns(s'.heap, u, b, if detached then Detached else Joinable, if detached then Some(t) else None);
    } else {
      assert ActorOk(s, v);
      NewBlockDisturbsNobody(s.heap, b, s'.heap[b], v, s.actor[v]);
      if v == t {
        CreatorRuns(s'.heap, t, s.actor[t]);
      }
    }
  }

  lemma SpawnKeepsJoiner(s: State, t: Tid, detached: bool, b: Id, u: Tid, s': State, v: Tid)
    requires Step(s, t, Spawn(detached, b, u), s') && v in s'.actor
    requires v in s.actor ==> JoinerHasReason(s, v)
    ensures JoinerHasReason(s', v)
  {
    if s'.actor[v].pc.JoinParked? {
      assert v in s.actor && s.actor[v].pc == s'.actor[v].pc;
      if w :| w in s.actor && s.actor[w].pc == Wake(s.actor[v].pc.h) {
        assert s'.actor[w].pc == s.actor[w].pc;
      }
    }
  }

  lemma SpawnKeepsOneLife(s: State, t: Tid, detached: bool, b: Id, u: Tid, s': State, v: Tid, w: Tid)
    requires Step(s, t, Spawn(detached, b, u), s') && OneLife(s) && v in s'.actor && w in s'.actor
    requires forall a :: a in s.actor ==> SelfOk(s.heap, a, s.actor[a])
    requires Live(s'.actor[v].pc) && Live(s'.actor[w].pc) && s'.actor[v].self == s'.actor[w].self
    ensures v == w
  {
  }

  lemma AllSelvesOk(s: State)
    requires Inv(s)
    ensures forall a :: a in s.actor ==> SelfOk(s.heap, a, s.actor[a])
  {
    hide SelfOk;
    assert forall a :: a in s.actor ==> ActorOk(s, a);
  }

  lemma SpawnKeepsInv(s: State, t: Tid, detached: bool, b: Id, u: Tid, s': State)
    requires Inv(s) && Step(s, t, Spawn(detached, b, u), s')
    ensures Inv(s')
  {
    hide BlockOk, ActorOk, JoinerHasReason;
    forall c | c in s'.heap ensures BlockOk(s', c) {
      SpawnKeepsBlocks(s, t, detached, b, u, s', c);
    }
    ListFrame(s.heap, s'.heap, s.zombies, s.list, Listed);
    forall v | v in s'.actor ensures ActorOk(s', v) && JoinerHasReason(s', v) {
      SpawnKeepsActors(s, t, detached, b, u, s', v);
      SpawnKeepsJoiner(s, t, detached, b, u, s', v);
    }
    AllSelvesOk(s);
    forall v, w | v in s'.actor && w in s'.actor
                  && Live(s'.actor[v].pc) && Live(s'.actor[w].pc) && s'.actor[v].self == s'.actor[w].self
      ensures v == w
    {
      SpawnKeepsOneLife(s, t, detached, b, u, s', v, w);
    }
  }

  lemma WakeUpKeepsActor(s: State, t: Tid, s': State, v: Tid)
    requires Step(s, t, WakeUp, s') && v in s'.actor && ActorOk(s, v)
    ensures ActorOk(s', v)
  {
  }

  lemma WakeUpKeepsJoiner(s: State, t: Tid, s': State, v: Tid)
    requires Step(s, t, WakeUp, s') && v in s'.actor && JoinerHasReason(s, v)
    ensures JoinerHasReason(s', v)
  {
    if s'.actor[v].pc.JoinParked? {
      assert s'.actor[v].pc == s.actor[v].pc;
      if w :| w in s.actor && s.actor[w].pc == Wake(s.actor[v].pc.h) {
        assert s'.actor[w].pc == s.actor[w].pc;
      }
    }
  }

  lemma WakeUpKeepsBlock(s: State, t: Tid, s': State, c: Id)
    requires Step(s, t, WakeUp, s') && c in s.heap && BlockOk(s, c)
    ensures BlockOk(s', c)
  {
  }

  lemma WakeUpKeepsOneLife(s: State, t: Tid, s': State)
    requires Step(s, t, WakeUp, s') && OneLife(s)
    ensures OneLife(s')
  {
    assert forall v :: v in s'.actor ==> v in s.actor && s'.actor[v].self == s.actor[v].self;
    assert forall v :: v in s'.actor && Live(s'.actor[v].pc) ==> Live(s.actor[v].pc);
  }

  lemma WakeUpKeepsInv(s: State, t: Tid, s': State)
    requires Inv(s) && Step(s, t, WakeUp, s')
    ensures Inv(s')
  {
    forall v | v in s'.actor ensures ActorOk(s', v) && JoinerHasReason(s', v) {
      assert ActorOk(s, v) && JoinerHasReason(s, v);
      WakeUpKeepsActor(s, t, s', v);
      WakeUpKeepsJoiner(s, t, s', v);
    }
    forall c | c in s'.heap ensures BlockOk(s', c) {
      assert BlockOk(s, c);
      WakeUpKeepsBlock(s, t, s', c);
    }
    WakeUpKeepsOneLife(s, t, s');
  }

  lemma StepKeepsInv(s: State, t: Tid, e: Event, s': State)
    requires Inv(s) && Step(s, t, e, s')
    ensures Inv(s')
  {
    match e {
      case Spawn(detached, b, u) => SpawnKeepsInv(s, t, detached, b, u, s');
      case WakeUp => WakeUpKeepsInv(s, t, s');
      case _ =>
        var f :| Single(s.heap, s.zombies, s.list, t, s.actor[t], e, f) && s' == Apply(s, t, f);
        SingleKeepsInv(s, t, e, f);
    }
  }

  lemma RunsAreSafe(run: seq<State>, k: nat)
    requires IsRun(Init, NextState, run) && k < |run|
    ensures Inv(run[k])
  {
    forall s, s' | Inv(s) && NextState(s, s') ensures Inv(s') {
      var t, e :| Step(s, t, e, s');
      StepKeepsInv(s, t, e, s');
    }
    InvariantHolds(Init, NextState, Inv, run, k);
  }

  // ---- Main results ----

  /** The block or the storage a thread is about to free. */
  function AboutToFree(p: Pc): Option<Id> {
    match p
    case FreeTls(cur, _, _) => Some(cur)
    case FreeBlock(cur, _, _) => Some(cur)
    case JoinFreeTls(h, _) => Some(h)
    case JoinFree(h, _) => Some(h)
    case _ => None
  }

  /** Along every run: no step touches a freed block, a thread's storage is never
      freed while it still runs on it, what is freed has been declared done and
      is not freed yet, and no two threads are about to free the same block. */
  lemma FreedExactlyOnce(run: seq<State>, k: nat, t: Tid, u: Tid)
    requires IsRun(Init, NextState, run) && k < |run| && t in run[k].actor && u in run[k].actor
    ensures Allocated(run[k].heap, run[k].actor[t])
    ensures Live(run[k].actor[t].pc) ==>
              run[k].actor[t].self in run[k].heap && !run[k].heap[run[k].actor[t].self].tlsFreed
    ensures match AboutToFree(run[k].actor[t].pc)
            case None => true
            case Some(b) =>
              && b in run[k].heap && run[k].heap[b].done && b != MAIN
              && (run[k].heap[b].tlsFreed <==> run[k].actor[t].pc.FreeBlock? || run[k].actor[t].pc.JoinFree?)
              && (AboutToFree(run[k].actor[u].pc) == Some(b) ==> t == u)
  {
    RunsAreSafe(run, k);
    LiveStorageIsThere(run[k], t);
    AboutToFreeIsMine(run[k], t);
    if AboutToFree(run[k].actor[t].pc).Some? && AboutToFree(run[k].actor[u].pc) == AboutToFree(run[k].actor[t].pc) {
      NobodyElseFrees(run[k], t, u);
    }
  }

  lemma LiveStorageIsThere(s: State, t: Tid)
    requires Inv(s) && t in s.actor
    ensures Allocated(s.heap, s.actor[t])
    ensures Live(s.actor[t].pc) ==> s.actor[t].self in s.heap && !s.heap[s.actor[t].self].tlsFreed
  {
    assert ActorOk(s, t);
  }

  lemma NobodyElseFrees(s: State, t: Tid, u: Tid)
    requires Inv(s) && t in s.actor && u in s.actor
    requires AboutToFree(s.actor[t].pc).Some? && AboutToFree(s.actor[u].pc) == AboutToFree(s.actor[t].pc)
    ensures t == u
  {
    AboutToFreeIsMine(s, t);
    AboutToFreeIsMine(s, u);
  }

  lemma AboutToFreeIsMine(s: State, t: Tid)
    requires Inv(s) && t in s.actor
    ensures match AboutToFree(s.actor[t].pc)
            case None => true
            case Some(b) =>
              && b in s.heap && s.heap[b].done && b != MAIN
              && (s.heap[b].place == Holding(t) || (s.heap[b].place == Own && s.heap[b].claimed == Some(t)))
              && (s.heap[b].tlsFreed <==> s.actor[t].pc.FreeBlock? || s.actor[t].pc.JoinFree?)
  {
    assert ActorOk(s, t);
    var o := AboutToFree(s.actor[t].pc);
    if o.Some? {
      assert BlockOk(s, o.value);
    }
  }

  /** Along every run, concurrent sweeps work on disjoint lists, none of them
      shares a block with the published list, and no list repeats a block. */
  lemma SweepsAreDisjoint(run: seq<State>, k: nat, t: Tid, u: Tid, b: Id)
    requires IsRun(Init, NextState, run) && k < |run| && t in run[k].actor && u in run[k].actor && t != u
    requires b in ToDo(run[k].actor[t].pc).1
    ensures b !in ToDo(run[k].actor[u].pc).1 && InHand(run[k].actor[u].pc) != Some(b) && b !in run[k].list
    ensures NoDup(ToDo(run[k].actor[t].pc).1) && NoDup(run[k].list)
  {
    RunsAreSafe(run, k);
    assert ActorOk(run[k], t) && ActorOk(run[k], u);
  }

  /** The value a join has read and is about to return, once it has read one. */
  function Joined(heap: map<Id, Block>, p: Pc): Option<Value>
    requires p.JoinRead? ==> p.h in heap
  {
    match p
    case JoinRead(h) => heap[h].result
    case JoinFreeTls(_, v) => v
    case JoinFree(_, v) => v
    case _ => None
  }

  /** A join reads, carries and returns the value its thread gave to `finish`, and the
      thread has given one. */
  lemma JoinReturnsGivenValue(run: seq<State>, k: nat, t: Tid)
    requires IsRun(Init, NextState, run) && k < |run| && t in run[k].actor
    requires run[k].actor[t].pc.JoinRead? || run[k].actor[t].pc.JoinFreeTls? || run[k].actor[t].pc.JoinFree?
    ensures var h := run[k].actor[t].pc.h;
            && h in run[k].heap && run[k].heap[h].done && run[k].heap[h].given.Some?
            && Joined(run[k].heap, run[k].actor[t].pc) == run[k].heap[h].given
  {
    RunsAreSafe(run, k);
    assert ActorOk(run[k], t);
    assert BlockOk(run[k], run[k].actor[t].pc.h);
  }

  /** Nothing leaks: a detached thread that is done is on the list or in the hands
      of one sweep, and a joined one is in the hands of its joiner. */
  lemma DoneIsAnsweredFor(run: seq<State>, k: nat, b: Id)
    requires IsRun(Init, NextState, run) && k < |run|
    requires b in run[k].heap && run[k].heap[b].done && b != MAIN && run[k].heap[b].claimed.Some?
    ensures b in run[k].list
         || exists t :: t in run[k].actor && (b in ToDo(run[k].actor[t].pc).1
                        || InHand(run[k].actor[t].pc) == Some(b) || Target(run[k].actor[t].pc) == Some(b))
  {
    RunsAreSafe(run, k);
    assert BlockOk(run[k], b);
  }

  /** A parked joiner's thread has not finished, or the wake is on its way. */
  lemma JoinerIsNotStranded(run: seq<State>, k: nat, t: Tid)
    requires IsRun(Init, NextState, run) && k < |run| && t in run[k].actor && run[k].actor[t].pc.JoinParked?
    ensures var h := run[k].actor[t].pc.h;
            h in run[k].heap
            && (run[k].heap[h].done ==> exists u :: u in run[k].actor && run[k].actor[u].pc == Wake(h))
  {
    RunsAreSafe(run, k);
    assert ActorOk(run[k], t) && JoinerHasReason(run[k], t);
  }

  // ---- What is due is freed ----

  lemma StepFires(s: State, t: Tid, e: Event, s': State) returns (f: Effect)
    requires Inv(s) && Step(s, t, e, s') && !e.Spawn? && !e.WakeUp?
    ensures Fires(s, t, e, f) && s' == Apply(s, t, f) && ActorOk(s, t)
  {
    f :| Single(s.heap, s.zombies, s.list, t, s.actor[t], e, f) && s' == Apply(s, t, f);
  }

  lemma FreesOwnTarget(s: State, u: Tid, e: Event, f: Effect)
    requires Fires(s, u, e, f)
    ensures f.heap.Free? <==> e.Move? && (s.actor[u].pc.FreeBlock? || s.actor[u].pc.JoinFree?)
    ensures f.heap.Free? ==> AboutToFree(s.actor[u].pc) == Some(f.heap.b)
  {
  }

  /** Only the thread about to free a block removes it, and nobody takes `done` back. */
  lemma BlockStays(s: State, u: Tid, e: Event, s': State, b: Id)
    requires Inv(s) && Step(s, u, e, s') && b in s.heap
    ensures b !in s'.heap ==> e.Move? && (s.actor[u].pc.FreeBlock? || s.actor[u].pc.JoinFree?)
                              && AboutToFree(s.actor[u].pc) == Some(b)
    ensures b in s'.heap && s.heap[b].done ==> s'.heap[b].done
  {
    hide Inv, Single, ActorOk;
    if !e.Spawn? && !e.WakeUp? {
      var f := StepFires(s, u, e, s');
      FreesOwnTarget(s, u, e, f);
      if f.heap.Write? {
        WritesAreFair(s, u, e, f);
      }
    }
  }

  lemma OthersStay(s: State, u: Tid, e: Event, s': State, t: Tid)
    requires Step(s, u, e, s') && u != t && t in s.actor
    ensures u in s.actor && t in s'.actor && s'.actor[t].self == s.actor[t].self
    ensures s'.actor[t].pc == s.actor[t].pc || (s.actor[t].pc.JoinParked? && s'.actor[t].pc == JoinLook(s.actor[t].pc.h))
  {
  }

  /** A block that is done lies ahead of a sweep, or is the one it is freeing. */
  ghost predicate DueInSweep(s: State, t: Tid, b: Id) {
    && t in s.actor && b in s.heap && s.heap[b].done
    && var p := s.actor[t].pc;
       b in ToDo(p).1 || (InHand(p) == Some(b) && !Pushes(p))
  }

  lemma DueFires(s: State, t: Tid, e: Event, f: Effect, b: Id)
    requires Fires(s, t, e, f) && SweepOk(s.heap, t, s.actor[t]) && DueInSweep(s, t, b)
    ensures !(f.heap == Free(b)) ==> b in ToDo(f.pc).1 || (InHand(f.pc) == Some(b) && !Pushes(f.pc))
  {
  }

  lemma DueSelf(s: State, t: Tid, e: Event, s': State, b: Id)
    requires Inv(s) && Step(s, t, e, s') && DueInSweep(s, t, b) && b in s'.heap
    ensures t in s'.actor && (b in ToDo(s'.actor[t].pc).1 || (InHand(s'.actor[t].pc) == Some(b) && !Pushes(s'.actor[t].pc)))
  {
    hide Inv, Single, SelfOk, SweepOk, JoinOk;
    if !e.Spawn? && !e.WakeUp? {
      var f := StepFires(s, t, e, s');
      DueFires(s, t, e, f, b);
    }
  }

  lemma DueNext(s: State, s': State, t: Tid, b: Id)
    requires Inv(s) && NextState(s, s') && DueInSweep(s, t, b) && b in s'.heap
    ensures DueInSweep(s', t, b)
  {
    hide Inv, Step;
    var u, e :| Step(s, u, e, s');
    BlockStays(s, u, e, s', b);
    if u == t {
      DueSelf(s, t, e, s', b);
    } else {
      OthersStay(s, u, e, s', t);
    }
  }

  /** Main result: a thread that has finished when a sweep has its block before it is
      freed by the time the sweep is over. */
  lemma {:induction false} SweepFreesDone(run: seq<State>, i: nat, k: nat, t: Tid, b: Id)
    requires IsRun(Init, NextState, run) && i <= k < |run| && DueInSweep(run[i], t, b)
    ensures DueInSweep(run[k], t, b) || exists j :: i < j <= k && b !in run[j].heap
    ensures t in run[k].actor && run[k].actor[t].pc == Create ==> exists j :: i < j <= k && b !in run[j].heap
    decreases k
  {
    hide Inv, Init, NextState;
    if i < k {
      SweepFreesDone(run, i, k - 1, t, b);
      assert NextState(run[k - 1], run[k - 1 + 1]);
      RunsAreSafe(run, k - 1);
      if DueInSweep(run[k - 1], t, b) && b in run[k].heap {
        DueNext(run[k - 1], run[k], t, b);
      }
    }
  }

  /** A sweep takes the whole list, and leaves it empty. */
  lemma TakeTakesAll(s: State, t: Tid, s': State)
    requires Inv(s) && Step(s, t, Move, s') && s.actor[t].pc == Take
    ensures s'.list == [] && s'.zombies == None && s'.heap.Keys == s.heap.Keys
    ensures t in s'.actor && ToDo(s'.actor[t].pc).1 == s.list
  {
    hide Inv, ActorOk;
    var f := StepFires(s, t, Move, s');
  }

  /** In a join, which a detach of a thread that has exited turns into. */
  predicate InJoin(p: Pc, h: Id) {
    Target(p) == Some(h) && !p.DetachSwap?
  }

  lemma JoinFires(s: State, t: Tid, e: Event, f: Effect, h: Id)
    requires Fires(s, t, e, f) && JoinOk(s.heap, t, s.actor[t]) && InJoin(s.actor[t].pc, h) && h != MAIN
    ensures if f.heap == Free(h) then f.pc == Run else InJoin(f.pc, h) && !f.heap.Free?
  {
  }

  lemma JoinSelf(s: State, t: Tid, e: Event, s': State, h: Id)
    requires Inv(s) && Step(s, t, e, s') && InJoin(s.actor[t].pc, h) && h != MAIN
    ensures t in s'.actor && (if h in s'.heap then InJoin(s'.actor[t].pc, h) else s'.actor[t].pc == Run)
  {
    hide Inv, Single, SelfOk, SweepOk;
    if !e.Spawn? && !e.WakeUp? {
      var f := StepFires(s, t, e, s');
      JoinFires(s, t, e, f, h);
      assert h in s.heap;
    }
  }

  lemma TargetIsMine(s: State, t: Tid, h: Id, u: Tid)
    requires Inv(s) && t in s.actor && InJoin(s.actor[t].pc, h) && u in s.actor && u != t
    ensures h in s.heap && AboutToFree(s.actor[u].pc) != Some(h)
  {
    assert ActorOk(s, t);
    AboutToFreeIsMine(s, u);
  }

  lemma JoinNext(s: State, s': State, t: Tid, h: Id)
    requires Inv(s) && NextState(s, s') && t in s.actor && InJoin(s.actor[t].pc, h) && h != MAIN
    ensures t in s'.actor && (if h in s'.heap then InJoin(s'.actor[t].pc, h) else s'.actor[t].pc == Run)
  {
    hide Inv, Step;
    var u, e :| Step(s, u, e, s');
    if u == t {
      JoinSelf(s, t, e, s', h);
    } else {
      OthersStay(s, u, e, s', t);
      TargetIsMine(s, t, h, u);
      BlockStays(s, u, e, s', h);
    }
  }

  /** Main result: a join returns at the very step that frees the thread it joined. */
  lemma {:induction false} JoinFreesItsThread(run: seq<State>, i: nat, k: nat, t: Tid, h: Id)
    requires IsRun(Init, NextState, run) && i <= k < |run| && h != MAIN
    requires t in run[i].actor && InJoin(run[i].actor[t].pc, h)
    requires forall j :: i <= j < k ==> t in run[j].actor && run[j].actor[t].pc != Run
    ensures t in run[k].actor
    ensures if i < k && h !in run[k].heap then run[k].actor[t].pc == Run else InJoin(run[k].actor[t].pc, h)
    decreases k
  {
    hide Inv, Init, NextState;
    if i < k {
      JoinFreesItsThread(run, i, k - 1, t, h);
      assert NextState(run[k - 1], run[k - 1 + 1]);
      RunsAreSafe(run, k - 1);
      JoinNext(run[k - 1], run[k], t, h);
    }
  }

  /** How the calls begin: a join of oneself is refused, and any other join or detach
      makes the caller the one that has claimed the thread. */
  lemma CallsBegin(s: State, t: Tid, e: Event, s': State)
    requires Step(s, t, e, s')
    ensures t in s'.actor
    ensures e == CallCreate ==> s'.actor[t].pc == Take && s'.heap == s.heap
    ensures e.CallJoin? && e.h == s.actor[t].self ==> s' == s
    ensures e.CallJoin? && e.h != s.actor[t].self ==>
              InJoin(s'.actor[t].pc, e.h) && e.h in s'.heap && s'.heap[e.h].claimed == Some(t)
    ensures e.CallDetach? ==> s'.actor[t].pc == DetachSwap(e.h) && e.h in s'.heap && s'.heap[e.h].claimed == Some(t)
    ensures e.CallFinish? ==>
              s'.actor[t].pc == Finish(e.value) && s.actor[t].self in s'.heap && s'.heap[s.actor[t].self].given == Some(e.value)
    ensures e.Spawn? ==>
              && e.block !in s.heap && e.block in s'.heap && e.tid !in s.actor && e.tid in s'.actor
              && s'.actor[e.tid] == Actor(e.block, Run) && s'.actor[t].pc == Run
              && s'.heap[e.block].mode == (if e.detached then Detached else Joinable) && !s'.heap[e.block].done
  {
  }

  /** A detach decides who frees the thread: one that still runs frees itself from now
      on, one that has exited is joined by the caller. */
  lemma DetachAnswers(s: State, t: Tid, s': State)
    requires Inv(s) && Step(s, t, Move, s') && s.actor[t].pc.DetachSwap?
    ensures var h := s.actor[t].pc.h;
            && t in s'.actor && h in s.heap && s'.heap.Keys == s.heap.Keys
            && (s'.actor[t].pc == Run <==> s.heap[h].mode == Joinable)
            && (s.heap[h].mode == Joinable ==> s'.heap[h].mode == Detached)
            && (InJoin(s'.actor[t].pc, h) <==> s.heap[h].mode == Exited)
            && (s.heap[h].mode == Exited ==> s'.heap == s.heap)
  {
    hide Inv, SelfOk, SweepOk;
    var f := StepFires(s, t, Move, s');
  }

  /** A thread that exits puts itself on the list exactly if it has been detached. */
  lemma ExitAnswers(s: State, t: Tid, s': State)
    requires Inv(s) && Step(s, t, Move, s') && s.actor[t].pc == Exchange
    ensures var b := s.actor[t].self;
            && t in s'.actor && b in s.heap && b in s'.heap && s'.heap[b].mode == Exited
            && (s'.actor[t].pc == PushLoad(b, ToExit) <==> s.heap[b].mode == Detached && b != MAIN)
            && (s'.actor[t].pc == Done <==> s.heap[b].mode != Detached || b == MAIN)
  {
    hide Inv, JoinOk, SweepOk;
    var f := StepFires(s, t, Move, s');
  }
}
