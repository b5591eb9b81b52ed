# FreeOS C library and build tools: a verified model

Dafny models of the parts of FreeOS's C library and host build tools whose
correctness is hardest to see from the code, with machine-checked proofs.
`dafny verify dfyconfig.toml` checks the whole project.

**The threads layer of the C library** is modelled as transition systems over an
unbounded set of threads. Each atomic operation on a shared word, each futex wait
(compare and park) and each futex wake is one step, and the theorems hold after
every prefix of every interleaving. The layers are built on each other:

- `LockWord.dfy`, the three-state mutex word, and `CondWord.dfy`, the signal counter of
  a condition variable, are the two components.
- `RwLock.dfy` puts one mutex word, two signal counters and three plain counters together
  into the writer-preferring read-write lock.
- `Monitor.dfy` puts a mutex word and a signal counter together into recursive and
  error-checking mutexes with condition waits, deadlines included; `Deadline.dfy` is the
  millisecond arithmetic it shares with `Semaphore.dfy`. `SignalLoss.dfy` says exactly when
  a signal can miss those who wait.
- `Once.dfy` is `pthread_once`; `ThreadLife.dfy` is create, join, detach, exit and the
  lock-free list of finished detached threads.
- `Runs.dfy` and `Counting.dfy` hold the induction over runs and the counting of threads.

**Algorithms that update memory in place** are methods over arrays and classes, each proved
against a specification function, whose meaning is then stated by lemmas:

- `Tls.dfy`: the thread-local storage block, in 64-bit arithmetic with the real bit mask,
  for both layouts of "ELF Handling For Thread-Local Storage", section 3.
- `Png.dfy`: undoing the row filters of section 6 of RFC 2083.
- `FatChain.dfy`, `FatDir.dfy`, `FatVolume.dfy`: cluster chains of a FAT32 image, one
  directory's entries, and the walk that rewrites every directory of a volume.
- `PathFold.dfy`: folding "." and ".." in a bounded C buffer and on a stack of components,
  and the current directory.
- `Closure.dfy`: the worklist that collects the libraries a program needs.
- `Wayland.dfy`: the wire encoder and the reader that cuts a stream into messages.
- `Bytes.dfy`, `Numbers.dfy` and `Options.dfy` hold what these share.

## Results where the code does less than one may expect

- The semaphore's value may exceed `INT_MAX`: while one post is between finding the limit
  and taking its unit back, a second post succeeds. `Semaphore.OvershootAtLimit` is such a
  run; `Semaphore.BoundedUntilLimitIsFound` proves that the bound has held along a run if and
  only if no post has found the value at the limit.
- A signal sent without the mutex may miss everybody who was asleep.
  `SignalLoss.SignalMissesExactly` proves that it can if and only if its sender does not hold
  the mutex, and `SignalLoss.SignalMissesFromStart` is such a run.
- A thread that holds a read lock and takes it again while a writer waits deadlocks with that
  writer: `RwLock.NestedReadDeadlocks`. `RwLock.HolderSleepsExactly` says exactly which calls
  put a holder to sleep, `RwLock.AskedInVainForever` that such a call never returns, and
  `RwLock.PoliteRunsProgress` that nothing else stops progress.
- The mask that rounds up gives 0 when its sum wraps, and the block size then comes out too
  small. `Tls.AlignUpRounds` and `Tls.SizeIsRight` give the exact conditions.
- A stream whose next message claims fewer than eight bytes stalls the Wayland reader for good,
  and nothing else does (`Wayland.StallsExactly`); on well-formed traffic this cannot happen
  (`Wayland.TrafficIsCut`).

## Model

| member | source | states |
|---|---|---|
| LockWord.StepKeepsExclusive | libc/freeos/threads.c:486-505 | every step of lock and unlock keeps mutual exclusion: the word is 0 exactly when no thread owns it or is half way through giving it up, and at most one thread is such |
| LockWord.StepKeepsInv | libc/freeos/threads.c:486-505 | every step, spurious returns and sleeping included, leaves no sleeper without the value 2, an unlocker that still owes its wake, or a thread about to exchange in 2 |
| LockWord.RunsAreSafe | libc/freeos/threads.c:486-505 | along every run, for any number of threads, the word excludes and no wakeup is lost |
| LockWord.SleeperHasOwner | libc/freeos/threads.c:494-504 | with every thread at rest, a sleeper means the word is 2 and somebody owns it: nobody is left asleep on a free word |
| LockWord.AttemptsAnswer | libc/freeos/threads.c:486-498 | the word is taken by every attempt that finds it 0 and by no other step; an attempt in vain sleeps only on a marked word |
| LockWord.UnlockFreesWord | libc/freeos/threads.c:500-502 | the decrement frees the word and ends the unlock exactly when the word was 1; from 2 the owner goes on |
| LockWord.UnlockGoesOn | libc/freeos/threads.c:502-504 | from 2 on the only next step is the store of 0 and then the wake, which unparks a sleeper if there is one |
| LockWord.Moves | libc/freeos/threads.c:486-505 | a thread inside lock or unlock and not asleep always has a next step |
| CondWord.StepKeepsInv | libc/freeos/threads.c:623-667 | no sleeper read the counter before a broadcast that has completed |
| CondWord.BroadcastReachesAllEarlier | libc/freeos/threads.c:663-667 | in every state after a broadcast has completed, no thread that read the counter before its increment is asleep |
| CondWord.WakeReaches | libc/freeos/threads.c:657-667 | if every thread about to sleep has read an old counter, the thread a wake picks, or any thread when it finds none asleep, is neither asleep nor able to fall asleep afterwards |
| CondWord.WaitAnswers | libc/freeos/threads.c:623-661 | a wait sleeps exactly if nobody has signalled since its read, expires no earlier than its timeout says, and is told so only by a sleep that has expired |
| CondWord.StepKeepsNoFresh | libc/freeos/threads.c:623-667 | between an increment and its wake nobody can fall asleep on the new value, as long as nobody reads the counter meanwhile |
| CondWord.LatecomerTakesWake | libc/freeos/threads.c:657-661 | in any state in which a signal's wake is owed, another thread can read the counter, sleep and take that wake, and every earlier sleeper stays asleep with the wake paid |
| CondWord.SignalCanMissEarlier | libc/freeos/threads.c:657-661 | a run of the counter from the start on in which a later waiter takes the wake and the earlier one sleeps on |
| SignalLoss.SignalMissesExactly | libc/freeos/threads.c:623-661 | in any reachable state in which a signal's wake is owed, somebody sleeps, and the sender holds the mutex or another thread outside every call holds it or finds it free, the signal can miss everybody asleep if and only if the sender does not hold the mutex |
| SignalLoss.HolderNeverMisses | libc/freeos/threads.c:623-661 | along any continuation up to its wake, a sender that holds the mutex never leaves everybody asleep |
| SignalLoss.LatecomerTakesWake | libc/freeos/threads.c:517-661 | the run by which a free thread locks, waits, sleeps and takes the wake of a signal sent without the mutex |
| SignalLoss.SignalMissesFromStart | libc/freeos/threads.c:517-661 | from any start with three threads, one falls asleep and then another, which never locks the mutex, signals: its wake is owed while the first sleeps, and when it is paid the first is still asleep |
| RwLock.StepKeepsAccounts | libc/freeos/threads.c:718-780 | the reader count is the sum of all read locks held, nested ones included, the writer flag that of all write locks, the count of waiting writers the number of waiting writers, and a writer inside means no readers |
| RwLock.StepKeepsReaders | libc/freeos/threads.c:718-726 | a sleeping reader has a writer inside or waiting, or the broadcast that will reach it is on its way |
| RwLock.StepKeepsWriters | libc/freeos/threads.c:740-750 | a sleeping writer has a holder inside, its signal on the way, or a fellow waiting writer that is awake and will test its guard again |
| RwLock.RunsAreSafe | libc/freeos/threads.c:718-780 | all of the above in every reachable state, for any number of threads and any calls, by holders too, except unlocking what one does not hold |
| RwLock.WriterIsAlone | libc/freeos/threads.c:718-780 | a thread that holds the lock for writing holds it once, not for reading, and nobody else holds it |
| RwLock.ReadAnswers | libc/freeos/threads.c:718-738 | a reader is let in exactly when no thread holds the lock for writing and no writer waits; else it sleeps, or having only tried leaves with what it had |
| RwLock.WriteAnswers | libc/freeos/threads.c:740-762 | a writer is let in exactly when no thread holds the lock; else it sleeps, or having only tried leaves with what it had |
| RwLock.UnlockAnswers | libc/freeos/threads.c:764-780 | an unlock undoes one lock of the caller's; it signals one writer exactly if a writer waits and nobody holds the lock any more, and calls all readers exactly if no writer waits |
| RwLock.CallsDeliver | libc/freeos/threads.c:718-780 | over whole runs a read or write that returns has brought exactly one lock more, however often it slept; a try brings one or none and never sleeps; an unlock undoes exactly one |
| RwLock.StepPrefersWriters | libc/freeos/threads.c:718-750 | while a writer waits, a step never raises the reader count, and fewer writers wait only because one has entered |
| RwLock.WaitingWriterStopsReaders | libc/freeos/threads.c:718-738 | over any stretch of any run during which a writer waits, the reader count does not grow |
| RwLock.SleepersWaitForHolder | libc/freeos/threads.c:718-780 | when every thread is at rest and one is still inside a call, some thread holds the lock, outside every call or itself asleep in one |
| RwLock.NeverStuck | libc/freeos/threads.c:718-780 | when no thread can move by itself although one is inside a call, some thread holds the lock, and it is outside every call unless a holder sleeps inside one |
| RwLock.HolderSleepsExactly | libc/freeos/threads.c:718-750 | a holder goes to sleep inside a call if and only if it asks for the lock for writing, or for reading while it writes or while a writer waits |
| RwLock.PoliteRunsProgress | libc/freeos/threads.c:718-780 | along every run in which no holder asks in that way, whenever nobody can move although somebody is inside a call, a thread outside every call holds the lock and is free to unlock it |
| RwLock.AskedInVainForever | libc/freeos/threads.c:718-750 | the converse: a holder that has asked in that way holds the lock and stays inside its call in every continuation of every run |
| RwLock.NestedReadDeadlocks | libc/freeos/threads.c:718-750 | from any start, a reader, a waiting writer and the same reader once more end in a state where nobody can move and the only holder sleeps |
| Deadline.MillisRoundUp | libc/freeos/threads.c:608-619 | the timeout is the time left rounded up to whole milliseconds, and 0 exactly when none is left |
| Monitor.RunsAreSafe | libc/freeos/threads.c:507-667 | the full invariant of mutex types, owner, count, condition waits and time in every reachable state |
| Monitor.TallyCountsLocks | libc/freeos/threads.c:517-562 | in every step the tally of a thread moves by one exactly when a lock or trylock is granted or an unlock accepted; Monitor.UnlockAnswers says which unlocks are |
| Monitor.UnlockAnswers | libc/freeos/threads.c:550-562 | an unlock is refused exactly to a caller that has not locked; with several locks it ends one lower, the word untouched and the owner still recorded; with one it goes on to free the word |
| Monitor.UnlockUndoesOne | libc/freeos/threads.c:550-562 | over whole runs an unlock by a thread that has locked d > 0 times ends in success with d - 1 locks, and the word and the owner field are still its own exactly if d > 1 |
| Monitor.LockAnswers | libc/freeos/threads.c:517-532 | a lock of what one has locked is counted on a recursive mutex and refused on a checking one; a caller with none goes for the word |
| Monitor.WordAnswers | libc/freeos/threads.c:517-532 | the step that finds the word 0 takes it, no other does, and the lock then ends in success with the caller recorded as owner once |
| Monitor.TryAnswers | libc/freeos/threads.c:534-548 | a trylock is counted on a recursive mutex one has; otherwise it takes the word if it is 0 and answers busy exactly if it is not |
| Monitor.WaitAnswers | libc/freeos/threads.c:623-655 | a condition wait answers timed out exactly when it has a deadline and the kernel said so or the deadline has come; before it sleeps it gives up exactly if the deadline has come |
| Monitor.TimedWaitStarts | libc/freeos/threads.c:648-655 | a timed wait is refused as invalid exactly when its nanoseconds are out of range |
| Monitor.CallsDeliver | libc/freeos/threads.c:517-667 | over whole runs every call answers only what is its own to answer, and leaves one lock more after a successful lock or trylock, one fewer after a successful unlock, and as many as before otherwise |
| Monitor.HolderIsRecorded | libc/freeos/threads.c:517-562 | between its calls a thread is the recorded owner exactly when it has locked more often than unlocked; the count is that difference, the word is not 0, and nobody else holds it |
| Monitor.OnlyOutermostUnlockFrees | libc/freeos/threads.c:550-562 | when the word is given up the owner field is cleared and, unless it is on behalf of a condition wait, every lock the caller gained has been undone; Monitor.UnlockUndoesOne says that it is then given up |
| Monitor.WaitReturnsHolding | libc/freeos/threads.c:623-646 | a condition wait, timed out or not, returns with the mutex held at its former depth |
| Monitor.SignalReleasesWaiter | libc/freeos/threads.c:623-661 | a signal sent while holding the mutex, with anyone waiting, leaves one of those who waited awake and bound to return, those between unlock and park included |
| Monitor.BroadcastReleasesAll | libc/freeos/threads.c:663-667 | a broadcast sent while holding the mutex leaves everyone who waited awake and bound to return |
| Monitor.TimeoutIsNeverEarly | libc/freeos/threads.c:623-655 | a timed wait reports a timeout only at or after its deadline, and never sleeps with the timeout 0 that means forever |
| Semaphore.MoveConserves | libc/freeos/posix.c:69-130 | every access keeps value = initial + posts - waits, up to the wrap of the word, posts being undone included |
| Semaphore.MoveKeepsWakeups | libc/freeos/posix.c:69-130 | while anyone sleeps, the value is at most the posters that owe a wake plus the waiters that are awake and have not yet seen 0 |
| Semaphore.RunsAreSafe | libc/freeos/posix.c:49-130 | conservation, the bound away from the limit, no lost wakeup and punctual timeouts in every reachable state |
| Semaphore.BoundedUntilLimitIsFound | libc/freeos/posix.c:119-130 | along every run the value has kept within INT_MAX if and only if no post has come upon it at INT_MAX |
| Semaphore.ExactAwayFromLimit | libc/freeos/posix.c:49-130 | until then the value is exactly initial + posts - successful waits, and at most INT_MAX |
| Semaphore.SleepersMeanZero | libc/freeos/posix.c:90-130 | when all threads are outside their calls or asleep and one is asleep, the value is 0 |
| Semaphore.OnlySuccessTakes | libc/freeos/posix.c:69-107 | a step takes a unit exactly when it ends its call in success, and then it takes one |
| Semaphore.TimeoutTakesNothing | libc/freeos/posix.c:90-117 | over a whole call that ends in a timeout no step of the caller takes a unit, and its deadline has passed |
| Semaphore.TakeAnswers | libc/freeos/posix.c:69-79 | a try takes a unit exactly if its exchange finds the value it expected, is refused exactly on a 0, and otherwise tries again; a wait goes to sleep exactly on a 0 |
| Semaphore.WaitAnswers | libc/freeos/posix.c:83-107 | a wait gives up exactly when its deadline has come; else its timeout ends at or after the deadline and less than a millisecond late, and it sleeps only on a 0 |
| Semaphore.PostAnswers | libc/freeos/posix.c:119-130 | a post is refused exactly when it finds INT_MAX and then takes its unit back; else it is given, and it wakes somebody exactly when somebody is registered |
| Semaphore.CallsAnswer | libc/freeos/posix.c:69-130 | over whole runs a call answers only what is its own to answer: a wait without a deadline returns only with a unit, a try never sleeps, only a deadline out of range is invalid |
| Semaphore.OvershootAtLimit | libc/freeos/posix.c:119-130 | a concrete run in which the value exceeds INT_MAX |
| Once.RunsOnce | libc/freeos/threads.c:848-860 | init begins at most once, no caller returns before it has finished, and a caller asleep on a done word has its wake on the way |
| Once.RunsAreSafe | libc/freeos/threads.c:848-860 | the invariant behind it in every reachable state |
| Once.NobodyLeftAsleep | libc/freeos/threads.c:848-860 | in every reachable state in which all threads are outside their calls or asleep, none is asleep |
| Once.CallAnswers | libc/freeos/threads.c:848-860 | init is begun by exactly the call that finds it not begun, and a waiting call returns exactly when it finds it done |
| ThreadLife.RunsAreSafe | libc/freeos/threads.c:177-195 | in every reachable state of create, join, detach, exit and the sweeps, every block has exactly one party responsible for it |
| ThreadLife.FreedExactlyOnce | libc/freeos/threads.c:300-389 | no step touches a freed block; storage is not freed while its thread runs on it; what is about to be freed is done, not yet freed, and about to be freed by one thread only |
| ThreadLife.SweepsAreDisjoint | libc/freeos/threads.c:177-195 | concurrent sweeps hold disjoint lists without repeats, and none shares a block with the published list |
| ThreadLife.TakeTakesAll | libc/freeos/threads.c:177-178 | a sweep takes exactly the published list and leaves it empty |
| ThreadLife.SweepFreesDone | libc/freeos/threads.c:177-195 | over whole runs a thread that is done when a sweep has its block before it is freed by the time that sweep is over |
| ThreadLife.JoinReturnsGivenValue | libc/freeos/threads.c:300-376 | from the read of the result to its return, what a join carries is the value its thread gave to finish, and the thread has given one |
| ThreadLife.JoinFreesItsThread | libc/freeos/threads.c:358-376 | over whole runs a join returns at the very step that frees the thread it joined, and not before |
| ThreadLife.DetachAnswers | libc/freeos/threads.c:378-389 | a detach of a thread that still runs returns and leaves it to free itself; one of a thread that has exited becomes its join |
| ThreadLife.ExitAnswers | libc/freeos/threads.c:300-315 | a thread that exits puts itself on the list exactly if it has been detached and is not the main one |
| ThreadLife.CallsBegin | libc/freeos/threads.c:300-389 | a join of oneself changes nothing; any other join or detach claims its thread; a new thread starts with a fresh block in the mode asked for |
| ThreadLife.DoneIsAnsweredFor | libc/freeos/threads.c:177-389 | a claimed thread that is done is on the list, in a sweep, or in the hands of its joiner: nothing leaks |
| ThreadLife.JoinerIsNotStranded | libc/freeos/threads.c:313-367 | a parked joiner's thread has not finished, or its wake is on the way |
| Tls.AlignUpRounds | libc/freeos/threads.c:78-78 | for every word and every power of two below 2^64, masking gives the least multiple not below the value exactly when the sum does not wrap, and 0 otherwise |
| Tls.SizeIsRight | libc/freeos/threads.c:83-101 | the size asked for is the room needed exactly when that room is below 2^64; the room is the least multiple of the template's alignment not below the variables (or sixteen bytes), and the control block or the variables, and slack of at least sixteen |
| Tls.AlignmentsAre | libc/freeos/threads.c:78-101 | from the template's own alignment: what lies between base and variables is its least multiple not below the memory size, or sixteen, and the block is aligned to it but at least to sixteen |
| Tls.LayoutFits | libc/freeos/threads.c:114-135 | both layouts stay inside the block at any address; the base is a multiple of the template's alignment and of sixteen, and the variables lie exactly the least multiple of that alignment away from it |
| Tls.LayOutX86 | libc/freeos/threads.c:114-135 | byte by byte, the x86-64 layout puts the template at base minus the least multiple of its alignment that holds it, then zeros up to the base, then a control block, and changes nothing else |
| Tls.ControlWordIsBase | libc/freeos/threads.c:119-124 | after that layout the word at the base reads as the base, and the template's bytes, then zeros, end right below it |
| Tls.LayOutArm | libc/freeos/threads.c:125-135 | byte by byte, the AArch64 layout puts zeros from the base to the least multiple of the template's alignment from sixteen on, there the template, then zeros, and changes nothing else |
| Png.PaethIsNearest | xtask/src/fimg.rs:139-149 | the predictor is the neighbour nearest to a + b - c, ties going to a, then b, then c |
| Png.UnfilterInvertsFilter | xtask/src/fimg.rs:107-120 | unfiltering a filtered row gives the row, for every filter type, pixel size and row above |
| Png.FilterInvertsUnfilter | xtask/src/fimg.rs:107-120 | filtering an unfiltered line gives the line: no two lines stand for one row |
| Png.UnfilterLine | xtask/src/fimg.rs:104-120 | the inner loop adds to each byte of the line what the standard says for its filter, nothing, the left byte, the upper one, half their sum, or the nearest neighbour, and appends the row to those before |
| Png.Unfilter | xtask/src/fimg.rs:99-121 | for every byte of the pixels the formula of its row's filter holds, read off the raw bytes and the pixels themselves; the data is too short exactly below (stride + 1) * height bytes, and else the first filter above 4 is reported |
| Png.PixelsObeyFormulas | xtask/src/fimg.rs:99-121 | the five formulas of section 6 of RFC 2083 on the decoded rows, named without the decoder's own predictor |
| Png.UnfilterInvertsEncode | xtask/src/fimg.rs:99-121 | for every image, pixel size and choice of filters row by row, decoding the encoded rows, whatever follows them, gives the image back |
| FatChain.GeometryFits | xtask/src/initrd.rs:493-515 | no cluster number the geometry admits lies outside the image |
| FatChain.GeometryOfBytes | xtask/src/initrd.rs:493-515 | the start of the data and of the FAT, the cluster size and the root cluster, from the bytes of the boot sector, and which boot sectors are refused |
| FatChain.LastClusterIsLast | xtask/src/initrd.rs:505-515 | nor does it forget one: the cluster after the last would not lie inside the image, unless there are more than 32 bits count |
| FatChain.NextIsMasked | xtask/src/initrd.rs:612-620 | the successor of a cluster is the four bytes of its entry with the top four bits masked off |
| FatChain.ChainIsDistinct | xtask/src/initrd.rs:606-623 | a chain the FAT ends never meets a cluster twice |
| FatChain.ClusterChain | xtask/src/initrd.rs:606-623 | on any image the walk ends and succeeds exactly when a chain starts there; the result is that chain, non-empty and without repeats; each error names a fault the FAT really leads to, and "looping" a real repeat |
| FatChain.ChainStaysInside | xtask/src/initrd.rs:505-515 | with clusters of at least twelve bytes, neither the walk nor a cluster of a chain reaches outside the image |
| FatDir.TidyEntries | xtask/src/initrd.rs:537-563 | the rewriting loop computes the specification function on every byte string |
| FatDir.ListingSaysAll | xtask/src/initrd.rs:541-560 | a listing leaves nothing out: its records and tail, spelled again, are the entries before the end mark |
| FatDir.TidyNormalizes | xtask/src/initrd.rs:536-563 | read as a listing of short entries with their long-name runs, the new directory is the old one with each record made normal, whatever the bytes |
| FatDir.TidyKeepsFiles | xtask/src/initrd.rs:541-560 | files keep order, content and long names; "." and ".." lose theirs; the ".." of a root child has zeros in bytes 20, 21, 26 and 27 and is otherwise unchanged, as is every other entry |
| FatDir.TidyTwice | xtask/src/initrd.rs:536-563 | a second pass changes no byte |
| FatDir.TidyEndsInZeros | xtask/src/initrd.rs:560-563 | what the pass frees is filled with zeros to the end |
| FatDir.TestsAreOnBytes | xtask/src/initrd.rs:541-590 | the tests on an entry, at its bytes: the eleven of "." and "..", the bits 0x0F and 0x10 of byte 11, the 0 that ends a directory |
| FatDir.LiveEntriesAre | xtask/src/initrd.rs:573-578 | the entries read are the pieces of thirty-two bytes before the first that begins with 0 |
| FatDir.ClusterReadsBack | xtask/src/initrd.rs:587-589 | for every 32-bit number, an entry with its low half in bytes 26 and 27 and its high half in bytes 20 and 21 names that cluster |
| FatDir.FindSubdirectories | xtask/src/initrd.rs:573-590 | the scan finds, in order and at the bytes, the cluster of every entry before the end that is not deleted, not a long name, a directory, and neither "." nor "..", and no other |
| FatDir.SubdirectoriesAreNamed | xtask/src/initrd.rs:573-590 | the same of the specification function, for every byte string |
| FatDir.TidyKeepsSubdirectories | xtask/src/initrd.rs:536-590 | rewriting a directory does not change which directories are below it |
| FatVolume.WriteContent | xtask/src/initrd.rs:565-570 | writing a directory back puts its bytes into its clusters and changes no other byte |
| FatVolume.NormalizeDir | xtask/src/initrd.rs:521-597 | down a tree of directories apart from the FAT the walk ends; it succeeds exactly when each can be read, and then each is right; on failure each is right or as it was; no byte outside their clusters changes |
| FatVolume.SecondRunChangesNothing | xtask/src/initrd.rs:521-597 | what a run leaves is again a tree it accepts, and a second run changes no byte of the image |
| FatVolume.NormalizeDotEntries | xtask/src/initrd.rs:493-518 | the same from the boot sector of a whole image; a bad boot sector leaves it untouched |
| FatVolume.WhatBecomesOfWhich | xtask/src/initrd.rs:521-597 | a run leaves the bytes of the root's listing alone, clears the parent's cluster right below the root and in no directory further down |
| FatVolume.StaysVolume | xtask/src/initrd.rs:493-518 | the boot sector, the FAT and the tree of directories survive |
| FatVolume.FormattedFatIsApart | xtask/src/initrd.rs:493-515 | when the boot sector's FAT has room for an entry per cluster, no cluster at all lies over the FAT |
| FatVolume.CircleHasNoTree | xtask/src/initrd.rs:573-594 | directories that list each other in a circle have no finite tree of directories below them |
| PathFold.Normalize | xtask/src/debian.rs:277-289 | the component-stack version gives the folded form of the path from the root, whose laws are in PathFold.CanonicalLaws |
| PathFold.PushPart | libc/freeos/files.c:47-74 | in the buffer "" and "." change nothing, ".." leaves the last component but not the root, a name goes one level down; only a name is refused, exactly when the path would exceed 255 bytes |
| PathFold.PushPath | libc/freeos/files.c:77-92 | appending a whole path in the buffer is folding its components onto the stack, refusals included |
| PathFold.FoldingLaws | libc/freeos/files.c:47-74 | what one component does to a stack: ".." undoes the name before it and does nothing at the root, "" and "." change nothing |
| PathFold.BoundedFoldingLaws | libc/freeos/files.c:47-74 | the same for the bounded version, with the length at which a name is refused |
| PathFold.CanonicalLaws | xtask/src/debian.rs:277-289 | for every path text p and name c, the folded form of p/c is that of p and c, that of p/c/.. is that of p, and "." and empty components change nothing |
| PathFold.BufferRefinesStack | libc/freeos/files.c:47-92 | when the buffer version succeeds from the root it leaves a slash and exactly what the stack version gives |
| PathFold.FoldingComposes | libc/freeos/files.c:76-92 | folding a and then b is folding "a/b", refusals included |
| PathFold.FoldedIsFixed | libc/freeos/files.c:76-92 | a folded path is a fixed point of folding |
| PathFold.Process.ChangeDirectory | libc/freeos/files.c:136-159 | the directory moves exactly if the path is given, not empty, folds within 255 bytes and is a directory; each refusal has its own error and its exact cause, and leaves the current directory alone |
| PathFold.DownAndUp | libc/freeos/files.c:136-159 | going to a name and then to "..", if both are allowed, leads back to where one was |
| PathFold.TargetStarts | libc/freeos/files.c:94-146 | an absolute path leads on from the root, any other from the current directory |
| PathFold.CwdStaysFolded | libc/freeos/files.c:44-159 | under any sequence of chdir the current directory stays absolute, folded and at most 255 bytes |
| Closure.Collect | xtask/src/chromium.rs:219-247 | the worklist ends; it succeeds exactly when every reachable name can be served, and then the package has, under lib/, the data and mode of each reachable library the base lacks, no path twice and nothing else; a refusal names a reachable culprit and what is wrong with it |
| Closure.ReachableExactly | xtask/src/chromium.rs:219-241 | a name comes up exactly if it is a root, or a library that came up, is not in the base, was found and parsed names it |
| Closure.ReachableInClosed | xtask/src/chromium.rs:223-247 | what is reachable lies in every set closed under the needs: the result is the least such set |
| Wayland.ParseSplits | libc/linux/waylandcheck.c:168-179 | cutting what came, then the rest with what comes next, is cutting it all at once, for any bytes |
| Wayland.SplitsDoNotMatter | libc/linux/waylandcheck.c:139-182 | the messages and the bytes left do not depend on how the reads split the stream |
| Wayland.ParseLosesNothing | libc/linux/waylandcheck.c:169-179 | messages dispatched, written out again, and the bytes left are the bytes received |
| Wayland.CutByBytes | libc/linux/waylandcheck.c:169-179 | the cut at the bytes: bytes 6 and 7 say how long the first message is, bytes 0 to 3 its object, bytes 4 and 5 its opcode; it is cut off exactly if it has come whole and is not shorter than eight |
| Wayland.RawIsOnWire | libc/linux/waylandcheck.c:42-57 | the bytes of a message are exactly those with object, opcode and length in these places and its arguments after them |
| Wayland.TrafficIsCut | libc/linux/waylandcheck.c:169-179 | of well-formed traffic the messages cut are the first ones sent, the reader never stalls, and once all came all are cut |
| Wayland.AlwaysRoom | libc/linux/waylandcheck.c:136-151 | on well-formed traffic the 65536-byte buffer always has room for another read |
| Wayland.StallsExactly | libc/linux/waylandcheck.c:169-179 | after any bytes, no continuation of the stream brings another message if and only if what is left over begins with a size below eight |
| Wayland.StalledForGood | libc/linux/waylandcheck.c:173-173 | after a header with a size below eight nothing is ever cut again |
| Wayland.Inbox.Receive | libc/linux/waylandcheck.c:151-179 | after each read the buffer holds exactly what cutting the whole stream leaves, and the handler was given exactly the messages cut |
| Wayland.Builder.PutStr | libc/linux/waylandcheck.c:48-54 | a string goes in as four bytes of its length with the terminator, its bytes, and zeros, at least one, up to a whole word |
| Wayland.Builder.End | libc/linux/waylandcheck.c:55-76 | what is sent is the message, byte by byte, its length in the upper half of the second word |
| Wayland.BuiltMessageReadsBack | libc/linux/waylandcheck.c:42-76 | a built message, whatever follows it, is cut off with its id, opcode and arguments |
| Wayland.BindGlobal | libc/linux/waylandcheck.c:184-191 | the bind request on the wire carries exactly the name, interface, version and id |

## Left out

- The kernel side of the futex is assumed: a wait compares and parks atomically, a wake of one unparks one sleeper if there is any, a wake of 0 unparks all, a sleeper may return for no reason, and a timeout never fires early.
- Memory orders weaker than sequential consistency are not modelled.
- The threads layer is modelled as transition systems on values, not as classes, because its methods interleave; what a plain field holds is part of the state.
- CondWord.StepKeepsInv: does not model the wrap of the 32-bit signal counter.
- Semaphore.RunsAreSafe: the count of waiters is unbounded, and conservation past the limit is only up to the wrap of the value, because a unit handed out at the limit may be taken before it is undone.
- RwLock.RunsAreSafe: a straight run of plain accesses under the mutex is one step, since exclusion, proved of the word, keeps others out; the counters are unbounded; only a holder unlocks, since POSIX leaves any other unlock undefined.
- Monitor.RunsAreSafe: an unlock's test of the owner and its decrement of the count are one step, as are a wait's reads of counter and count, because only the owner changes what is read; a normal mutex is not locked again by its holder, which would deadlock, nor unlocked by somebody else, which POSIX leaves undefined.
- Monitor.TimeoutIsNeverEarly: the clock in the runs is monotone and can be read; the answer for a clock that cannot be read is in Deadline.MillisUntil.
- SignalLoss.SignalMissesExactly: a mutex held at the moment by a third thread inside a call is not covered, since that thread may owe a wake of its own, which comes first.
- Deadline.MillisRoundUp: the overflow of `long long` for deadlines centuries away is not modelled.
- ThreadLife.RunsAreSafe: each joinable thread gets at most one join or detach, as POSIX demands; allocation and the writes to a block before its thread starts are one step; running out of memory is left out.
- Weak compare-and-swap failing for no reason is modelled where the code asks for it, in the semaphore.
- A `pthread_once` whose initialiser calls it again on the same word, thread keys and their destructors, thread-local destructors, stack attributes and the locks of the C runtime are not modelled.
- Tls.LayOutX86 and Tls.LayOutArm: the file part of the template is at most its memory size and its alignment is 0 or a power of two, which the ELF format demands; the block's room must be below 2^64.
- Png.Unfilter: chunks, zlib, the colour kinds and the overflow of the 32-bit product of width and channels are left out, as is the averaging of icons.
- FatVolume.NormalizeDir: the directories form a tree with disjoint chains, none of them over a FAT entry, as on a freshly formatted volume (FatVolume.FormattedFatIsApart); where directories list each other in a circle there is no such tree (FatVolume.CircleHasNoTree), and the endless walk is not modelled.
- FatChain.ReadGeometry: arithmetic that would stop a checked build of the program is an error value; the writing of files by the FAT library and the capacity estimate are left out.
- PathFold.Process.ChangeDirectory: what `stat` answers is a parameter; `getcwd`, `realpath` and paths relative to a descriptor are left out.
- Closure.Collect: parsing of ELF files and the search of a name through directories and links are maps given from outside, and so are the names the program itself needs; fonts, icons and the package format are left out.
- Wayland.Inbox.Receive: descriptors passed beside the bytes, the deadline of the wait and what the handler does with a message are left out; Wayland.Builder takes a 16-bit opcode and arguments that fit the 256-word buffer, which the program does not check.
- Thin system-call wrappers and the example programs only pass values on; downloads, signing, package formats and image layout rest on programs and crates that are not part of this model; the icon renderer is floating-point geometry without a stated result.
