# A model of the SIMpad kernel's bookkeeping and of its serial loader

The SIMpad tree holds a Linux 2.4 kernel and `serload`, which sends an image to the boot loader over a serial
line. This project models the parts of it that keep books in place. Each has a simple meaning that the code is far
from. The project proves that the code keeps that meaning, on all inputs or over all runs; where it does not, it
proves exactly when it does.

- **POSIX record locks** (`fs/locks.c`; `PosixLock*.dfy`, `WaitGraph.dfy`). `posix_lock_file` merges, replaces,
  splits and removes ranges in place on a linked list. Its meaning is a map from (owner, byte) to lock type. The
  sleeping requests of all inodes form a wait-for graph that `posix_locks_deadlock` walks.
- **System V message queues** (`ipc/msg.c`; `MessageQueue*.dfy`): a queue with direct hand-over to sleeping
  receivers. Its meaning is exactly-once delivery, in order per type.
- **System V semaphores** (`ipc/sem.c`; `Semaphore*.dfy`): operation arrays applied step by step and rolled back,
  and SEM_UNDO. Their meaning is all or nothing, and a conservation law.
- **seq_file** (`fs/seq_file.c`; `SeqFile.dfy`): a buffered, seekable reader over records. Its meaning is plain
  indexing into the text.
- **Pipes** (`fs/pipe.c`; `Pipe*.dfy`): a ring buffer between any readers and writers. Its meaning is a queue of
  bytes, and small writes in one piece.
- **Mounts** (`fs/namespace.c`; `TreeWalk.dfy`, `TreeMoves.dfy`, `Mount*.dfy`): walks over parent pointers and child
  lists, copying, moving and unmounting subtrees, with a hash and a count beside the tree.
- **The directory cache** (`fs/dcache.c`; `Dentr*.dfy`): `d_move`, lookup by hash, reference counts with the
  cascade of `dput`, and shrinking.
- **Disk quota** (`fs/dquot.c`; `Quota*.dfy`): charging all or none, conservation, when deadlines are kept, and a
  cache with one entry per user: what of it is on disk when it goes out of memory.
- **serload** (`serload/`; `SerialSender.dfy`): blocks, retransmission, and a checksum that is never reset.

`Lists.dfy` holds what they share about lists.

How the source is rendered: what the kernel changes in place is a class whose methods change the fields, or a
method with a loop; each is proved against a function or predicate on values, about which the theorems are. A
section under the big kernel lock, a spinlock or a namespace semaphore is one step, and a point where a process sleeps
ends a step; runs are sequences of steps in any interleaving. Linked lists are sequences; addresses are numbers.
Hash functions are parameters, so that the results hold for every one. Clocks, the answers of callbacks such as
`d_delete`, the replies on the serial line and the tests on inodes that are foreign to a module are parameters.

Where the code does not do what one would expect, the model follows the code, and the exact condition is proved:

- `caller->fl_end + 1` wraps for a lock up to OFFSET_MAX (`PosixLockFile.Apply`, `PosixLockTable.WrapExample`).
- the negation of the least msgtyp wraps (`MessageQueue.SearchesAsked`).
- `update_queue` does not come back to an array it has passed, which may then sleep on although it could go through
  (`SemaphoreSet.ScanLeavesBlocked`, `SemaphoreSet.NobodyOverlooked`, `SemaphoreQueue.OverlookedExample`).
- `sem_exit` clamps from below only, and the clamp can fire (`SemaphoreUndo.ExitTotal`, `SemaphoreUndo.ClampExample`,
  `SemaphoreUndo.AboveMaximumExample`).
- growing the buffer of a seq_file does not reset the count (`SeqFile.Reader.Read`,
  `SeqFile.LongRecordExample`).
- `switch_names` may leave the target with a wrong text (`DentryMove.SwitchNames`,
  `DentryMove.WrongNameExample`).
- a call that is refused may have started a grace time without marking the dquot, which is then lost with it
  (`QuotaUsage.RefusedStarts`, `QuotaReferences.RunNothingLost`, `QuotaLost.LostDeadlineExample`,
  `QuotaGrace.RunDeadline`, `QuotaEvicted.LostDeadlineExample`).
- a transfer of an inode that is not counted makes one; no run transfers such an inode (`QuotaUsage.TransferConserves`,
  `QuotaCalls.InodeFromNowhere`, `QuotaUsage.RunTransferConserves`).
- an image of whole blocks never gets an ETX (`SerialSender.EtxOnlyAtShortEnd`).

## Model

| member | source | states |
|---|---|---|
| PosixLockList.FindConflict | simpad-kernel/linux/fs/locks.c:884-889 | finds the first lock on the inode that conflicts with the request, and says so exactly when there is none |
| PosixLockList.TestLock | simpad-kernel/linux/fs/locks.c:633-647 | `posix_test_lock`: the first lock that conflicts with the arguments the other way round, or none |
| PosixLockList.ConflictIsClash | simpad-kernel/linux/fs/locks.c:541-572 | on any list of proper locks, a lock request meets a conflicting lock if and only if some byte is held by another owner in an incompatible type: the pairwise test decides the meaning over bytes |
| PosixLockWalk.FinishedSafe | simpad-kernel/linux/fs/locks.c:910-1024 | whatever the list looked like, the surgery keeps bounds and distinct locks, touches no other owner, invents no (owner, byte, type) that was neither held nor requested, and wakes the waiters of every lock that shrank, changed type or went |
| PosixLockWalk.FinishedGrants | simpad-kernel/linux/fs/locks.c:910-1024 | whatever the list looked like, the owner holds the requested type on all the requested bytes afterwards |
| PosixLockWalk.FinishedShape | simpad-kernel/linux/fs/locks.c:910-1024 | the finished list is the old one with one stretch of the caller's own locks exchanged; everything before and behind it is untouched |
| PosixLockWalk.FinishedKept | simpad-kernel/linux/fs/locks.c:978-1024 | each old lock is either woken or still there, with its owner and type, covering at least what it covered |
| PosixLockSplice.ResultWellFormed | simpad-kernel/linux/fs/locks.c:922-1001 | exchanging a stretch of the caller's locks for at most three pieces around the request keeps the list grouped by owner, sorted, disjoint and merged |
| PosixLockSplice.ResultExact | simpad-kernel/linux/fs/locks.c:910-1024 | such an exchange is exactly the map update of `fcntl()` record locking: the owner holds the requested type, or nothing, on the requested bytes, and every other (owner, byte) is as before, both directions |
| PosixLockFile.Skip | simpad-kernel/linux/fs/locks.c:910-917 | stops at the first lock of the caller, all others before it being of other owners |
| PosixLockFile.TurnSame | simpad-kernel/linux/fs/locks.c:922-949 | one turn at a lock of the same type keeps the loop invariant or stops with nothing of the owner within reach (or by the wrap of the end plus one) |
| PosixLockFile.TurnOther | simpad-kernel/linux/fs/locks.c:950-998 | one turn at a lock of another type (pass, stop, cut, delete, take over) keeps the loop invariant |
| PosixLockFile.Walk | simpad-kernel/linux/fs/locks.c:919-1002 | the loop over the owner's locks ends with the invariant and a reason to stop, and finds the left and right remnants |
| PosixLockFile.Finish | simpad-kernel/linux/fs/locks.c:1004-1024 | links in the new lock, splits or trims the remnants, and wakes their waiters |
| PosixLockFile.ClearVerdict | simpad-kernel/linux/fs/locks.c:922-1002 | a walk that stops clear of the owner's locks has neither harmed the order nor the update |
| PosixLockFile.WrappedVerdict | simpad-kernel/linux/fs/locks.c:925-931 | a walk stopped by the wrap-around of the request's end plus one leaves the list unordered, and the update wrong exactly if a later lock of the owner has another type |
| PosixLockFile.Apply | simpad-kernel/linux/fs/locks.c:903-1024 | the non-blocking part of `posix_lock_file`: on every list it is safe and what is asked for is held afterwards; on a well-formed one the result is well formed if and only if the wrap does not run onto a later lock, and is the exact `fcntl()` update if and only if it does not hide one of another type |
| PosixLockCanon.CanonicalUnique | simpad-kernel/linux/fs/locks.c:914-1024 | sorted, disjoint, merged ranges are determined by the bytes they hold |
| PosixLockCanon.SameHoldsSameLocks | simpad-kernel/linux/fs/locks.c:914-1024 | two well-formed lists on which an owner holds the same bytes have the same locks of that owner |
| PosixLockCanon.LockUnlockRestores | simpad-kernel/linux/fs/locks.c:860-1024 | locking bytes the owner did not hold and unlocking them again restores every owner's locks |
| PosixLockCanon.RequestsCommute | simpad-kernel/linux/fs/locks.c:860-1024 | requests of different owners, of disjoint ranges or of one type lead to the same locks in either order |
| PosixLockRemove.RemovePosix | simpad-kernel/linux/fs/locks.c:1684-1693 | the restarting removal loop takes exactly the locks of the file table off the list, in place and order of the rest, and wakes their waiters |
| PosixLockRemove.WithoutWellFormed | simpad-kernel/linux/fs/locks.c:1666-1695 | closing a file keeps the list well formed and drops exactly the table's (owner, byte) entries |
| WaitGraph.Deadlock | simpad-kernel/linux/fs/locks.c:663-689 | `posix_locks_deadlock` ends on every acyclic wait-for graph, and answers 1 if and only if the caller is reachable from the owner of the blocking lock |
| WaitGraph.DeadlockIsCycle | simpad-kernel/linux/fs/locks.c:663-689 | the answer is exact: it refuses a wait exactly when that wait would close a cycle |
| WaitGraph.BlockKeepsRanked | simpad-kernel/linux/fs/locks.c:891-900 | a wait that is let through keeps the graph acyclic |
| WaitGraph.RankedNoCycle | simpad-kernel/linux/fs/locks.c:648-662 | a ranked graph has no cycle of any length |
| WaitGraph.ChainEnds | simpad-kernel/linux/fs/locks.c:648-662 | every chain of waiting owners ends at one that does not wait |
| PosixLockTable.NextKeeps | simpad-kernel/linux/fs/locks.c:860-1024 | every step (grant, sleep, close, signal) on any inode keeps the whole invariant |
| PosixLockTable.RunSafe | simpad-kernel/linux/fs/locks.c:882-1024 | in every state of every run: no byte is write-locked by one owner and held by another, each sleeping request still conflicts with the live lock it sleeps on (no missed wake-up), and nobody waits in a cycle |
| PosixLockTable.RunChainEnds | simpad-kernel/linux/fs/locks.c:882-900 | in every state of every run each sleeper waits, over some owners, for one that is awake and holds a lock |
| PosixLockTable.GrantExact | simpad-kernel/linux/fs/locks.c:903-1024 | in a state of well-formed lists a grant is the exact update on its inode and changes no other, unless the request's end wraps onto a lock |
| PosixLockTable.RunWellFormed | simpad-kernel/linux/fs/locks.c:914-1024 | over every run without such a wrap the locks of each inode stay grouped by owner, sorted, disjoint and merged |
| PosixLockTable.WrapExample | simpad-kernel/linux/fs/locks.c:930-931 | on this well-formed list a request up to OFFSET_MAX leaves a list that is not well formed and a byte with both types |
| PosixLockTable.LockTable.SetLock | simpad-kernel/linux/fs/locks.c:860-1024 | `posix_lock_file` up to return or sleep: granted if and only if nothing conflicts; EAGAIN and EDEADLK change nothing, and EDEADLK means a cycle; otherwise the request sleeps on a lock in its way |
| PosixLockTable.LockTable.Update | simpad-kernel/linux/fs/locks.c:903-1024 | the part that cannot sleep grants the request and keeps the invariant |
| PosixLockTable.LockTable.WakeUp | simpad-kernel/linux/fs/locks.c:438-458 | takes exactly the waiters of the given locks off the blocked list, the others staying in order |
| PosixLockTable.LockTable.RemoveAll | simpad-kernel/linux/fs/locks.c:1666-1695 | `locks_remove_posix` on one inode, with its wake-ups |
| PosixLockTable.LockTable.Interrupt | simpad-kernel/linux/fs/locks.c:614-621 | a signalled waiter leaves the blocked list, and only that one |
| PosixLockTable.LockTable.GetLock | simpad-kernel/linux/fs/locks.c:1356-1390 | F_GETLK answers that the lock is free if and only if the same request without waiting would be granted; otherwise it names a conflicting lock; an unlock request is EINVAL |
| MessageQueue.FindMsg | simpad-kernel/linux/ipc/msg.c:754-768 | the search loop returns the message that the mode asks for (for a negative type the earliest one of least type), or none if and only if none matches |
| MessageQueue.ChoiceUnique | simpad-kernel/linux/ipc/msg.c:754-768 | that choice is unique |
| MessageQueue.SearchesAsked | simpad-kernel/linux/ipc/msg.c:580-598 | the test of a message after `convert_mode` is what msgrcv asks for in terms of msgtyp alone - any message, one of that type, with MSG_EXCEPT one of another, one of at most the absolute type - except for the least long, whose negation wraps and which matches nothing |
| MessageQueue.ChoicePromised | simpad-kernel/linux/ipc/msg.c:709-768 | the choice is the message promised for msgtyp: the first that is asked for, or, for a negative one, the first of the least type |
| MessageQueue.NoneAsked | simpad-kernel/linux/ipc/msg.c:709-768 | none is found if and only if no queued message is asked for, or msgtyp is the least long |
| MessageQueue.PipelinedSend | simpad-kernel/linux/ipc/msg.c:600-624 | the in-place loop over the receivers equals the recursive reference: who is refused, who wins, who stays |
| MessageQueue.PipelineExact | simpad-kernel/linux/ipc/msg.c:600-624 | the first receiver that matches and can hold the message gets it, exactly the matching ones before it are refused, the others stay in order and those behind it are left alone |
| MessageQueue.BothParts | simpad-kernel/linux/ipc/msg.c:607-621 | the receivers that stay are those that do not match, the refused tasks those of the ones that do, and together they are all |
| MessageQueue.PipelineFrom | simpad-kernel/linux/ipc/msg.c:600-624 | winner and refused are matching receivers that can, respectively cannot, take the size; without a winner no matching receiver is left asleep |
| MessageQueue.SendInOrder | simpad-kernel/linux/ipc/msg.c:686-696 | a direct hand-over never overtakes a queued message of the same type |
| MessageQueue.TakeInOrder | simpad-kernel/linux/ipc/msg.c:770-782 | taking the chosen message keeps the order of every type |
| MessageQueue.NextKeeps | simpad-kernel/linux/ipc/msg.c:600-843 | every step of the queue, interrupted senders and receivers included, keeps the invariant |
| MessageQueue.ExactlyOnce | simpad-kernel/linux/ipc/msg.c:600-843 | in every state of every run each message accepted is with the process that received it, handed to exactly one receiver, on the queue, or freed with it - once |
| MessageQueue.TypeOrder | simpad-kernel/linux/ipc/msg.c:600-843 | in every state of every run the messages of a type that have left are a prefix of those sent |
| MessageQueue.NobodySleepsInVain | simpad-kernel/linux/ipc/msg.c:600-843 | in every state of every run no queued message matches a receiver on the list, no sender sleeps while the bytes and messages queued leave room for its message, and the byte and message counters are right |
| MessageQueueCalls.Queue.Msgsnd | simpad-kernel/linux/ipc/msg.c:637-707 | `sys_msgsnd` up to return or sleep: accepted if and only if size and type are valid and the text and one message more fit beside what is queued; when it is refused or put to sleep; and the whole new state |
| MessageQueueCalls.Queue.Accept | simpad-kernel/linux/ipc/msg.c:686-696 | hand-over or enqueue |
| MessageQueueCalls.Queue.Msgrcv | simpad-kernel/linux/ipc/msg.c:728-816 | `sys_msgrcv` up to return or sleep, in terms of msgtyp: the promised message, E2BIG, ENOMSG or sleep, each exactly when; a call that sleeps matches exactly the messages it asks for and can hold exactly those it would not answer with E2BIG |
| MessageQueueCalls.Queue.Dequeue | simpad-kernel/linux/ipc/msg.c:775-782 | unlinks the chosen message and wakes all senders |
| MessageQueueCalls.Queue.Enlist | simpad-kernel/linux/ipc/msg.c:803-812 | joins the receivers a sender serves |
| MessageQueueCalls.Queue.Resume | simpad-kernel/linux/ipc/msg.c:817-843 | a receiver that runs again returns exactly what its slot holds, or leaves the list to retry or with EINTR |
| MessageQueueCalls.Queue.Unlink | simpad-kernel/linux/ipc/msg.c:837 | takes exactly the sleeper's own entry off the list |
| MessageQueueCalls.Queue.LeaveSenders | simpad-kernel/linux/ipc/msg.c:668-683 | a sender that goes on after sleeping, to retry or with EINTR, takes itself off the list, and only itself |
| MessageQueueCalls.Queue.SetLimit | simpad-kernel/linux/ipc/msg.c:540-560 | IPC_SET of the byte limit, waking all senders; the receivers are woken with what their slots hold already, so nothing of theirs changes |
| MessageQueueCalls.Queue.Remove | simpad-kernel/linux/ipc/msg.c:266-301 | IPC_RMID: every sleeper finds the queue gone |
| Semaphores.VerdictAt | simpad-kernel/linux/ipc/sem.c:251-292 | the array is stopped at the first operation that does not go through, with that operation's reason |
| Semaphores.VerdictDone | simpad-kernel/linux/ipc/sem.c:251-292 | and goes through if none is |
| Semaphores.UnbumpBump | simpad-kernel/linux/ipc/sem.c:298-308 | taking an operation back is exact whatever else happened to the semaphore |
| Semaphores.FinalSums | simpad-kernel/linux/ipc/sem.c:251-292 | after the array each value has grown by the sum of its operations, repeated indices included, and each adjustment shrunk by those with SEM_UNDO |
| Semaphores.DoneInRange | simpad-kernel/linux/ipc/sem.c:262-290 | an array that goes through keeps values between 0 and SEMVMX and adjustments in a short |
| Semaphores.VerdictAnswers | simpad-kernel/linux/ipc/sem.c:243-312 | in plain numbers: success if and only if each operation, given the start value and the sum of those before it, finds zero if it waits for zero and leaves value and adjustment in range; otherwise the first that cannot be done decides: sleep or EAGAIN by IPC_NOWAIT if it must wait, else ERANGE |
| SemaphoreSet.ScanPerforms | simpad-kernel/linux/ipc/sem.c:317-343 | `update_queue` equals carrying out, in queue order, exactly the arrays it dequeues with status 0 |
| SemaphoreSet.ScanLeavesBlocked | simpad-kernel/linux/ipc/sem.c:317-343 | whoever the pass leaves asleep had to sleep when it came by; only behind an array that takes something, could go through and was woken it did not look |
| SemaphoreSet.NobodyOverlooked | simpad-kernel/linux/ipc/sem.c:317-343 | if the pass carries out nothing but arrays that only wait for zero, all it passed must still sleep |
| SemaphoreSet.ScanAll | simpad-kernel/linux/ipc/sem.c:317-343 | each sleeping array is still there, was carried out, or left with an error |
| SemaphoreSet.ScanRefused | simpad-kernel/linux/ipc/sem.c:317-343 | and with an error only if EAGAIN or ERANGE was the answer when the pass came by |
| SemaphoreSet.NextKeeps | simpad-kernel/linux/ipc/sem.c:243-343 | every step on a set keeps its invariant |
| SemaphoreSet.SemSet.Turn | simpad-kernel/linux/ipc/sem.c:255-290 | one turn of the forward loop, and what the roll-back must subtract to undo it even when it stopped half-way |
| SemaphoreSet.SemSet.Forward | simpad-kernel/linux/ipc/sem.c:251-292 | the forward loop stops at the first operation that does not go through |
| SemaphoreSet.SemSet.Rollback | simpad-kernel/linux/ipc/sem.c:298-308 | the roll-back restores every value and adjustment |
| SemaphoreSet.SemSet.TryCore | simpad-kernel/linux/ipc/sem.c:243-312 | forward, then back unless all went through for real |
| SemaphoreSet.SemSet.TryAtomicSemop | simpad-kernel/linux/ipc/sem.c:243-312 | all or nothing over arbitrary arrays with repeated indices, with the answer in plain numbers; the dry run decides the same and changes nothing |
| SemaphoreSet.SemSet.UpdateQueue | simpad-kernel/linux/ipc/sem.c:317-343 | the pass over the queue, stopping at the first altering array that could go through |
| SemaphoreSet.SemSet.Semop | simpad-kernel/linux/ipc/sem.c:907-971 | `sys_semop` up to return or sleep: the answer in plain numbers, the place in the queue (at the end if any operation is not zero, marked if one is negative) and the new state |
| SemaphoreSet.SemSet.Resume | simpad-kernel/linux/ipc/sem.c:927-977 | `sys_semop` after sleeping: a woken array tries again with the same answer, sleeps on, or leaves the queue, which is then passed over if it alters; one that was not woken leaves with EINTR |
| SemaphoreSet.SemSet.NewUndo | simpad-kernel/linux/ipc/sem.c:810-838 | `alloc_undo` |
| SemaphoreSet.SemSet.SemExit | simpad-kernel/linux/ipc/sem.c:992-1055 | `sem_exit` for one set: the adjustments, clamped from below, then the queue |
| SemaphoreSet.SemSet.Unlink | simpad-kernel/linux/ipc/sem.c:1002-1011 | takes exactly the exiting process's entry off the queue |
| SemaphoreSet.SemSet.SetValue | simpad-kernel/linux/ipc/sem.c:635-652 | SETVAL: ERANGE without change outside 0..SEMVMX, else the value is set, its adjustments cleared and the queue scanned |
| SemaphoreSet.SemSet.SetValues | simpad-kernel/linux/ipc/sem.c:562-600 | SETALL: ERANGE without change if a value is above SEMVMX, else all are set, all adjustments cleared and the queue scanned |
| SemaphoreUndo.PerformTotal | simpad-kernel/linux/ipc/sem.c:251-292 | value plus registered adjustments changes only by the operations without SEM_UNDO |
| SemaphoreUndo.ScanTotal | simpad-kernel/linux/ipc/sem.c:317-343 | the same for everything `update_queue` carries out |
| SemaphoreUndo.AllocTotal | simpad-kernel/linux/ipc/sem.c:810-838 | a new undo record changes no total |
| SemaphoreUndo.SetTotals | simpad-kernel/linux/ipc/sem.c:562-652 | after SETVAL or SETALL nothing is owed to the semaphores set, and to the others what was owed before |
| SemaphoreUndo.ExitTotal | simpad-kernel/linux/ipc/sem.c:1038-1047 | an exit gives each value its adjustment, but not less than zero; it keeps the total if and only if the clamp does not fire, and stays within SEMVMX if and only if the sum does |
| SemaphoreUndo.ClampExample | simpad-kernel/linux/ipc/sem.c:1038-1047 | a run from zero records with nothing but SEM_UNDO operations, at whose end an exit would be clamped |
| SemaphoreUndo.AboveMaximumExample | simpad-kernel/linux/ipc/sem.c:1038-1047 | a run from zero records and values within SEMVMX in which an exit leaves a value above SEMVMX |
| SemaphoreUndo.ScanBounded | simpad-kernel/linux/ipc/sem.c:317-343 | `update_queue` keeps all values within SEMVMX |
| SemaphoreUndo.NextBounded | simpad-kernel/linux/ipc/sem.c:243-343 | of all the steps (semop, the queue pass, SETVAL, SETALL, exits, ...) exactly the exits with a sum above SEMVMX leave the range |
| SemaphoreUndo.RunBounded | simpad-kernel/linux/ipc/sem.c:243-343 | in every run the values stay within SEMVMX up to any state if and only if no exit before it has a sum above it |
| SemaphoreUndo.UndoRunRestores | simpad-kernel/linux/ipc/sem.c:243-343 | in every run with SEM_UNDO operations only and no clamped exit, once all records are gone every value is what it was at the start |
| SemaphoreUndo.RunNonNegative | simpad-kernel/linux/ipc/sem.c:243-343 | in every run no value is negative and no adjustment leaves its range |
| SemaphoreQueue.ScanRaises | simpad-kernel/linux/ipc/sem.c:317-343 | `update_queue` lowers no value: arrays that take something are only woken to try themselves |
| SemaphoreQueue.RunScanRaises | simpad-kernel/linux/ipc/sem.c:317-343 | so in every run |
| SemaphoreQueue.OverlookedExample | simpad-kernel/linux/ipc/sem.c:322-342 | a run in which the pass carries out an array that gives what one in front of it waits for, and leaves that one asleep though it could go through |
| SeqFile.Reader.Show | simpad-kernel/linux/fs/seq_file.c:279-295 | a record is appended, or the buffer marked full |
| SeqFile.Reader.Flush | simpad-kernel/linux/fs/seq_file.c:64-79 | what is buffered is handed out first, and what the reader stands for shrinks by exactly that |
| SeqFile.Reader.LoadFirst | simpad-kernel/linux/fs/seq_file.c:80-97 | the record is in the buffer behind junk that is empty if and only if the record fitted the old buffer, since growing does not reset the count |
| SeqFile.Reader.Fill | simpad-kernel/linux/fs/seq_file.c:100-117 | whole records are added as long as they are wanted and fit |
| SeqFile.Reader.HandOut | simpad-kernel/linux/fs/seq_file.c:118-128 | the rest stays in the buffer for the next call |
| SeqFile.Reader.Refill | simpad-kernel/linux/fs/seq_file.c:80-128 | the part of `seq_read` behind the flush, for an empty buffer |
| SeqFile.Reader.Read | simpad-kernel/linux/fs/seq_file.c:45-142 | returns text at the file position and stays in agreement with plain indexing if and only if the record it must load fits the buffer; always moves by what it returned, returns something whenever text remains and records are shorter than the buffer, and with a record that does not fit hands out up to two buffers of whatever it has |
| SeqFile.Reader.Visit | simpad-kernel/linux/fs/seq_file.c:159-181 | one record of `traverse`: before, at or behind the offset, or too long |
| SeqFile.Reader.Traverse | simpad-kernel/linux/fs/seq_file.c:144-190 | puts the reader at an offset as plain indexing would, or doubles the buffer because a record does not fit |
| SeqFile.Reader.Lseek | simpad-kernel/linux/fs/seq_file.c:198-226 | from any state a seek to another position puts the reader where plain indexing would be, so it repairs a reader that a read has left wrong; a seek to the same position, or EINVAL, leaves a right one right |
| SeqFile.Reader.Session | simpad-kernel/linux/fs/seq_file.c:45-226 | any sequence of reads and seeks returns exactly the text at the positions, for records shorter than a page |
| SeqFile.Judge | simpad-kernel/linux/fs/seq_file.c:91-97 | junk from a grown buffer always shows: the output is right if and only if there is none |
| SeqFile.LongRecordExample | simpad-kernel/linux/fs/seq_file.c:80-97 | a file of one record as long as the buffer, of which a read for two buffers returns twice as many bytes as the text has |
| PipeRing.MaskIsWrap | simpad-kernel/linux/include/linux/pipe_fs_i.h:20-39 | on the machine words, masking with PIPE_SIZE - 1 is the wrapped offset of the model |
| PipeRing.WrapIsRemainder | simpad-kernel/linux/include/linux/pipe_fs_i.h:20-39 | and that is the remainder |
| PipeRing.RingTake | simpad-kernel/linux/fs/pipe.c:88-106 | reading a chunk up to the end of the buffer takes the oldest bytes |
| PipeRing.RingPut | simpad-kernel/linux/fs/pipe.c:188-207 | writing a chunk behind the newest byte leaves all others alone |
| PipeRing.DrainedIs | simpad-kernel/linux/fs/pipe.c:86-106 | the chunks of a read are the oldest bytes, in order and across the wrap, and the ring keeps the rest |
| PipeRing.FilledIs | simpad-kernel/linux/fs/pipe.c:186-207 | the chunks of a write go behind the newest byte, and no other byte is touched |
| PipeCalls.Pipe.ReadChunk | simpad-kernel/linux/fs/pipe.c:88-106 | one chunk of the read in place |
| PipeCalls.Pipe.Read | simpad-kernel/linux/fs/pipe.c:86-121 | hands out as much as is wanted and there, as one step of a run; it falls short only by emptying the pipe, so the BUG behind it cannot fire |
| PipeCalls.Pipe.HasRoom | simpad-kernel/linux/fs/pipe.c:162-178 | the test a writer waits for: room for all of a write of at most PIPE_BUF bytes that has not begun, else for one byte |
| PipeCalls.Pipe.WriteChunk | simpad-kernel/linux/fs/pipe.c:186-207 | one chunk of the write in place |
| PipeCalls.Pipe.Write | simpad-kernel/linux/fs/pipe.c:184-210 | writes what there is room for, as one step of a run; a write of at most PIPE_BUF bytes is then complete |
| PipeCalls.Pipe.WriteTurn | simpad-kernel/linux/fs/pipe.c:162-228 | a writer gets on if and only if the pipe has room for all of a small write, or is not full for a larger one or one that has begun; otherwise nothing changes |
| PipeRuns.NextKeeps | simpad-kernel/linux/fs/pipe.c:86-228 | every read and every batch of a write, of any reader and writer, keeps: bytes read plus ring are the bytes written |
| PipeRuns.RunOrder | simpad-kernel/linux/fs/pipe.c:162-228 | in every state of every run each writer's bytes are in the order written, and a write of at most PIPE_BUF bytes is absent or in one piece in what the readers got and the ring holds |
| PipeRuns.RunFifo | simpad-kernel/linux/fs/pipe.c:86-228 | in every state of every run, with readers and writers interleaved, what the readers were given is a prefix of what was written and the ring in the buffer holds exactly the rest |
| PipeRuns.RunGrows | simpad-kernel/linux/fs/pipe.c:86-228 | what has been read or written is only ever added to |
| SerialSender.ChecksumSplit | serload/serialdownload.cpp:321-324 | the accumulator's start value contributes its own shift and nothing else |
| SerialSender.ChecksumForgets | serload/serialdownload.cpp:300-392 | after eight bytes the start value is forgotten, so a checksum that is never reset is right on every retry |
| SerialSender.ShortRemembers | serload/serialdownload.cpp:321-324 | seven bytes would not be enough |
| SerialSender.ChecksumIsLastEight | serload/serialdownload.cpp:321-324 | the checksum of eight bytes or more is the exclusive or of the last eight, each shifted left by its distance from the end |
| SerialSender.OneByteChange | serload/serialdownload.cpp:321-324 | changing a byte changes the checksum by the difference shifted by its distance from the end: the last byte always, none before the last eight ever, and those between if and only if a bit of the difference is not shifted out |
| SerialSender.WaitForReply | serload/serialdownload.cpp:178-220 | returns the first byte of the input that is one of the five control characters and what follows it, or says that there is none |
| SerialSender.WaitForStx | serload/serialdownload.cpp:354 | skips to behind the next STX |
| SerialSender.VerdictIs | serload/serialdownload.cpp:354-389 | among whatever else comes over the line, behind the first STX the first control character decides, and only ACK_OK accepts |
| SerialSender.PrepareBlock | serload/serialdownload.cpp:311-345 | the block is filled up to 512 bytes, and the running checksum over all of them is that of its last eight |
| SerialSender.TryBlock | serload/serialdownload.cpp:309-391 | one attempt: the right frame, with the checksum of its last eight bytes, whatever the accumulator held, accepted if and only if the reply says so |
| SerialSender.SendBlock | serload/serialdownload.cpp:300-392 | for any replies: all attempts carry the same right frame, with the padded data and the checksum of its last eight bytes, the verdicts are those of the replies, and only the last can be accepted |
| SerialSender.DataOfBlocks | serload/main.cpp:103-128 | the blocks, padded, concatenate to the image filled up to a multiple of 512 |
| SerialSender.EtxOnlyAtShortEnd | serload/main.cpp:123-128 | ETX goes out exactly for a short last block; an image of whole blocks never gets one |
| SerialSender.SendNext | serload/main.cpp:110-128 | one block: it goes through if and only if the replies accept it in the end, and then exactly its frame is added to what was accepted |
| SerialSender.AnyPattern | serload/serialdownload.cpp:300-392 | every finite pattern of rejections, each block accepted in the end, gets all blocks through |
| SerialSender.Download | serload/main.cpp:103-128 | for any image and any replies: it succeeds if and only if the replies get every block through, the accepted frames are those of the blocks before the first that does not get through, in order and each once, and on success the data is the padded image |
| TreeWalk.NextMnt | simpad-kernel/linux/fs/namespace.c:116-130 | the pointer walk equals the reference "first child, else next sibling of the nearest ancestor below the root" |
| TreeWalk.PreMember | simpad-kernel/linux/fs/namespace.c:116-130 | the preorder of a mount holds exactly the mounts below it |
| TreeWalk.PreNoDup | simpad-kernel/linux/fs/namespace.c:116-130 | each once |
| TreeWalk.ParentFirst | simpad-kernel/linux/fs/namespace.c:116-130 | each behind its parent |
| TreeWalk.WalkIsPreorder | simpad-kernel/linux/fs/namespace.c:116-130 | started at the root, `next_mnt` goes through exactly that preorder and then ends |
| MountCopy.Ascend | simpad-kernel/linux/fs/namespace.c:432-435 | climbing from the last mount and its copy together arrives at the parent of the next mount and the copy of that parent |
| MountCalls.MountSpace.CloneTo | simpad-kernel/linux/fs/namespace.c:437-444 | a clone is attached below the given mount, hash and counts included |
| MountCalls.MountSpace.CloneNext | simpad-kernel/linux/fs/namespace.c:431-446 | one mount more is copied below the copy of its parent, in the mount table |
| MountCalls.MountSpace.CopyTree | simpad-kernel/linux/fs/namespace.c:419-455 | in the mount table, with hash and counts kept in order: the copy is a parent-preserving bijection with equal mountpoints, roots and superblocks and reversed child lists, the original being unchanged; it fails if and only if there is no memory for every clone, and then everything but the clones is as before |
| MountUmount.UmountUndoes | simpad-kernel/linux/fs/namespace.c:448-454 | `umount_tree` of an unfinished copy takes exactly the clones out of tree, hash chains and counts |
| MountCopy.CopyIsTree | simpad-kernel/linux/fs/namespace.c:419-447 | original and copy together are trees again |
| MountCopy.CopyOwnTree | simpad-kernel/linux/fs/namespace.c:419-447 | the copy is a tree of its own, each mount behind its parent |
| MountCopy.CopyTwice | simpad-kernel/linux/fs/namespace.c:419-447 | the walk of the copy covers the whole copy, and the copy of a copy has the children in the original order |
| MountTable.NextKeeps | simpad-kernel/linux/fs/namespace.c:96-147 | attaching, detaching, adding a mount and noting a mountpoint keep the tree, the hash chains and the counts |
| MountTable.RunGood | simpad-kernel/linux/fs/namespace.c:96-114 | in every run the parents stay acyclic, the hash holds exactly the attached mounts in their chains, and `d_mounted` counts the mounts on each directory |
| MountTable.DetachUndoesAttach | simpad-kernel/linux/fs/namespace.c:96-114 | detaching undoes attaching, down to the order of lists and chains |
| MountTable.CountPositive | simpad-kernel/linux/include/linux/dcache.h:269-272 | `d_mounted` is not zero if and only if something is mounted there |
| TreeMoves.MoveKeepsTree | simpad-kernel/linux/fs/namespace.c:598-605 | moving a mount leaves a tree if and only if the new place is not in its own subtree |
| MountCalls.FoundIsMounted | simpad-kernel/linux/fs/namespace.c:69-85 | `lookup_mnt` finds a mount attached at the place, or none if and only if there is none |
| MountCalls.FoundAfterAttach | simpad-kernel/linux/fs/namespace.c:107-114 | attaching changes the answer at that place to the new mount, and nowhere else |
| MountCalls.FoundAfterDetach | simpad-kernel/linux/fs/namespace.c:96-105 | detaching changes no answer at another place |
| MountUmount.DescendantsLater | simpad-kernel/linux/fs/namespace.c:258-266 | in the walk no mount precedes one it is below of, so the reversed list has descendants first |
| MountUmount.UmountedStep | simpad-kernel/linux/fs/namespace.c:268-282 | in the order of the list each mount has no children left when its turn comes, and detaching it leaves everything else as it was |
| MountCalls.MountSpace.Add | simpad-kernel/linux/fs/namespace.c:132-147 | a mount of its own, attached nowhere, as `clone_mnt` makes it |
| MountCalls.MountSpace.Attach | simpad-kernel/linux/fs/namespace.c:107-114 | `attach_mnt`, with the whole new state; `lookup_mnt` then finds the mount |
| MountCalls.MountSpace.Detach | simpad-kernel/linux/fs/namespace.c:96-105 | `detach_mnt`, with the whole new state |
| MountCalls.MountSpace.LookupMnt | simpad-kernel/linux/fs/namespace.c:69-85 | the scan of the chain returns the most recently attached mount of the place |
| MountCalls.MountSpace.CheckMnt | simpad-kernel/linux/fs/namespace.c:87-94 | climbs to the root of the tree and compares |
| MountCalls.MountSpace.FollowDown | simpad-kernel/linux/fs/namespace.c:572-573 | the loop ends, below where it started, at a place where nothing is mounted |
| MountCalls.MountSpace.Inside | simpad-kernel/linux/fs/namespace.c:598-601 | the ELOOP loop answers exactly whether the target is in the subtree of the mount |
| MountCalls.MountSpace.MoveMount | simpad-kernel/linux/fs/namespace.c:557-616 | `do_move_mount`: each error exactly when and without effect, ELOOP being the answer exactly when the move would not leave a tree; otherwise the mount is where it was asked for and the invariant holds |
| MountCalls.MountSpace.GraftTree | simpad-kernel/linux/fs/namespace.c:457-485 | `graft_tree`: each error exactly when; otherwise the tree is attached |
| MountCalls.MountSpace.KillList | simpad-kernel/linux/fs/namespace.c:258-266 | the list is the walk, reversed |
| MountCalls.MountSpace.UmountTree | simpad-kernel/linux/fs/namespace.c:258-282 | every mount of the subtree ends up alone and off its chain; all others keep parent, mountpoint and, in order, their remaining children and hash neighbours |
| Dentries.PutKeeps | simpad-kernel/linux/fs/dcache.c:118-160 | dropping a reference, with the cascade upwards, keeps counts, unused list, hash and tree |
| Dentries.PutCases | simpad-kernel/linux/fs/dcache.c:118-160 | when the count reaches zero the dentry is live, childless and not on the unused list (the BUG cannot fire); then it stays, or is freed and its parent follows |
| Dentries.PutFrees | simpad-kernel/linux/fs/dcache.c:118-160 | `dput` frees exactly those in the chain upwards that the reference `Falling` lists |
| Dentries.PutFreesDoomed | simpad-kernel/linux/fs/dcache.c:118-160 | over the hash chains: `dput` frees exactly the dentries from the given one upwards of which each has no other reference and is on no hash chain or unwanted; with a single reference left, the dentry stays if and only if it is on a hash chain and not unwanted |
| Dentries.PutUndoesGot | simpad-kernel/linux/fs/dcache.c:118-226 | dropping a reference just taken restores the cache, up to the place among the unused |
| Dentries.HeldAlive | simpad-kernel/linux/fs/dcache.c:118-160 | what is held is not freed, nor is anything above it |
| Dentries.FoundIsKnown | simpad-kernel/linux/fs/dcache.c:703-738 | `d_lookup` finds a hashed child with the name, or none if and only if the parent has none |
| DentryMove.SwitchNames | simpad-kernel/linux/fs/dcache.c:857-871 | the dentry gets the target's name; the target gets the dentry's length and hash always, and its text if and only if that was external or happens to stand in the target's buffer |
| DentryMove.WrongNameExample | simpad-kernel/linux/fs/dcache.c:857-871 | "a" moved over "b" leaves the target with the text "b" |
| TreeMoves.SwapKeepsTree | simpad-kernel/linux/fs/dcache.c:898-926 | trading parents leaves a tree if and only if neither dentry is an ancestor of the other |
| DentryMove.MovedKeeps | simpad-kernel/linux/fs/dcache.c:898-926 | `d_move` leaves tree, child lists, hash chains, counts and unused list in order if and only if neither dentry is an ancestor of the other |
| DentryMove.MovedFound | simpad-kernel/linux/fs/dcache.c:898-926 | with unique names, after `d_move` lookup finds the dentry at the place of a hashed target, nothing at its own old place, and everywhere else what it found before |
| Dentries.RehashTwinless | simpad-kernel/linux/fs/dcache.c:833-840 | `d_rehash` keeps names unique if and only if no hashed dentry has the name and place already |
| Dentries.RehashFound | simpad-kernel/linux/fs/dcache.c:833-840 | after `d_rehash` a lookup of its name finds the dentry itself, whoever else has that name |
| DentryNames.NextUnique | simpad-kernel/linux/fs/dcache.c:118-926 | a step of the cache keeps names unique if and only if it hashes no dentry whose name is taken |
| DentryNames.RunUnique | simpad-kernel/linux/fs/dcache.c:118-926 | in every run names are unique up to any state if and only if no `d_rehash` before it hashed a dentry whose name was taken |
| DentryNames.RunMovedFound | simpad-kernel/linux/fs/dcache.c:898-926 | in every such run lookup after `d_move` finds the dentry at the place of the target, nothing at its own old place, and everywhere else what it found before |
| TreeMoves.ChildlessApart | simpad-kernel/linux/fs/namei.c:1753-1760 | for a childless target the test `is_subdir(target, dentry)` alone suffices |
| DentryCalls.DirCache.Drop | simpad-kernel/linux/fs/dcache.c:118-160 | one reference less: the dentry is freed if and only if it was the last and the dentry is on no hash chain or unwanted |
| DentryCalls.DirCache.DropOne | simpad-kernel/linux/fs/dcache.c:118-160 | one round of `dput`, up to where the lock is given up, is one step of a run; the last reference leaves the dentry alive if and only if it is on a hash chain and not unwanted; it is done, or the parent is to be put next |
| DentryCalls.DirCache.Dput | simpad-kernel/linux/fs/dcache.c:118-160 | the loop ends, does what the recursive reference does, and frees exactly the dentries upwards that nothing keeps, in terms of counts and hash chains |
| DentryCalls.DirCache.FreeLast | simpad-kernel/linux/fs/dcache.c:294-347 | freeing the last unused dentry, up to where the lock is given up, is one step; the reference to the parent is then in hand |
| DentryCalls.DirCache.SecondChance | simpad-kernel/linux/fs/dcache.c:335-341 | a dentry used lately goes to the front of the list instead, and there are fewer of them |
| DentryCalls.DirCache.DgetLocked | simpad-kernel/linux/fs/dcache.c:218-226 | one reference more, off the unused list if it was the first |
| DentryCalls.DirCache.DAlloc | simpad-kernel/linux/fs/dcache.c:586-634 | a new dentry with the name, one reference and no children, the first child of its parent, which has one reference more |
| DentryCalls.DirCache.DAllocRoot | simpad-kernel/linux/fs/dcache.c:670-683 | a new root with one reference |
| DentryCalls.DirCache.DDrop | simpad-kernel/linux/include/linux/dcache.h:146-152 | out of its chain, and only that one |
| DentryCalls.DirCache.Search | simpad-kernel/linux/fs/dcache.c:703-731 | the scan of the chain returns the first child of the parent with that hash, length and text |
| DentryCalls.DirCache.DRehash | simpad-kernel/linux/fs/dcache.c:833-840 | into the chain of parent and name hash, where lookup of its name finds it |
| DentryCalls.DirCache.DLookup | simpad-kernel/linux/fs/dcache.c:703-738 | a reference to what lookup finds, which is marked as used lately; otherwise nothing changes |
| DentryCalls.DirCache.IsSubdir | simpad-kernel/linux/fs/dcache.c:1075-1092 | exactly whether one dentry is below the other |
| DentryCalls.DirCache.DMove | simpad-kernel/linux/fs/dcache.c:898-926 | `d_move` step by step, with the whole new state |
| DentryCalls.DirCache.HaveSubmounts | simpad-kernel/linux/fs/dcache.c:432-468 | the goto walk answers exactly whether something is mounted on the dentry or below it |
| DentryCalls.DirCache.SelectParent | simpad-kernel/linux/fs/dcache.c:477-523 | the goto walk moves exactly the unused descendants to the end of the unused list, in order, and counts them |
| DentryCalls.DirCache.PruneOne | simpad-kernel/linux/fs/dcache.c:294-306 | freeing the last unused dentry shrinks the cache, leaves every survivor where it was and every outside reference counted; what goes besides is above it |
| DentryCalls.DirCache.PruneDcache | simpad-kernel/linux/fs/dcache.c:321-352 | ends; throws away at most the number asked for, and exactly that many unless it runs out of unused dentries; whatever goes besides is above one of those; survivors keep parent, name and hashing |
| DentryCalls.DirCache.ShrinkDcacheParent | simpad-kernel/linux/fs/dcache.c:531-537 | ends, each round freeing at least one dentry, with no unused descendant left and nothing freed that is held |
| DentryShrink.LastUnused | simpad-kernel/linux/fs/dcache.c:326-347 | the dentry taken off the end of the list is live, childless and has count zero (the BUG cannot fire) |
| DentryRuns.NextKeeps | simpad-kernel/linux/fs/dcache.c:118-352 | each round of `dput` and of pruning, taking references, allocating, hashing, moving and selecting keep the cache in order, whoever comes in between |
| DentryRuns.RunGood | simpad-kernel/linux/fs/dcache.c:118-537 | so in every run from the empty cache |
| DentryRuns.RunExact | simpad-kernel/linux/fs/dcache.c:118-537 | in every state of every run `d_count` is the outside holders plus the children, the unused list holds exactly the live dentries without references, all leaves, `nr_unused` is its length, and nothing is freed that is held or has children |
| DentryLeaves.LastPut | simpad-kernel/linux/fs/dcache.c:135-149 | a dentry whose last reference is dropped stays, as the first of the unused ones, if and only if it is on a hash chain and not unwanted |
| DentryLeaves.NextLeaves | simpad-kernel/linux/fs/dcache.c:118-352 | a step frees a dentry if and only if it drops the last reference while the dentry is on no hash chain or unwanted, or throws it away as the last of the unused ones and not used lately |
| DentryLeaves.RunLeaves | simpad-kernel/linux/fs/dcache.c:118-352 | so in every run a dentry that goes, goes by one of these two |
| DentryLeaves.RunPruned | simpad-kernel/linux/fs/dcache.c:118-352 | in every run a dentry that stays on a hash chain and that its filesystem never wants deleted leaves the cache by pruning only |
| DentryLeaves.RunSpared | simpad-kernel/linux/fs/dcache.c:321-347 | in every run a dentry with the mark of a lookup is not thrown away before the pruning has spared it once |
| DentryShrink.PruneKeeps | simpad-kernel/linux/fs/dcache.c:294-306 | throwing away an unused dentry keeps the invariant with all outside references as they were |
| QuotaUsage.NextKeeps | simpad-kernel/linux/fs/dquot.c:955-1217 | allocation and release of blocks and inodes, transfer, attaching, dropping, writing, going out of memory and refused calls keep every dquot at or above what its inodes have, and what is not marked in the file but for grace times |
| QuotaUsage.FreeIsExact | simpad-kernel/linux/fs/dquot.c:648-670 | in every covered state releasing blocks or an inode subtracts exactly that: the saturation never happens |
| QuotaUsage.FreeUndoesAllocate | simpad-kernel/linux/fs/dquot.c:1020-1129 | releasing what was just allocated, blocks or an inode, restores the usage |
| QuotaUsage.TransferKeeps | simpad-kernel/linux/fs/dquot.c:1135-1217 | a transfer of an allocated inode keeps every dquot at or above what its inodes have |
| QuotaUsage.TransferConserves | simpad-kernel/linux/fs/dquot.c:1185-1207 | a transfer conserves the blocks of each kind of quota, and the inodes if and only if the old dquot counted one |
| QuotaUsage.RunTransferConserves | simpad-kernel/linux/fs/dquot.c:1135-1217 | in every run a transfer of an allocated inode conserves the blocks and the inodes of each kind |
| QuotaUsage.RunCovered | simpad-kernel/linux/fs/dquot.c:955-1217 | in every run each dquot counts at least the blocks and the inodes that its inodes have |
| QuotaUsage.FreshInv | simpad-kernel/linux/fs/dquot.c:955-1000 | dquots as read and inodes not attached yet are covered |
| QuotaUsage.RefusedStarts | simpad-kernel/linux/fs/dquot.c:745-815 | a refused call changes a dquot, without marking it, if and only if that passes and has its grace time started before a later kind is refused, or has its inode grace time started in a transfer and is then refused the blocks |
| QuotaUsage.PassesGranted | simpad-kernel/linux/fs/dquot.c:745-815 | a call passes the checks if and only if every dquot to be charged grants it: an exempt caller unless it preallocates above the soft limit while no grace time runs, anybody else within the hard limit and, above the soft limit, before the deadline, or without one yet and not preallocating |
| QuotaUsage.AllocWithinLimit | simpad-kernel/linux/fs/dquot.c:745-815 | a charge that passes stays within the hard limits unless the caller is exempt |
| QuotaUsage.TransferWithinLimit | simpad-kernel/linux/fs/dquot.c:1165-1180 | the same for a transfer |
| QuotaCalls.Quotas.CheckAll | simpad-kernel/linux/fs/dquot.c:1031-1037 | the checks of a call end with the first that fails, and the dquots are left as the checks up to there leave them |
| QuotaCalls.Quotas.AllocBlock | simpad-kernel/linux/fs/dquot.c:1020-1052 | succeeds if and only if every dquot of the inode grants the blocks; then all are charged, otherwise it is a refused call |
| QuotaCalls.Quotas.AllocInode | simpad-kernel/linux/fs/dquot.c:1057-1089 | the same for an inode |
| QuotaCalls.Quotas.FreeBlock | simpad-kernel/linux/fs/dquot.c:1094-1109 | releases from every dquot of the inode |
| QuotaCalls.Quotas.FreeInode | simpad-kernel/linux/fs/dquot.c:1114-1128 | the same for an inode |
| QuotaCalls.Quotas.TransferInode | simpad-kernel/linux/fs/dquot.c:1135-1217 | succeeds if and only if every new dquot of a kind transferred grants the inode and its blocks; otherwise it is a refused call |
| QuotaCalls.InodeFromNowhere | simpad-kernel/linux/fs/dquot.c:1185-1207 | a transfer of an inode that nobody counts makes one |
| QuotaGrace.AllocFair | simpad-kernel/linux/fs/dquot.c:745-815 | an allocation that passes starts a grace time, of the right length, if it exceeds a soft limit, of blocks or inodes, and changes no running one |
| QuotaGrace.TransferFair | simpad-kernel/linux/fs/dquot.c:1165-1207 | a transfer to another owner does the same on both sides |
| QuotaGrace.TakeFair | simpad-kernel/linux/fs/dquot.c:648-670 | a release ends the grace time if and only if the usage falls below the soft limit |
| QuotaGrace.NextFair | simpad-kernel/linux/fs/dquot.c:636-815 | a step keeps a deadline, unless the usage falls below the soft limit, if and only if it does not take an unmarked dquot out of memory whose deadline is not in the file |
| QuotaGrace.RunFair | simpad-kernel/linux/fs/dquot.c:636-815 | in every run whoever is over a soft limit, of blocks or inodes, has a deadline, in memory and in the file |
| QuotaGrace.RunStarts | simpad-kernel/linux/fs/dquot.c:745-815 | in every run a deadline that begins in a step is the time of that step plus the grace time, unless the dquot is read from the file |
| QuotaGrace.RunDeadline | simpad-kernel/linux/fs/dquot.c:636-815 | in every run a deadline stays as it is, as long as the usage does not fall below the soft limit, if and only if it is not lost with an unmarked dquot |
| QuotaGrace.RunKept | simpad-kernel/linux/fs/dquot.c:636-815 | a deadline that is marked or in the file cannot be lost |
| QuotaGrace.RunGraceEnds | simpad-kernel/linux/fs/dquot.c:745-815 | in every run, whoever has been over a soft limit and never below it since is charged no more of it, by allocation or transfer, once the deadline of that time has passed, unless the caller is exempt |
| QuotaGrace.RunGraceLasts | simpad-kernel/linux/fs/dquot.c:745-815 | in every run, whoever has been over a soft limit and never below it since is granted more, to a caller who is not exempt, if and only if the deadline of that time has not come and the hard limit is kept |
| QuotaGrace.RunGranted | simpad-kernel/linux/fs/dquot.c:1020-1217 | in every run an allocation or a transfer goes through if and only if every dquot to be charged grants it |
| QuotaGrace.RunMustGrant | simpad-kernel/linux/fs/dquot.c:776-815 | in every run a request for blocks that keeps every dquot within its hard limit is granted if each stays within its soft limit, is before its deadline, or has none yet and nothing is preallocated |
| QuotaGrace.RunExempt | simpad-kernel/linux/fs/dquot.c:776-815 | in every run an exempt caller is refused blocks if and only if it preallocates above a soft limit while no grace time runs |
| QuotaEvicted.LostDeadlineExample | simpad-kernel/linux/fs/dquot.c:776-815 | a run in which a deadline is lost although the usage never falls below the soft limit: the user's grace time is started, the group is refused, the dquot goes out of memory unmarked |
| QuotaReferences.NextKeeps | simpad-kernel/linux/fs/dquot.c:264-540 | every step of every process, while dquots are being allocated, read and, on several filesystems at once, written, keeps the invariant, also the check that changes a dquot without marking it |
| QuotaReferences.RunInv | simpad-kernel/linux/fs/dquot.c:264-540 | in every run from the empty cache `dq_count` is the number of slots and references in flight, the free list holds exactly the unreferenced dquots, none of them marked, and the chains hold exactly the live dquots that have a key |
| QuotaReferences.PrunedIsClean | simpad-kernel/linux/fs/dquot.c:394-409 | a dquot given back to memory has no reference, and all it says is on disk if and only if it was not changed without a mark |
| QuotaReferences.RunOneTruth | simpad-kernel/linux/fs/dquot.c:478-523 | in every run there is at most one dquot for a user or group, although `dqget` sleeps between search and insertion, and once read it says what was last put into that quota, by whichever dquot, if and only if that was not lost |
| QuotaReferences.RunFileTrue | simpad-kernel/linux/fs/dquot.c:264-297 | in every run, where no dquot is marked or on its way, the quota file says what was last put into a quota if and only if that was not lost and no dquot was changed without a mark |
| QuotaReferences.RunLost | simpad-kernel/linux/fs/dquot.c:394-409 | in every run a quota is lost if and only if a dquot of it that was changed without a mark was given back to memory, and nothing was put into the quota since |
| QuotaReferences.RunNothingLost | simpad-kernel/linux/fs/dquot.c:362-455 | in every run a dquot given back to memory has no reference, and all it says on disk if and only if it was not changed without a mark; `dqput` never finds its last reference on the free list, and `sync_dquots` never takes a dquot that is on it |
| QuotaLost.LostDeadlineExample | simpad-kernel/linux/fs/dquot.c:420-455 | whatever the hash function, a run from the empty cache that gives back to memory a dquot whose running grace time is not on disk |
| QuotaReferences.ReadKeeps | simpad-kernel/linux/fs/dquot.c:299-331 | what is read is what was last put into the quota if and only if that was not lost |
| QuotaReferences.ClaimKeeps | simpad-kernel/linux/fs/dquot.c:491-504 | making the empty dquot that of a key keeps it the only one |
| QuotaReferences.SyncSafe | simpad-kernel/linux/fs/dquot.c:362-391 | `sync_dquots` may raise the count without looking at the free list, because a modified or locked dquot is never on it |
| QuotaReferences.LastIsClean | simpad-kernel/linux/fs/dquot.c:420-455 | the last reference is in no slot, nobody reads or writes the dquot and it is not on the free list |
| QuotaCache.DquotCache.FindDquot | simpad-kernel/linux/fs/dquot.c:156-167 | finds the dquot of a key in its chain, or none if and only if there is none at all |
| QuotaCache.DquotCache.DqgetTurn | simpad-kernel/linux/fs/dquot.c:478-513 | `dqget` between two points where it may sleep: which of its ways it goes, exactly when, each one step of a run |
| QuotaCache.DquotCache.ReadDone | simpad-kernel/linux/fs/dquot.c:299-331 | the end of `read_dquot` |
| QuotaCache.DquotCache.WriteStart | simpad-kernel/linux/fs/dquot.c:264-288 | `write_dquot` from the semaphore on: what the dquot says is copied and the mark removed |
| QuotaCache.DquotCache.WriteDone | simpad-kernel/linux/fs/dquot.c:289-297 | the copy is in the file, and is what the dquot says unless it was changed again |
| QuotaCache.DquotCache.Dqput | simpad-kernel/linux/fs/dquot.c:420-455 | each branch of `dqput` exactly when, with the whole new state: the last reference to a dquot that is not modified puts it at the end of the free list |
| QuotaCache.DquotCache.PruneDqcache | simpad-kernel/linux/fs/dquot.c:394-409 | gives back as many as asked for from the end of the free list, none of them referred to, each with all it says on disk if and only if it was not changed without a mark |

## Left out

- PosixLockTable.LockTable.SetLock: flock locks, leases and LOCK_MAND are not on the lists, so the absence of wait cycles is for runs with POSIX locks only; ENOLCK, when a lock cannot be allocated, is not modelled.
- WaitGraph.Deadlock: is stated for acyclic graphs, which every run has; the loop of the source would not end on a cycle.
- `locks_mandatory_area`, which relies on a global order of starts that the list does not have, and lockd's use of `posix_block_lock`.
- MessageQueueCalls.Queue.Msgsnd: copying from and to user space, permissions and the system-wide counters are left out.
- SemaphoreSet.SemSet.TryAtomicSemop: `sempid` is left out; the roll-back does not restore it exactly.
- SemaphoreSet.NobodyOverlooked: that no runnable array is left is false in general; it is proved for every pass that raises no value. When one raises a value, who could go through then depends on the values, by the answer in plain numbers.
- SemaphoreSet.SemSet.Semop: EFBIG, E2BIG, permissions and a set removed while asleep are left out.
- SeqFile.Reader.Read: errors of the record operations, failed copies and failed allocations are left out, and records do not change between calls.
- PipeCalls.Pipe.Read: signals, closed ends and non-blocking mode are left out.
- MountCalls.MountSpace.UmountTree: the namespace's own list of mounts, reference counts of mounts and the release of paths are left out.
- `copy_namespace`, which pairs the mounts of a tree and of its copy by list order although the copy is reversed, and `pivot_root`.
- DentryCalls.DirCache.DLookup: a filesystem's own comparison of names (`d_compare`) is left out; names are compared as text.
- DentryCalls.DirCache.Dput: the inode of a dentry is left out; its release can sleep.
- `d_invalidate`, `shrink_dcache_sb`, `d_prune_aliases` would only add easy members; `d_genocide` breaks the counts on purpose.
- QuotaCalls.Quotas.AllocBlock: counters are unbounded integers, and warnings to the terminal are left out.
- QuotaCalls.Quotas.AllocInode: is for one inode, which is what every caller asks for, and for one that is not counted yet.
- QuotaCalls.Quotas.TransferInode: that the counts stay in order is promised for an inode that is allocated, as those of `notify_change` are.
- QuotaUsage.RunCovered: that a dquot already counts an inode and its blocks when the inode is attached is taken from the quota file.
- QuotaReferences.RunNothingLost: reading and writing the quota file are taken to succeed; the code forgets the modification when a write fails.
- QuotaGrace.RunFair: is for clocks and grace times that do not add up to zero, which the code takes for no deadline, and without `set_dqblk`, which changes limits.
- `set_dqblk`, quota on and off and invalidation overwrite usage or tear down the cache from outside.
- SerialSender.SendBlock: `write()` is taken to succeed; opening the port, baud rates and polling are left out.
- Drivers, memory management, the page cache, the network, the control panel and `xcalibrate`.
