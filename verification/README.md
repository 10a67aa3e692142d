# Verified models of the concurrent and looping code in this repository

These Dafny modules model the algorithms of the repository that are more than system calls, and prove
what they guarantee. `dafny verify dfyconfig.toml` checks everything.

## What is modelled

**The request server (`M9Lab/M9`)** is modelled at two levels that share one specification.
`Fifo` is a plain first-in first-out queue. `LinkedQueue` is the heap: nodes with `data` and `next`,
and a queue object with `header`, `tail`, `size` and `isclosed`, updated by the statements of
`queue.c`. Fields of a node are reachable only through members that require the node to be live, so a
read or a second free of a freed node would not verify. `RequestServer` is a transition system: main
creates workers, sends requests, closes, joins and destroys; every worker locks, tests, waits,
dequeues, executes and quits. Mutex owner, waiting workers and pending broadcasts are explicit, the
body of a critical section is one step of the owner, and an action names the thread that moves, so a
run is a sequence of actions. `ServerSafety` holds for every run, spurious wakeups included;
`ServerTermination` counts them. `ServerRuns` says which runs there are. `ServerOnHeap` replays any
run on the linked list. A request is a pointer that may be NULL, because `create_request` can return NULL and a NULL item
makes a worker quit; the results say exactly what that costs. `numThreads` may be 0.

**Two writers on one file offset (`fork_r6_of.c`)**: `lseek` and `write` are atomic and complete, a
schedule says which process calls next. The constants 10, 80 and 100 are parameters. The file's own
header calls the outcome corruption; the theorems say exactly what it is: whole lines, whole lost
lines, and how many.

**Multithreaded copy (`mt_copy.c`)**: first the transfer loops with transfers of any size, then the
threads, each read and each write of a segment being one step. There a system call transfers all it is
asked for, but never more than a cap, which is a parameter (on Linux 0x7FFFF000 bytes). Lengths go
through a C `int` as in the source.

**HTTP proxy (`http_proxy.c`)**: request parsing and rewriting from absolute-form to origin-form
(sections 3.2.2 and 3.2.1 of RFC 9112). `sscanf`, `strstr`, `snprintf` and `strncat` are functions on
strings; the proxy's functions fill character arrays. `CStrings` and `Decimal` hold what several
modules need of the C library, `Basics` optional values and arithmetic.

**Loops**: the hex dump (`HexDump`), the two prime generators (`Primes`), row-block matrix
multiplication (`MatrixMul`), per-thread I/O buffers (`IoBuffers`) and the savings table
(`FutureValue`, with doubles read as reals).

## Where code and documentation differ

- `fork_r6_of.c` seeks so that each process has its own part of the file; with the child first, the file
  comes out that way exactly when the child is done before the parent seeks (`SharedOffset.AsMeantIff`).
- `mt_primes1.c` says its threads generate primes, for instance from 1 to 5000; a range starting at 1
  lists 1. `Primes.RangeRightIff` says when the range generator is right.
- `rlimit_primes.c` announces limits from 4 on but rejects 4, and for 5 it prints 4
  (`Primes.UpToRightIff`).
- `mt_primes1.c` guesses that its buffer holds about 25,000 primes; it holds 12,499 numbers
  (`Primes.FitsIff`).
- The loops of `fd_read` and `fd_write` look as if they completed partial transfers; they start over
  at the same place (`ParallelCopy.FullIffFirstCallIsFull`), so a slice beyond what one system call
  moves is not copied (`ParallelCopy.RightIffSegmentsFit`).

## Model

| member | source | states |
|---|---|---|
| Fifo.FirstInFirstOut | M9Lab/M9/queue.c:31-105 | for every sequence of operations on the plain queue, the items handed out followed by those pending are the items put, in order |
| LinkedQueue.Queue.constructor | M9Lab/M9/queue.c:7-27 | a new queue is valid and stands for the empty plain queue |
| LinkedQueue.Queue.Enqueue | M9Lab/M9/queue.c:31-48 | despite the second store into `tail->next`, the list stands for the old queue with the item at the end; exactly one fresh node is added |
| LinkedQueue.Queue.Close | M9Lab/M9/queue.c:53-56 | the queue is marked closed and nothing else changes |
| LinkedQueue.Queue.Dequeue | M9Lab/M9/queue.c:77-105 | one pass of the locked code ends as the plain queue says: first item, NULL because closed and empty, or wait; invariant kept with a stale `header->next` |
| LinkedQueue.Queue.TakeFirst | M9Lab/M9/queue.c:93-104 | unlinks and frees the first node, which is live, and no other; the plain queue loses its first item, which is returned |
| LinkedQueue.Queue.HopsFromHeader | M9Lab/M9/queue.c:37-47 | following `next` for `size` hops from the header visits distinct live nodes holding exactly the pending items in order |
| LinkedQueue.Queue.PerformAll | M9Lab/M9/queue.c:31-105 | for every sequence of operations the linked list goes through the states of the plain queue and returns its outcomes; what it hands out followed by what is left is what was there and what was put, in order |
| LinkedQueue.Queue.Destroy | M9Lab/M9/queue.c:72-75 | frees header and queue once; every data node ever allocated has been freed if and only if nothing was pending |
| WorkerThread.DoWork | M9Lab/M9/worker_thread.c:4-28 | on the heap queue, open or closed, a lone worker executes the items in order up to the first NULL, takes that too, counts the requests, and leaves the rest queued; it is blocked if and only if the queue is open and held no NULL |
| WorkerThread.StopsAtCut | M9Lab/M9/worker_thread.c:12-17 | what it takes is what the transition system says is taken with one worker |
| ServerOnHeap.Replay | M9Lab/M9/queue.c:31-105 | along every run the linked list stays valid and stands for the queue of the transition system, and each dequeue returns what the worker of that step goes on with |
| ServerOnHeap.RunToEnd | M9Lab/M9/main.c:46-60 | after a complete run and queue_destroy, every node ever allocated is freed if and only if fewer than numThreads of the requests before the last are NULL (or there is no request) |
| ServerSafety.StepInv | M9Lab/M9/queue.c:31-105 | every step of every thread keeps program order, mutual exclusion, FIFO history, covered waiters, one place per request, the counts and the reasons to quit |
| ServerSafety.ExecInv | M9Lab/M9/main.c:46-63 | the invariant holds after every run, spurious wakeups included |
| ServerSafety.EveryRequestInOnePlace | M9Lab/M9/worker_thread.c:12-23 | in every reachable state a sent non-NULL request is exactly once in exactly one of: queue, one worker's hands, executed; an unsent one is nowhere |
| ServerSafety.NoLostWakeup | M9Lab/M9/queue.c:37-60 | a worker blocked in the wait while the queue is non-empty or closed is covered by main, which changed it under the mutex and has not yet broadcast |
| ServerSafety.OneThreadInside | M9Lab/M9/queue.c:37-48 | at most one thread is between lock and unlock |
| ServerSafety.NothingAfterDestroy | M9Lab/M9/main.c:58-60 | once the queue is destroyed no thread ever moves again, so none touches it |
| ServerSafety.FinalState | M9Lab/M9/main.c:50-60 | when main has finished: all workers exited, exactly the non-NULL requests before the cut (just after the numThreads-th NULL, or the end) were executed once each, and the req_count values sum to their number |
| ServerSafety.CutAll | M9Lab/M9/worker_thread.c:14-17 | the cut is the end of the stream if and only if fewer than numThreads of the requests before the last are NULL |
| ServerSafety.CutMeans | M9Lab/M9/worker_thread.c:14-17 | a cut before the end is just after the numThreads-th NULL |
| ServerSafety.DrainedIff | M9Lab/M9/main.c:52-60 | the queue is empty when destroyed if and only if that condition holds |
| ServerSafety.EverythingServed | M9Lab/M9/worker_thread.c:12-24 | with a worker and no NULL, every request is executed exactly once and the counts sum to the number sent |
| ServerTermination.StepDecreases | M9Lab/M9/queue.c:77-105 | every step but a spurious wakeup makes an explicit measure smaller |
| ServerTermination.RunsAreBounded | M9Lab/M9/main.c:52-61 | a run of n workers and r requests with w spurious wakeups has at most (5n+1)(r+1+n)+9r+7n+8+6w steps |
| ServerTermination.RunsAreFinite | M9Lab/M9/main.c:52-61 | without spurious wakeups, a run has at most (5n+1)(r+1+n)+9r+7n+8 steps |
| ServerTermination.NoDeadlock | M9Lab/M9/thread_pool.c:36-51 | in a reachable state no thread can move if and only if main has finished, and then all workers have exited and been joined |
| ServerTermination.CanFinish | M9Lab/M9/main.c:52-63 | every reachable state can be run to the finished state within the measure |
| ServerRuns.WorkerCanMove | M9Lab/M9/queue.c:77-105 | in every reachable state a created worker can move if and only if it is not blocked in the wait, has not exited, and owns the mutex, finds it free, or is executing a request |
| ServerRuns.WaiterCanWake | M9Lab/M9/queue.c:80-84 | every worker blocked in the wait can wake up spuriously, and no other |
| ServerRuns.MainCanMove | M9Lab/M9/main.c:46-63 | main can move unless it needs an owned mutex, joins a worker that has not exited, or is done |
| ServerRuns.BroadcastWakesAll | M9Lab/M9/queue.c:48-60 | after a broadcast nobody is blocked in the wait |
| ServerRuns.WaiterToBeWoken | M9Lab/M9/queue.c:77-84 | for every configuration with a worker there is a run to a worker blocked while the queue is non-empty (or, without requests, closed) and the broadcast is pending |
| ServerRuns.SpuriousWakeupHappens | M9Lab/M9/queue.c:80-84 | there is a run with a spurious wakeup, after which the worker finds the queue empty and goes back to wait |
| ServerRuns.WorkersAtWork | M9Lab/M9/worker_thread.c:12-20 | any number of workers can execute requests at the same time while main is still sending |
| SharedOffset.WriteReadsBack | booksrc/ch10/fork_r6_of.c:54-66 | after a seek and a write the text reads back from where the seek went, every other byte is as before (holes read as zero), and a second write continues where the first ended |
| SharedOffset.FillLine | booksrc/ch10/fork_r6_of.c:43-76 | the buffer holds the letter c for the child and p for the parent, and ends in a newline |
| SharedOffset.WorkOnFile | booksrc/ch10/fork_r6_of.c:41-87 | alone at the file, a process does one seek and numlines writes from its own start |
| SharedOffset.SoloSchedule | booksrc/ch10/fork_r6_of.c:51-85 | the transition system's steps of one process are the calls of that loop |
| SharedOffset.WriteIsPut | booksrc/ch10/fork_r6_of.c:59-66 | writing a line at a line boundary changes that cell of the file and nothing else, byte for byte |
| SharedOffset.WritesAligned | booksrc/ch10/fork_r6_of.c:51-85 | in every interleaving each write starts at seekto plus a multiple of lnsize |
| SharedOffset.NoTornLines | booksrc/ch10/fork_r6_of.c:39-85 | in every interleaving the bytes before seekto are untouched and every cell is wholly a line of c, wholly a line of p, or a hole |
| SharedOffset.SurvivorsReadBack | booksrc/ch10/fork_r6_of.c:59-84 | every write not overwritten later reads back as its whole line |
| SharedOffset.OrderOfSchedule | booksrc/ch10/fork_r6_of.c:89-111 | the recorded seek order and early-write count are those of the schedule |
| SharedOffset.ChildFirstLosesNothing | booksrc/ch10/fork_r6_of.c:51-85 | child seeking first: in every complete interleaving no line is lost |
| SharedOffset.ParentFirstLoses | booksrc/ch10/fork_r6_of.c:51-85 | parent seeking first with m lines before the child's seek: exactly the parent's first min(m, numlines-m) lines are lost, at most half |
| SharedOffset.ParentFirstHappens | booksrc/ch10/fork_r6_of.c:51-85 | for every m up to numlines there is a complete run with the parent first and m early lines, so every loss up to half is reached |
| SharedOffset.CanFinish | booksrc/ch10/fork_r6_of.c:89-111 | any run can be continued until both processes are done, in exactly the calls that are left |
| SharedOffset.RunIff | booksrc/ch10/fork_r6_of.c:89-111 | a schedule is a run if and only if neither process makes more calls than its seek and its writes, whatever their order |
| SharedOffset.LogOfSchedule | booksrc/ch10/fork_r6_of.c:51-85 | the writes of a run are logged in the order of the schedule |
| SharedOffset.ChildFirstFile | booksrc/ch10/fork_r6_of.c:51-85 | the final file cell by cell when the child seeks first with m early lines: m lines of c, numlines-m holes, then all later lines in the order of the schedule |
| SharedOffset.ParentFirstFile | booksrc/ch10/fork_r6_of.c:51-85 | the same when the parent seeks first: all later lines in the order of the schedule, then what is left of its early lines |
| SharedOffset.FileSize | booksrc/ch10/fork_r6_of.c:51-85 | the size of the final file in both cases |
| SharedOffset.AsMeantIff | booksrc/ch10/fork_r6_of.c:41-85 | with the child first, the file is numlines lines of c followed by numlines lines of p if and only if the child is done before the parent seeks |
| ParallelCopy.FullIffFirstCallIsFull | booksrc/solutions_to_assgn/ch18/mt_copy.c:107-143 | the loop transfers everything and reports it if and only if its first call does |
| ParallelCopy.LoopMeans | booksrc/solutions_to_assgn/ch18/mt_copy.c:107-143 | for any results of the calls: the loop ends when the count reaches n, with -1 at the first failing call, or with the count at the first that moves nothing; the buffer is moved as far as the largest transfer |
| ParallelCopy.FdRead | booksrc/solutions_to_assgn/ch18/mt_copy.c:107-125 | for any partial transfers, end of file included, what the buffer then holds and what is returned |
| ParallelCopy.FdWrite | booksrc/solutions_to_assgn/ch18/mt_copy.c:127-143 | for any partial transfers, what the file then holds and what is returned |
| ParallelCopy.Transferred | booksrc/solutions_to_assgn/ch18/mt_copy.c:107-124 | a length survives the cap on one transfer and the C int if and only if it exceeds neither |
| ParallelCopy.DoMtCopy | booksrc/solutions_to_assgn/ch18/mt_copy.c:149-185 | a segment within cap and INT_MAX is at the same place in the destination byte for byte, nothing else changed, and 0 is returned; of a longer one as much as survives is copied, with -3 or -4 where a total turns negative as an int |
| ParallelCopy.SegmentCopied | booksrc/solutions_to_assgn/ch18/mt_copy.c:149-185 | byte for byte what the copy of a segment of any length leaves |
| ParallelCopy.StepCopies | booksrc/solutions_to_assgn/ch18/mt_copy.c:166-175 | in every reachable state, a thread's read changes nothing in the destination and its write does what one such copy of its segment does |
| ParallelCopy.FillParams | booksrc/solutions_to_assgn/ch18/mt_copy.c:246-280 | the loop fills every argument block with its slice |
| ParallelCopy.SegmentsPartition | booksrc/solutions_to_assgn/ch18/mt_copy.c:212-279 | an offset lies in a given segment if and only if it is in the file and that segment is its owner: slices and remainder are disjoint and cover the file |
| ParallelCopy.OldOrNew | booksrc/solutions_to_assgn/ch18/mt_copy.c:196-232 | at any moment of any interleaving each destination byte is the source's or the original one |
| ParallelCopy.CopiesEverything | booksrc/solutions_to_assgn/ch18/mt_copy.c:212-316 | every complete interleaving copies the whole source and keeps what the destination had beyond it |
| ParallelCopy.RightIffSegmentsFit | booksrc/solutions_to_assgn/ch18/mt_copy.c:107-185 | for a source without zero bytes and an empty destination, a complete copy is right if and only if slice and remainder exceed neither INT_MAX nor the cap on one transfer |
| ParallelCopy.LongSegmentFails | booksrc/solutions_to_assgn/ch18/mt_copy.c:107-185 | if a segment exceeds that limit there is a complete run, and its copy is wrong |
| ParallelCopy.CanFinish | booksrc/solutions_to_assgn/ch18/mt_copy.c:188-316 | any run can be continued until all threads are done |
| ParallelCopy.RunIff | booksrc/solutions_to_assgn/ch18/mt_copy.c:188-232 | a schedule is a run if and only if no thread makes more than a read and a write for each of its segments, whatever their order |
| HttpProxy.WordsOfPrinted | Final/proxy_server/http_proxy.c:82-83 | scanning a printed well-formed request yields its three words, all within their buffers |
| HttpProxy.ParsePrinted | Final/proxy_server/http_proxy.c:128-153 | parsing a printed request returns its host and port, 80 if absent |
| HttpProxy.RewritePrinted | Final/proxy_server/http_proxy.c:78-106 | rewriting yields verb, path ("/" if none), protocol and the header block unchanged, nothing cut off, and at least 7 bytes shorter than the original |
| HttpProxy.PortReadsBack | Final/proxy_server/http_proxy.c:163-174 | the port text in 6 bytes reads back as the port if and only if the port is in -9999..99999 |
| HttpProxy.WordsMeans | Final/proxy_server/http_proxy.c:83 | for any text, the first word is what stands between the leading spaces and the next space, and the others are those of the rest |
| HttpProxy.ScanIntReads | Final/proxy_server/http_proxy.c:135 | a number is read after spaces and an optional sign |
| HttpProxy.ScanIntFails | Final/proxy_server/http_proxy.c:135 | and nothing is read where no digit follows them |
| HttpProxy.AuthorityMeans | Final/proxy_server/http_proxy.c:134-142 | for any text, host and port when a number follows the colon, and when none does (all up to the slash, and 80) |
| HttpProxy.TargetMeans | Final/proxy_server/http_proxy.c:134-149 | accepted are exactly targets that start with http:// and go on, but not with a slash |
| HttpProxy.FindCrLfMeans | Final/proxy_server/http_proxy.c:102 | the first line end is found |
| HttpProxy.PathMeans | Final/proxy_server/http_proxy.c:86-91 | for any URL, the path is all from the first slash after the authority, cut to the array, or / |
| HttpProxy.RewriteMeans | Final/proxy_server/http_proxy.c:78-106 | for any request, what is sent: the line in origin-form, never cut, and what follows the first line end, cut to the array |
| HttpProxy.ScanAuthority | Final/proxy_server/http_proxy.c:135-142 | the two scans fill hostname and port as the specification of the authority says, for every input |
| HttpProxy.ParseHttpRequest | Final/proxy_server/http_proxy.c:128-153 | true is returned if and only if the second word starts with http:// and goes on, but not with a slash; then hostname and port are as ParseTarget says |
| HttpProxy.FillPath | Final/proxy_server/http_proxy.c:85-92 | the path array holds the URL's path or "/" |
| HttpProxy.AddHeaders | Final/proxy_server/http_proxy.c:98-106 | the output array holds the line followed by what comes after the first line end, cut to the buffer |
| HttpProxy.ForwardRequest | Final/proxy_server/http_proxy.c:78-115 | something is sent if and only if the second word starts with http://; it is Rewrite of the buffer, never longer than the array |
| HexDump.FreshLine | booksrc/ch18/mmap_file_simple.c:57-71 | the buffer is an empty line with its label |
| HexDump.PutByte | booksrc/ch18/mmap_file_simple.c:84-89 | the buffer is the line with one byte more |
| HexDump.ShowByte | booksrc/ch18/mmap_file_simple.c:73-90 | one round keeps: full lines printed, current line complete in the buffer |
| HexDump.PrintDump | booksrc/ch18/mmap_file_simple.c:36-94 | the lines printed are the dump of the first size bytes |
| HexDump.DumpReadsBack | booksrc/ch18/mmap_file_simple.c:73-93 | the hex columns read back as the data in order |
| HexDump.LineOfDump | booksrc/ch18/mmap_file_simple.c:55-93 | label, blank unused columns and newline of every line, and its text columns: the character itself for codes 32 to 126, otherwise a dot |
| HexDump.LabelReadsBack | booksrc/ch18/mmap_file_simple.c:78-79 | the label reads back as the offset if and only if it is below 1,000,000 |
| HexDump.NoNulInLine | booksrc/ch18/mmap_file_simple.c:74-75 | no line contains a NUL, so printing it as a string prints it all |
| Primes.TryDivisors | booksrc/solutions_to_assgn/ch16/mt_primes1.c:61-67 | the inner loop decides whether the candidate passes |
| Primes.PassesMeans | booksrc/solutions_to_assgn/ch16/mt_primes1.c:62-67 | passing means having no divisor in the tried range but itself |
| Primes.PassesIffPrime | booksrc/solutions_to_assgn/ch16/mt_primes1.c:60-75 | a candidate from 2 to the limit is judged rightly if and only if it is not 4 with a limit below 6 |
| Primes.SimplePrimegen | booksrc/solutions_to_assgn/ch16/mt_primes1.c:50-76 | the count and the appended text are those of the listed numbers |
| Primes.ItemMeans | booksrc/solutions_to_assgn/ch16/mt_primes1.c:70-72 | the text of a number is its decimal digits, right-aligned in six columns, a comma and a space |
| Primes.RenderReadsBack | booksrc/solutions_to_assgn/ch16/mt_primes1.c:70-73 | the appended text reads back as the listed numbers |
| Primes.PrimesInIsRight | booksrc/solutions_to_assgn/ch16/mt_primes1.c:43-49 | the reference list holds exactly the primes of a range, ascending |
| Primes.RangeRightIff | booksrc/solutions_to_assgn/ch16/mt_primes1.c:60-75 | the range generator lists exactly the primes if and only if start is at least 2 and not (start <= 4 <= limit < 6) |
| Primes.FitsIff | booksrc/solutions_to_assgn/ch16/mt_primes1.c:36-75 | below a million the text is 8 characters a number, and fits MEM_SIZE if and only if at most 12,499 are listed |
| Primes.PrimegenUpTo | booksrc/ch3/rlimit_primes.c:33-60 | prints 2, 3 and the listed numbers, 16 to a line, and what exactly the printed text is |
| Primes.PrintedReadsBack | booksrc/ch3/rlimit_primes.c:33-60 | the printed text, cut at its newlines, reads back as 2, 3 and the listed numbers, 16 to a line |
| Primes.UpToRightIff | booksrc/ch3/rlimit_primes.c:33-60 | the single-limit generator prints exactly the primes if and only if the limit is 3 or at least 6 |
| MatrixMul.MultiplyRow | booksrc/ch14/speed_multiprcs_vs_multithrd_simple/matrixmul/prcs_matrixmul.c:39-41 | the two inner loops add the inner product to every cell of one row and change no other |
| MatrixMul.MultiplyRows | booksrc/ch14/speed_multiprcs_vs_multithrd_simple/matrixmul/thrd_matrixmul.c:32-43 | the triple loop over a block of rows, or over all of them in sequence, adds the inner products to exactly those rows |
| MatrixMul.FirstIs | booksrc/ch14/speed_multiprcs_vs_multithrd_simple/matrixmul/thrd_matrixmul.c:62 | the first row of a block is its number times N/NCORES |
| MatrixMul.BlockRows | booksrc/ch14/speed_multiprcs_vs_multithrd_simple/matrixmul/thrd_matrixmul.c:37 | a row is in exactly one block |
| MatrixMul.InterleavingsAgree | booksrc/ch14/speed_multiprcs_vs_multithrd_simple/matrixmul/thrd_matrixmul.c:32-68 | every complete interleaving, with loads and stores apart, adds the inner product to each cell of the rows covered by blocks and leaves the others alone |
| MatrixMul.MultiplySequentially | booksrc/ch14/speed_multiprcs_vs_multithrd_simple/matrixmul/prcs_matrixmul.c:37-42 | the sequential loops leave the very matrix that every complete interleaving of the threads leaves, for any matrices and any thread count that divides N |
| MatrixMul.ProductIfDivides | booksrc/ch14/speed_multiprcs_vs_multithrd_simple/matrixmul/thrd_matrixmul.c:32-68 | with N divisible by the thread count and a zeroed result, the result is the product |
| MatrixMul.UnitLaws | booksrc/ch14/speed_multiprcs_vs_multithrd_simple/matrixmul/prcs_matrixmul.c:37-42 | the product with the unit matrix on either side is the other matrix |
| MatrixMul.ProductIffDivides | booksrc/ch14/speed_multiprcs_vs_multithrd_simple/matrixmul/thrd_matrixmul.c:50-68 | for the program's own matrices, if and only if |
| MatrixMul.UnevenRowsFail | booksrc/ch14/speed_multiprcs_vs_multithrd_simple/matrixmul/thrd_matrixmul.c:50-68 | if N is not divisible there is a complete run, and its result is wrong |
| MatrixMul.CanFinish | booksrc/ch14/speed_multiprcs_vs_multithrd_simple/matrixmul/thrd_matrixmul.c:32-68 | any run can be continued until all threads are done |
| MatrixMul.ThreadCanMove | booksrc/ch14/speed_multiprcs_vs_multithrd_simple/matrixmul/thrd_matrixmul.c:32-45 | in every reachable state a thread can move if and only if it is not through with its rows |
| IoBuffers.Testit | booksrc/ch16/mt_iobuf_rfct.c:41-67 | alone, the loop appends exactly the next bytes of the input |
| IoBuffers.ChunksKept | booksrc/ch16/mt_iobuf_rfct.c:53-66 | at any moment each thread's writes are its reads in order but for the buffered one, the bytes read are those of the input in chunks of the sizes delivered, and no byte is lost |
| IoBuffers.AllWritten | booksrc/ch16/mt_iobuf_rfct.c:76-94 | at the end each thread has written exactly its chunks in its own order, and lengths agree |
| IoBuffers.CanFinish | booksrc/ch16/mt_iobuf_rfct.c:76-94 | any run can be continued until all threads are done |
| IoBuffers.RunIff | booksrc/ch16/mt_iobuf_rfct.c:53-94 | a schedule is a run if and only if no thread makes more than numio reads and writes, whatever their order |
| FutureValue.Calculation | m2/future_value.c:37-56 | row y holds year, balance and interest after 12(y+1) months, in closed form from the annual percentage; for non-negative deposit and rate the interest column is non-negative and never decreases; each row is stored once, in order; other cells unchanged |
| FutureValue.ClosedForm | m2/future_value.c:43-47 | r F = M (1+r) ((1+r)^n - 1) |
| FutureValue.TableRow | m2/future_value.c:49-54 | the closed form of balance and interest for every row of the table |
| FutureValue.InterestGrows | m2/future_value.c:52 | for M, r >= 0 the interest is never negative and never decreases |

## Left out

- Critical sections are one step: a thread's statements between lock and unlock are not interleaved,
  which mutual exclusion (`ServerSafety.OneThreadInside`) and the rule that the queue is touched only
  inside them justify; `queue_isclose` is called only there.
- `malloc` failure in `queue.c` and `thread_pool.c`, thread-creation failure, and lock or join errors:
  the programs exit.
- What a request does (`tasks.c`), log output, random naps and timing: executing a request is one step
  that returns.
- The limit of 20 workers and of 5 copy threads: any number is allowed.
- FdWrite: does not cover a `pwrite` that reports zero bytes when asked for more, because the loop then
  tries again for ever.
- Transfers of the threads of `mt_copy.c` that stop short of the cap, `malloc` failure there, and
  source and destination being the same file.
- ScanAuthority: port numbers beyond the range of a C int are kept as they are, because `sscanf` leaves
  that case undefined.
- ParseHttpRequest: requests whose words overflow their buffers, or with fewer than two words, are
  excluded by its precondition, because the C code writes or reads beyond its arrays there.
- ForwardRequest: requests whose words overflow their buffers, or with fewer than three words, are
  excluded for the same reason.
- SimplePrimegen: limits above INT_MAX are excluded, because `%6d` prints them with a sign and the
  loop does not end for the largest one; the room in the buffer is a precondition the code never checks.
- PrimegenUpTo: limits above INT_MAX are excluded, because the parameter is an int; for INT_MAX itself the
  wrap-around of the loop counter is not modelled.
- Wrap-around of C ints in `size`, `req_count`, loop counters and matrix cells: numbers are unbounded.
- MultiplyRows: does not model overflow of the int cells.
- FutureValue: floating-point rounding, and the parsing and printing around the table.
- `Testit` and the threads of `IoBuffers`: end of the random stream and failing writes.
- Sockets, address lookup and response forwarding in `Final/proxy_server`; the library behind
  `Final/librequest` is not part of this model.
- `mt_primes2.c`, `cv_simple.c`, `mt_iobuf_mtx.c` and the signal, timer, scheduling and memory demos.
