# Models of five programs of the client test suite

This project models the parts of five C programs that hold an algorithm or a
protocol, and proves what they are for. Each program has its own modules; the
code that changes state step by step is imperative Dafny proved against
functions, and the concurrent programs are state machines over their statements.

- **The prime lister** `linux-tools/gmp/primes.c` (`NumberTheory`, `PrimeList`,
  `PrimeSieve`, `PrimeLister`): a base list of odd primes, windows of odd numbers
  that are crossed out with it, and an offset per list entry that is carried from
  window to window. Main result: `ListPrimes` reports exactly the primes of
  [from, to], each once and in order, over any number of windows, with the right
  largest gap; and exactly when a run is well defined at all (`WellDefinedIff`).
- **The scanner core** `ltp/scan.c` (`LexSpec`, `Scanner`): the match loop with its
  state stack, backing up, the two sentinels, refill and replay. Main result: the
  rules and texts that `Yylex` delivers are those of a specification that knows the
  files only, so they do not depend on how reads cut them up (`TwoReadings`); no
  byte is lost (`RunConserves`); what is matched is said without backing up, trailing
  context included (`SelectsIff`); and the scanner gives up only where matching looks
  as far ahead as the buffer or the longest text is long (`FarRun` in `ScanAll`).
- **The message protocol** `hackbench/src/hackbench.c` (`HackbenchGroup`,
  `Hackbench`): any number of groups, senders, loops, any message size and pipe
  capacity, any interleaving of partial writes and reads, in process and in thread mode.
  Main results: nothing is sent before everybody is ready, every run comes to an end, and
  there every receiver has read exactly its messages and every pipe is empty exactly if
  the messages for a receiver fit its unsigned counter (`DeliversIff`); when threads get
  stuck otherwise (`ThreadsFinishIff`), and that processes never do.
- **The I/O engine** `aiostress/aio-stress.c` (`AioModel`, `AioCounts`, `AioFiles`,
  `AioThread`, `AioStages`, `AioWorker`, `AioMain`, `AioTeam`, `TeamProgress`,
  `TeamStarving`, `OperList`, `StageBarrier`, `RandomOffset`, `BufferLayout`, `Bits`):
  one thread against a kernel that takes any part of what is submitted, performs it in
  any order and thereby makes the files grow; the lists an operation moves through; the
  stages; the barrier between threads; the threads together, sharing files and barrier
  and cutting each other off; and the one allocation that all buffers are cut from. Main
  results: when `Worker.Run` ends, every selected stage was visited once, in order, and
  complete for every operation; exactly when a single thread ends with all contexts
  covered (`AioMain.SingleThread`) and exactly when several threads all get through
  (`TeamStarving.GetsThroughIff`, for the contexts of main `AioMain.ThreadsEndIff`);
  `StageBarrier.OneStageAtATime`; and `BufferLayout.Setup`.
- **The timer statistics** `cyclictest/src/cyclictest.c` (`ValueRing`, `DecimalText`,
  `KernVars`, `Bits`): a ring written and printed without synchronisation, and the
  table that puts kernel variables back. Main results: which latency a printed line
  shows in every interleaving (`LinesAreLatencies`), and which variables are restored
  (`RestoreUndoes`).

Where something the source counts on is not always so, the exact condition is
proved:

- `PrimeLister.WellDefinedIff`: a top below 5, or, beyond the square of the largest limit,
  ends that coincide or lie the wrong way round with a distance whose low word is 0 or no
  unsigned int, break the setup arithmetic.
- `Hackbench.DeliversIff`: from 2^32 messages for a receiver on its counter wraps around, and
  no run delivers; `ThreadsFinishIff` says when threads then block for good, and
  `TooManyLoops` is such an input.
- `AioWorker.Worker.Run` and `AioMain.SingleThread`: a single thread never ends if its
  first stage is the read stage and a file is shorter than the start of a context;
  `AioMain.NewFileStarves` is such an input, and `Worker.RunActiveList` then changes
  nothing, round after round. `AioMain.ThreadsEndIff`: several threads do not get through if
  this is so for every one of them, or without stonewalling for any.
- `AioMain.SingleThread`: and the requests of a context, rounded up to whole rounds, have to
  fit an int; `NegativeTotal` and `FiveOfManyRecords` are inputs whose number of requests
  becomes negative, or too small.
- `BufferLayout.Setup`: the size of the allocation is right exactly if it can be computed in
  int; beyond that the wrapped size is too small for the buffers or negative
  (`WrappedIsTooSmall`), as with `FourGigabytes`.
- `RandomOffset.EndsInsideIff` and `BeginsInsideIff`: random requests leave a context with
  no more whole megabytes than the alignment, and begin before one for certain record
  lengths; `LargeRecordBeginsBefore` is such an input.
- `ValueRing.LinesAreLatencies` and `Overrun`: a line is right exactly as far as less than
  a ringful was stored after its cycle.
- `KernVars.RestoreUndoes`: a variable is restored exactly if it was backed up in time or
  left unchanged anyway; `Program.SetKernvar`: names have to fit the path and the table.
- `StageBarrier.FinishIffSameStages`: the threads finish exactly if they run equally many
  stages.

Environment: reads, writes, submissions and completions are nondeterministic within
stated bounds; `mpz_t` is `int`; the window size, the word size, `SIEVE_LIMIT`, the buffer
size, the ring size and the like are parameters. `mpz_probab_prime_p` is a function
parameter; the reported numbers are characterised for any such function, and are the primes
when it is not consulted or is exact.

## Model

| member | source | states |
|---|---|---|
| NumberTheory.PrimeFactorBelowRoot | linux-tools/gmp/primes.c:326-334 | a number above 1 that is not prime has a prime factor whose square does not exceed it; the reason the base list may stop at the root |
| NumberTheory.OddPrimeFactorBelowRoot | linux-tools/gmp/primes.c:326-334 | the same for odd numbers with odd factors, the only ones sieved with |
| NumberTheory.EuclidsLemma | linux-tools/gmp/primes.c:266-269 | a prime that divides a product divides a factor |
| NumberTheory.CrossedAlong | linux-tools/gmp/primes.c:281-283 | from a crossed-out odd number on, the cells that an odd q crosses out are exactly every q-th one |
| PrimeList.CrossOut | linux-tools/gmp/primes.c:279-284 | zeroes exactly every step-th cell from the start on and nothing else, and stops at the first such index past the end |
| PrimeList.SquareCellTest | linux-tools/gmp/primes.c:330-331 | the cell of i*i is zero exactly if i is composite, so that the loop sieves with exactly the primes |
| PrimeList.CrossOutComposites | linux-tools/gmp/primes.c:324-334 | a cell is zero iff its number has an odd prime factor p with p*p below the limit and not above the number |
| PrimeList.CollectPrimes | linux-tools/gmp/primes.c:335-342 | the list is the surviving numbers in order, each with the mark -1 |
| PrimeList.BaseListFromCells | linux-tools/gmp/primes.c:335-345 | the survivors, trimmed by the last adjustment, are a base list |
| PrimeList.MakePrimelist | linux-tools/gmp/primes.c:317-346 | for every limit from 2 on: strictly increasing, all odd primes up to the limit, and nothing else but possibly the limit itself when it is the square of an odd prime |
| PrimeSieve.StartOffset | linux-tools/gmp/primes.c:253-271 | the offset found is that of the first number in or behind the window that the entry crosses out; otherwise its square lies past the window |
| PrimeSieve.PositionedNext | linux-tools/gmp/primes.c:281-283 | the index left over after a window is the entry's first offset in the adjacent window |
| PrimeSieve.BreakLosesNothing | linux-tools/gmp/primes.c:259-262 | because the list is increasing, no entry from the break on crosses anything out in this window |
| PrimeSieve.CrossOutEntry | linux-tools/gmp/primes.c:278-284 | one more entry is crossed out of the window, exactly, and its position carried over |
| PrimeSieve.SieveEntry | linux-tools/gmp/primes.c:250-286 | one turn of the loop: either the early break with nothing changed, or the window sieved with one more entry |
| PrimeSieve.SieveRegion | linux-tools/gmp/primes.c:226-288 | cell k is zero iff some list entry q divides fr+2k and q*q does not exceed it; and the offsets are right for the adjacent window |
| PrimeLister.Reporter.Report | linux-tools/gmp/primes.c:79-97 | the number joins those reported, and the counters follow, with low words only |
| PrimeLister.MaxgapIsLargestGap | linux-tools/gmp/primes.c:87-96 | for any reported sequence of 2 and odd numbers with gaps below 2^64, maxgap is the largest consecutive difference, although only low words are kept and 0 means none yet |
| PrimeLister.FindPrimes | linux-tools/gmp/primes.c:290-314 | the word-skipping scan with its padded last word reports the same numbers in the same order as a plain scan of the cells below ssize |
| PrimeLister.ReadWord | linux-tools/gmp/primes.c:299-310 | one non-zero word: the same as a plain scan of its cells, stopping at the end of the window |
| PrimeLister.ScanIsAccepted | linux-tools/gmp/primes.c:197-214 | scanning a sieved window reports exactly the odd numbers without a factor in the base range that are below the square of the limit or pass the test |
| PrimeLister.NoFactorMeansPrime | linux-tools/gmp/primes.c:181-182 | below the square of limit + 1 an odd number without a small prime factor is prime |
| PrimeLister.AcceptedArePrimes | linux-tools/gmp/primes.c:305-307 | with a limit that reaches the root, or an exact test, the accepted numbers are the primes |
| PrimeLister.WellDefinedIff | linux-tools/gmp/primes.c:163-187 | for all ends, a run is well defined iff the top is at least 5 and it is not the case that, at or beyond the square of SIEVE_LIMIT, the upper end does not lie above the lower and the low word of their distance is 0 or no unsigned int |
| PrimeLister.WellDefinedRange | linux-tools/gmp/primes.c:163-187 | for a range with from at most to this leaves out exactly tops below 5 and a single odd candidate beyond that square |
| PrimeLister.OneWindow | linux-tools/gmp/primes.c:210-211 | one window reports what is accepted in it and carries the list over |
| PrimeLister.SieveWindows | linux-tools/gmp/primes.c:195-214 | over any number of windows, the last one clipped, what is reported is what one pass over all candidates accepts |
| PrimeLister.ListPrimes | linux-tools/gmp/primes.c:156-214 | reports exactly the primes of [from, to] in increasing order when the limit is the root of the top or the test is exact; beyond the square of SIEVE_LIMIT, with any test, 2 and exactly the odd numbers without an odd prime factor up to SIEVE_LIMIT, or up to the distance of the ends if less, that pass the test or lie below the square of one more; and, when asked for, the largest gap of what it reported |
| PrimeLister.ReportedArePrimes | linux-tools/gmp/primes.c:156-180 | the setup of both ends and of the limit loses no prime and adds no number |
| PrimeLister.ReportedWithAnyTest | linux-tools/gmp/primes.c:171-182 | whatever the probabilistic test does, every prime it accepts is reported, nothing outside the range or with a small factor is, and the order is strictly increasing |
| PrimeLister.ReportedIsListed | linux-tools/gmp/primes.c:163-180 | what is reported beyond the square of the largest limit, from the ends alone: a number with a small odd prime factor never is, and one without is if it passes the test or is small enough |
| LexSpec.StoppingEarly | ltp/scan.c:961-975 | once no further byte can be consumed, backing up from here finds the match of the whole rest of the file |
| LexSpec.SelectsIff | ltp/scan.c:977-1017 | for all tables, backing up finds exactly this match: the longest text with a full match and its first full entry; an ordinary rule takes it all, a rule with trailing context the longest part at which its head may end |
| LexSpec.LongestIsAlive | ltp/scan.c:961-1017 | a match never ends beyond where the automaton jams |
| LexSpec.StepConsumes | ltp/scan.c:943-1019 | a token takes exactly its text off the front of the remaining input |
| LexSpec.RunConserves | ltp/scan.c:943-1400 | no byte is lost, repeated or reordered over a run, and all are delivered when it ends at the end of the input |
| LexSpec.StepIs | ltp/scan.c:895-898 | a token is the longest match at its place in the file, in the start state for the tokens so far and for whether the place begins the file or follows a newline |
| LexSpec.RunBeginsLines | ltp/scan.c:895-898 | along a run the beginning-of-line flag is set before a token exactly if it begins its file or follows a newline, and the history is the tokens delivered so far |
| Scanner.Scanner.constructor | ltp/scan.c:913-941 | a fresh buffer stands for the whole input |
| Scanner.Scanner.RunDfa | ltp/scan.c:961-975 | the state stack stays in step with the cursor; the loop ends where no byte can be consumed, or two characters behind a zero byte with the end-of-buffer and the jam state on top |
| Scanner.Scanner.FindAction | ltp/scan.c:977-1017 | the rule that backing up through the stack selects, trailing context included, and the cursor behind its text |
| Scanner.Scanner.DoBeforeAction | ltp/scan.c:360-371 | the byte behind the text is held and replaced, nothing else; a text of YYLMAX or more is given up on |
| Scanner.Scanner.GetPreviousState | ltp/scan.c:1504-1531 | replaying the pending text rebuilds the same stack of states |
| Scanner.Scanner.TryNulTrans | ltp/scan.c:1538-1555 | jams iff the real NUL cannot be consumed, and else pushes the state after it |
| Scanner.Scanner.Read | ltp/scan.c:819-848 | some of the next bytes of the file, none only at its end |
| Scanner.Scanner.Restart | ltp/scan.c:1824-1845 | a flushed buffer with both sentinels, whose next scan will read |
| Scanner.Scanner.ReadMore | ltp/scan.c:1442-1477 | reads behind the moved text, within the buffer, or says that there is no room |
| Scanner.Scanner.GetNextBuffer | ltp/scan.c:1409-1502 | a refill keeps what the buffer stands for, the pending text and both sentinels, and tells apart more input, a last match and the end of the file |
| Scanner.Scanner.MatchRealNul | ltp/scan.c:1305-1339 | a zero byte of the input is matched as such, or matching stops before it |
| Scanner.Scanner.Refill | ltp/scan.c:1341-1391 | after a refill the stack fits the pending text again; it fails only if the pending text, all scanned without a jam, fills the buffer |
| Scanner.Scanner.EndOfBufferAction | ltp/scan.c:1273-1392 | each end-of-buffer action leaves the same pending token with more input seen, or decides its end |
| Scanner.Scanner.ChosenOnStack | ltp/scan.c:977-1017 | what is on the stack selects the end-of-buffer action or the longest match in the file, and never confuses them |
| Scanner.Scanner.MatchAndFind | ltp/scan.c:961-1017 | a rule that is found is the one of the longest match in the whole file |
| Scanner.Scanner.OneAction | ltp/scan.c:961-1392 | one pass settles the token or leaves it midway with less to read, to match or to decide; giving up means that matching has looked as far ahead as the buffer or YYLMAX allows |
| Scanner.Scanner.ScanToken | ltp/scan.c:943-1392 | however often the token straddles a refill, the match is the longest one in the file, unless matching it looks too far ahead |
| Scanner.Scanner.NewFile | ltp/scan.c:1347-1368 | the next file starts with a fresh buffer at the beginning of a line |
| Scanner.Scanner.Deliver | ltp/scan.c:1019-1019 | the text delivered is that part of the file, and the beginning-of-line flag says whether its last byte is a newline; an empty text leaves it alone |
| Scanner.Scanner.Yylex | ltp/scan.c:903-1400 | the outcome is the specification's, unless the scanner gives up; it gives up only where the automaton is still alive after the smaller of buffer size and YYLMAX less one bytes, and never delivers a text that long; and the beginning-of-line flag stays right |
| Scanner.ScanAll | ltp/scan.c:943-1400 | any number of calls deliver exactly the specified run; or a prefix of it, and then one of these tokens looks too far ahead |
| Scanner.TwoReadings | ltp/scan.c:819-848 | two scanners over the same files with different buffers and reads deliver the same rules and texts, unless a token looks too far ahead for one of them |
| HackbenchGroup.WriteKeepsInv | hackbench/src/hackbench.c:165-178 | any partial write keeps the counters, the capacity, and each sender's bytes in the pipe once and in order |
| HackbenchGroup.ReadKeepsInv | hackbench/src/hackbench.c:195-207 | so does any partial read |
| HackbenchGroup.LogBounded | hackbench/src/hackbench.c:283-283 | no pipe ever carries more than the n*loops messages sent to its receiver, and exactly that many once the senders are through |
| HackbenchGroup.SenderNotStuck | hackbench/src/hackbench.c:165-178 | an unfinished sender can write, or the receiver it waits for can read, unless that receiver has counted to its end and what it leaves behind does not fit the pipe |
| HackbenchGroup.LeftEarly | hackbench/src/hackbench.c:283-283 | a receiver is through while a sender still writes to it only if n*loops does not fit an unsigned int |
| HackbenchGroup.ReceiverNotStuck | hackbench/src/hackbench.c:195-207 | an unfinished receiver can read, or a sender is unfinished |
| HackbenchGroup.AllDelivered | hackbench/src/hackbench.c:157-210 | when all are through, the receiver has read the n*loops mod 2^32 messages it counts, the pipe has carried every sender's bytes once and in order, and what was not read fits the pipe |
| HackbenchGroup.StepsDecrease | hackbench/src/hackbench.c:171-174 | every fragment brings the group nearer to its end by its length |
| Hackbench.StepKeepsInv | hackbench/src/hackbench.c:354-374 | every step of main or of a worker keeps the counts of the ready and of the reaped workers and the state of every group |
| Hackbench.AwakeMeansAllReady | hackbench/src/hackbench.c:361-370 | once the wake byte is written every worker has announced itself |
| Hackbench.NothingSentBeforeAllReady | hackbench/src/hackbench.c:143-155 | in every run, if a worker is past the gate or a byte was sent, all workers of all groups were ready |
| Hackbench.NotStuck | hackbench/src/hackbench.c:143-210 | every reachable state short of the end has a step, for processes always, and for threads if what the receivers leave behind fits the pipes |
| Hackbench.StepDecreasesRank | hackbench/src/hackbench.c:354-374 | every step decreases one rank of the whole system |
| Hackbench.EveryRunEnds | hackbench/src/hackbench.c:354-374 | so no run is longer than the initial rank |
| Hackbench.KilledMeansMiscounted | hackbench/src/hackbench.c:165-174 | a sender process finds the reading end closed only if n*loops does not fit an unsigned int |
| Hackbench.CanEnd | hackbench/src/hackbench.c:354-374 | from every reachable state the run can be taken to where no step is left |
| Hackbench.FinishedMeansCounted | hackbench/src/hackbench.c:372-374 | when main has reaped them all, each receiver has read as many messages as it counts, each pipe has carried n*loops*size bytes, and of each sender loops*size bytes once and in order |
| Hackbench.DeliversIff | hackbench/src/hackbench.c:268-374 | a run to its end, in whatever order, ends with main through, every message of every group read and every pipe empty, iff n*loops fits an unsigned int |
| Hackbench.ThreadsFinishIff | hackbench/src/hackbench.c:246-260 | with threads, a run to its end has main through iff the messages that the receivers leave unread fit the pipes |
| Hackbench.ProcessesEnd | hackbench/src/hackbench.c:246-255 | with processes, main is through, or fails on a child killed by a signal, and this only if n*loops does not fit an unsigned int |
| Hackbench.TooManyLoops | hackbench/src/hackbench.c:283-283 | with 20 senders and 214748365 loops a receiver counts 4 of 2^32 + 4 messages; no run delivers, and threads get stuck for good |
| Hackbench.NeverReadsEndOfFile | hackbench/src/hackbench.c:189-206 | an unfinished receiver never meets an empty pipe whose senders are all through, where its loop would not end |
| AioModel.BuildKeepsInv | aiostress/aio-stress.c:603-641 | building keeps every unit in exactly one place, busy and linked accordingly, and the pending counts |
| AioModel.SubmitKeepsInv | aiostress/aio-stress.c:725-736 | so does the kernel taking a request |
| AioModel.FinishKeepsInv | aiostress/aio-stress.c:451-468 | and so does a completion |
| AioModel.FreeOrInFlight | aiostress/aio-stress.c:502-523 | while fewer units are built than there are, one is free or in flight |
| AioModel.BuildKeepsGood | aiostress/aio-stress.c:614-624 | building continues the operation's planned requests and no other's |
| AioModel.SubmitKeepsGood | aiostress/aio-stress.c:725-736 | submitting moves the first built request of its operation to those started |
| AioModel.FinishKeepsGood | aiostress/aio-stress.c:451-468 | completions change no plan |
| AioModel.RestartKeepsGood | aiostress/aio-stress.c:803-818 | an operation that is reset starts a new plan, and nothing else changes |
| AioModel.CreateOperFits | aiostress/aio-stress.c:665-690 | total_ios is the number of whole records of a context with at least one iff that number fits an int, and then they fit the context and no further one does |
| AioModel.SequentialInside | aiostress/aio-stress.c:614-624 | request i of a sequential stage is at start + i records and inside the context |
| AioModel.FreshIsGood | aiostress/aio-stress.c:942-956 | all units linked and free, and operations as created, are a good start |
| AioFiles.PerformKeepsDisk | aiostress/aio-stress.c:476-479 | performing any request loses no write: each is on disk or still to be performed |
| AioFiles.PerformSizes | aiostress/aio-stress.c:614-637 | performing a request of a writing stage makes its file reach the request's end, if that is further, and changes no other size |
| AioFiles.NoneEarlyStays | aiostress/aio-stress.c:834-840 | in the sequential stages nothing is started before a regular file is as long as the start of its context, and files that grow keep it so |
| AioFiles.SubmitKeepsDisk | aiostress/aio-stress.c:725-736 | nor does submitting |
| AioFiles.FinishKeepsDisk | aiostress/aio-stress.c:451-468 | nor giving back what was performed |
| AioFiles.StageOnDisk | aiostress/aio-stress.c:614-620 | a complete write stage has filled its file up to its end when nothing is left to be performed |
| AioThread.Thread.KernelTurn | aiostress/aio-stress.c:834-840 | until the next look at a file the kernel performs requests, some in the end, and files grow by nothing else but other threads |
| AioThread.Thread.GiveBack | aiostress/aio-stress.c:482-494 | a request given back was performed, and its file has grown |
| AioThread.Thread.constructor | aiostress/aio-stress.c:929-975 | the loop of setup_ious leaves all units free and linked |
| AioThread.Thread.FinishIo | aiostress/aio-stress.c:451-468 | the unit is back at the head of the free list, its operation and the thread have one less pending, and no progress is touched |
| AioThread.Thread.ReadSomeEvents | aiostress/aio-stress.c:470-496 | at least min_nr completions, each handled once |
| AioThread.Thread.FindIou | aiostress/aio-stress.c:502-523 | a free unit is always found while fewer are built than there are |
| AioThread.Thread.NotBusy | aiostress/aio-stress.c:377-385 | the unit at the head of the free list is not busy, so that the abort is unreachable |
| AioThread.Thread.BuildIocb | aiostress/aio-stress.c:603-641 | one more request of this operation is built, nothing is started |
| AioThread.Thread.BuildOper | aiostress/aio-stress.c:692-719 | io_iter requests or what is left of the stage, written to the array in order and inside it, as long as started_ios + io_iter fits an int |
| AioThread.Thread.TakeAndCount | aiostress/aio-stress.c:725-736 | exactly the requests the kernel took are started and pending, for the right operations |
| AioThread.Thread.SubmitSome | aiostress/aio-stress.c:738-779 | one submission: the part the kernel takes is started; if it takes nothing something was in flight, and fewer requests are afterwards, so that the abort is unreachable |
| AioThread.Thread.RunBuilt | aiostress/aio-stress.c:738-779 | whatever part the kernel takes each time, everything built is submitted exactly once |
| AioThread.Thread.IoOperWait | aiostress/aio-stress.c:525-562 | afterwards nothing of the operation is pending |
| AioThread.Thread.SetStonewalled | aiostress/aio-stress.c:1127-1129 | marks this operation and nothing else |
| AioThread.Thread.ResetOper | aiostress/aio-stress.c:803-817 | resets this operation for its next stage and nothing else |
| AioStages.NextRwIsNext | aiostress/aio-stress.c:785-801 | the falling-through switch picks the next selected stage, and none only after the last |
| AioStages.TrailIsPlan | aiostress/aio-stress.c:785-819 | going from the first stage to where nothing is left visits the selected stages once each, in increasing order |
| AioStages.PlanIsAsAsked | aiostress/aio-stress.c:1434-1445 | the stages visited are all four, in order, if none is asked for, and else exactly those asked for, in order |
| AioStages.StageCoversContext | aiostress/aio-stress.c:614-624 | a complete sequential stage requests the whole records of its context, each once, in order, and nothing outside |
| RandomOffset.DrawableIff | aiostress/aio-stress.c:564-588 | the bytes drawn are exactly the points of a grid between a lowest and a highest one |
| RandomOffset.EndsInsideAnyMask | aiostress/aio-stress.c:564-593 | for any alignment, random requests end inside their context for all draws iff the largest parts drawn do |
| RandomOffset.EndsInsideIff | aiostress/aio-stress.c:564-593 | for powers of two this means that the context has more whole megabytes than the alignment, or than one |
| RandomOffset.BeginsInsideIff | aiostress/aio-stress.c:588-593 | random requests begin inside their context for all draws iff the first byte drawn from which a record passes the end leaves room for a record before it, or is not drawn |
| RandomOffset.BeginsInsideAnyMask | aiostress/aio-stress.c:588-593 | the same for any alignment, with one test for each second part of a draw |
| RandomOffset.InsideIff | aiostress/aio-stress.c:564-593 | and inside at both ends iff both conditions hold |
| RandomOffset.RequestedIff | aiostress/aio-stress.c:564-593 | random requests go exactly to the bytes drawn that leave room for a record, and from the others a record back |
| RandomOffset.LargeRecordBeginsBefore | aiostress/aio-stress.c:590-592 | a context of three megabytes and a record as long: the last adjustment goes back before the start |
| AioStages.RandomStageInside | aiostress/aio-stress.c:626-637 | whatever a random stage requests lies inside the context iff there is room at both ends |
| AioStages.RecordRestarted | aiostress/aio-stress.c:803-818 | a restart adds the stage that was left to the record and keeps it in order |
| AioStages.ActiveToBuilt | aiostress/aio-stress.c:877-878 | moving an operation from active to built keeps every operation on exactly one list |
| AioStages.BuiltToActive | aiostress/aio-stress.c:892-894 | and from built to active |
| AioStages.ActiveToFinished | aiostress/aio-stress.c:895-898 | and from active to finished |
| AioStages.FinishedToActive | aiostress/aio-stress.c:1160-1163 | and from finished to active |
| AioCounts.RoomToCount | aiostress/aio-stress.c:708-709 | an operation that has started whole rounds can count its next one if its requests rounded up to whole rounds fit an int |
| AioCounts.RoomNext | aiostress/aio-stress.c:708-709 | and after its share of a round that is so again, or it has started everything |
| AioWorker.SharesNext | aiostress/aio-stress.c:872-884 | one more operation with something built leaves the others with nothing built |
| AioWorker.Worker.constructor | aiostress/aio-stress.c:1402-1439 | the sizes main computes suffice, and all operations, with requests that can be counted, start active in the first stage |
| AioWorker.Worker.Runnable | aiostress/aio-stress.c:821-842 | yes exactly if the operation has started, is first in its file, is in a random stage, or its file is not regular or at least as long as its start at the time of the look |
| AioWorker.Worker.BuildOne | aiostress/aio-stress.c:872-881 | the operation gets its share and moves to the built list; no write passes the end of the array |
| AioWorker.Worker.LookAndBuild | aiostress/aio-stress.c:867-881 | one turn of the scan: an operation that may start gets its share and moves, and one that may not changes nothing |
| AioWorker.Worker.BuildRound | aiostress/aio-stress.c:855-886 | only what was allowed to start is built; what is left on the list was not allowed, unless there was no room; if nothing is built, either the kernel came nearer to performing what is in flight or nothing at all has changed |
| AioWorker.Worker.SortBuilt | aiostress/aio-stress.c:891-899 | the built operations go, in order, to the end of the finished or of the active list according to their counts, none lost |
| AioWorker.Worker.RunActiveList | aiostress/aio-stress.c:855-902 | every operation starts its share or nothing, in the write and the read stage only with its file at least as long as its start; those that were built go behind those that were not, and every operation stays on exactly one list; unless all are starved, requests are started or performed; and if all are, a round of a single thread changes nothing |
| AioWorker.Worker.NotStarvedWriting | aiostress/aio-stress.c:834-840 | in the write stage nobody starves: the first context of each file goes on until the file is long enough |
| AioWorker.Worker.WritingFeeds | aiostress/aio-stress.c:1143-1151 | after the write stage every file is long enough for all its contexts |
| AioWorker.Worker.Cut | aiostress/aio-stress.c:1126-1131 | stonewalling marks and moves the head of the active list only |
| AioWorker.Worker.WaitAll | aiostress/aio-stress.c:1143-1151 | afterwards nothing of the thread is in flight |
| AioWorker.Worker.RunIsOk | aiostress/aio-stress.c:895-898 | an operation leaves a stage with exactly total_ios requests submitted unless cut off, the sequential ones without gap or repetition |
| AioWorker.Worker.RestartOper | aiostress/aio-stress.c:1156-1164 | the operation moves on to its next stage and is active again, or nothing changes |
| AioWorker.Worker.RestartAll | aiostress/aio-stress.c:1153-1169 | all operations of the thread are restarted into the next stage, or none is |
| AioWorker.Worker.EndsComplete | aiostress/aio-stress.c:1187-1195 | at the end every operation's record is the planned stages, each complete |
| AioWorker.Worker.RunStage | aiostress/aio-stress.c:1123-1136 | a stage ends with nothing active, or everything that is active is starved; and nothing was cut off unless a look at threads_ending said that another thread is done |
| AioWorker.Worker.Run | aiostress/aio-stress.c:1094-1195 | when the worker ends nothing is active or in flight, every operation visited the stages asked for, or all four if none was, once, in order and completely, uncut without stonewalling, and every thread went through equally many stages; and a single thread ends iff it does not start by reading from a file that is too short; `AioTeam` has several threads |
| AioMain.ContextsCovered | aiostress/aio-stress.c:1468-1484 | of the contexts main creates, the first of each file writes up to where the others start |
| AioMain.CountableCounted | aiostress/aio-stress.c:1468-1476 | if the requests of the first context of a file can be counted in int, so can those of all contexts, and each has as many as it has whole records |
| AioMain.SingleThread | aiostress/aio-stress.c:1466-1484 | with context j of a file from j*offset to size - j*offset, a single thread ends with every operation having requested, in every stage asked for, one request for each whole record of its context, and in the sequential ones exactly these in order, iff size / reclen rounded up to whole rounds fits an int, and the read stage is not the first or every regular file is at least as long as its contexts' starts |
| AioMain.NewFileStarves | aiostress/aio-stress.c:834-840 | reading first from a new file with a second context at 2 MB is an input that never ends |
| AioMain.NegativeTotal | aiostress/aio-stress.c:686-709 | two gigabytes in records of a byte make the number of requests -2^31, and a round builds nothing for the operation |
| AioMain.FiveOfManyRecords | aiostress/aio-stress.c:686-686 | of 2^32 + 5 records five are requested |
| AioMain.TeamIsValid | aiostress/aio-stress.c:1402-1484 | the contexts that main deals out to two or more threads in turn leave no thread without one, and the first of each file covers the others |
| AioMain.ThreadsEndIff | aiostress/aio-stress.c:1466-1504 | several threads with the contexts of main can all get through iff the first stage is not the read stage, or every file is at least as long as the starts of all its contexts, of which with stonewalling those of one thread are enough |
| AioTeam.PlanSteps | aiostress/aio-stress.c:785-801 | restart_oper takes an operation through the planned stages, one after the other, and then stops |
| AioTeam.FilledByItself | aiostress/aio-stress.c:1143-1151 | a thread that nobody cut off has filled its files when it leaves the write stage |
| AioTeam.StepKeepsInv | aiostress/aio-stress.c:1094-1190 | every step of a thread, of the barrier or of the kernel keeps every operation in its thread's stage, no write lost, nobody cut off before some thread has finished, and files long enough behind whoever has written |
| AioTeam.CutByFinisher | aiostress/aio-stress.c:1126-1131 | in every run an operation is cut off only when some thread is through with the very stage it is in |
| AioTeam.NobodyEarly | aiostress/aio-stress.c:834-840 | in every run of several threads, what has started in the write or the read stage found its regular file at least as long as its start |
| TeamProgress.SomeoneCanGoOn | aiostress/aio-stress.c:1094-1195 | until all are through, somebody can take a step that takes the threads on, unless the team reads with nobody fed |
| TeamProgress.StepsAreFew | aiostress/aio-stress.c:1094-1195 | every such step comes nearer to the end of the stages or of the work in this one; the others only wake somebody without cause or put him to sleep again |
| TeamProgress.NeverStarved | aiostress/aio-stress.c:1094-1195 | from every state they can come to, in whatever order, all threads can still get through |
| TeamStarving.StarvingStays | aiostress/aio-stress.c:834-840 | while threads read first and none, or without stonewalling not each, is fed, nothing is written, nobody is cut off, and who is hungry does not finish |
| TeamStarving.GetsThroughIff | aiostress/aio-stress.c:1094-1195 | all threads can get through iff they do not start by reading, or if one of them, and without stonewalling each, has only contexts whose files are long enough |
| OperList.List.WalkStep | aiostress/aio-stress.c:866-870 | following next until back at the head sees every operation once, in order |
| OperList.List.Add | aiostress/aio-stress.c:310-322 | appends |
| OperList.List.Delete | aiostress/aio-stress.c:324-334 | removes exactly this operation and keeps the others in order |
| OperList.Move | aiostress/aio-stress.c:877-878 | from one list to the end of another, both staying well linked |
| StageBarrier.StepKeepsInv | aiostress/aio-stress.c:1105-1117 | every statement of the rendezvous, spurious wake-ups included, keeps the counters equal to the threads inside |
| StageBarrier.WaitsAsleep | aiostress/aio-stress.c:1113-1117 | a thread that stays in a rendezvous has gone to sleep there, and does nothing until it is woken |
| StageBarrier.OneStageAtATime | aiostress/aio-stress.c:1105-1136 | while a thread works no other is in another stage, and threads_ending counts those done with this one |
| StageBarrier.SomeoneCanGoOn | aiostress/aio-stress.c:1178-1190 | with equal numbers of stages some thread can always take a step that is progress |
| StageBarrier.NeverDeadlocked | aiostress/aio-stress.c:1105-1195 | from every reachable state all threads can still get through |
| StageBarrier.FinishIffSameStages | aiostress/aio-stress.c:1105-1195 | all threads can get through iff they run the same number of stages |
| Bits.AndMask | cyclictest/src/cyclictest.c:333-334 | masking with 2^k - 1 is the remainder |
| Bits.AndNotMask | aiostress/aio-stress.c:1048-1048 | masking 2^k - 1 out rounds down to a multiple |
| BufferLayout.PaddedFits | aiostress/aio-stress.c:1000-1001 | the padded length is the record length rounded up to the alignment |
| BufferLayout.Buffers.SetupSharedMem | aiostress/aio-stress.c:994-1049 | the size asked for and the aligned start, iff padded length and product fit an int |
| BufferLayout.Buffers.SetupIous | aiostress/aio-stress.c:942-956 | one thread's units get the next buffers, and the verify buffer is the one behind them |
| BufferLayout.HandOut | aiostress/aio-stress.c:1491-1494 | over all threads the buffers are consecutive slots |
| BufferLayout.Setup | aiostress/aio-stress.c:1486-1494 | the size can be computed in int iff the padded length and units * padded length + threads fit one; then all unit buffers of all threads and the final verify buffer are pairwise disjoint and inside the allocation, and aligned when the alignment is a power of two |
| BufferLayout.WrappedIsTooSmall | aiostress/aio-stress.c:1000-1008 | what wrapping arithmetic makes of a size that does not fit is negative, or the last buffer ends behind the allocation |
| BufferLayout.FourGigabytes | aiostress/aio-stress.c:1002-1008 | 64 contexts of 64 records of a megabyte: 2^32 wraps to 0, and malloc is asked for a page |
| ValueRing.StoreKeepsRing | cyclictest/src/cyclictest.c:331-334 | a slot holds the latency of the last cycle stored in it |
| ValueRing.SlotShows | cyclictest/src/cyclictest.c:512-512 | a slot read for a cycle shows the one that is whole rounds later |
| ValueRing.StepKeepsInv | cyclictest/src/cyclictest.c:330-334 | every statement of either thread keeps the ring and the lines right |
| ValueRing.WriterAlone | cyclictest/src/cyclictest.c:330-334 | in every interleaving the latencies recorded are those given to the first, third, fifth, ... statement of the timer thread, and half of its statements, rounded down, have stored one |
| ValueRing.LinesAreLatencies | cyclictest/src/cyclictest.c:510-515 | in every interleaving the lines count 0, 1, 2, ... without gaps, and a line shows what was measured for its own cycle, 0 for cycle 0, if less than a ringful was stored after it when it was loaded; else for the cycle whole rounds later |
| ValueRing.LinesOnlyGrow | cyclictest/src/cyclictest.c:510-515 | nothing printed or measured is taken back |
| ValueRing.CatchesUp | cyclictest/src/cyclictest.c:510-516 | with the timer thread at rest the loop ends with a line for every cycle number below the count |
| ValueRing.Overrun | cyclictest/src/cyclictest.c:510-515 | with any number of unread cycles stored, the first line shows the one whole rounds later; cycle VALBUF_SIZE after a ring of them |
| DecimalText.FormatRead | cyclictest/src/cyclictest.c:110-122 | what snprintf writes for any integer, strtol with base 0 reads back, as decimal and to the end of the digits |
| DecimalText.FormatFits | cyclictest/src/cyclictest.c:118-121 | the text of an int fits the buffer with its terminator |
| KernVars.Program.KernvarRead | cyclictest/src/cyclictest.c:98-127 | through the text of the file, the value read is the variable's, and reading fails iff it cannot be read |
| KernVars.Program.KernvarWrite | cyclictest/src/cyclictest.c:98-127 | through the text written, the variable has the value afterwards, or nothing has changed; all other variables and both permissions are as before |
| KernVars.Program.SetKernvar | cyclictest/src/cyclictest.c:129-152 | says whether the name stays inside the path, and inside its entry if it is backed up; then the old value is backed up if it is readable, not yet in the table, and there is room, and the variable is set |
| KernVars.Program.RestoreKernvars | cyclictest/src/cyclictest.c:154-165 | writes all backups back |
| KernVars.FirstCallsAreCalled | cyclictest/src/cyclictest.c:134-149 | which variables ask for a backup |
| KernVars.TableIsOriginal | cyclictest/src/cyclictest.c:134-149 | after any calls the table holds the original values of the first KVARS readable variables called for |
| KernVars.RestoreUndoes | cyclictest/src/cyclictest.c:129-165 | after any calls, restoring leaves a variable with its original value iff it was backed up in time or the calls left it unchanged anyway |
| KernVars.EverythingRestored | cyclictest/src/cyclictest.c:129-165 | with at most KVARS readable variables and none that can only be written, everything is as before the first call |

## Left out

- primes.c: the estimate of the list's size with its logarithm (185, 187), option parsing, printing, and `unsigned long` overflow of counters; allocations that fail; undefined setups are an explicit outcome instead.
- primes.c: `mpz_probab_prime_p` itself; a predicate stands for it.
- scan.c: the numeric tables; `LexSpec.Lexer.WellFormed` lists the facts about them that the control flow needs (the end-of-buffer byte leads to the end-of-buffer state, the second one jams, stop states only jam, the jam state accepts nothing).
- scan.c: what the rules' actions do to the symbol table and to start conditions; the start state is any function of the tokens delivered so far. `yymore`, `yyunput`, `input`, `yylex_destroy`, line counting and user-supplied buffers are not modelled.
- scan.c: read errors and files that `yywrap` cannot open; input that a terminal would deliver after an end of file.
- hackbench.c: failing calls, which end the program (as with more workers than an unsigned int counts), options and timing. Bytes are known by their sender and their place, since their values are arbitrary.
- aio-stress.c: runs with errors, with an iteration limit, or with contexts shorter than a record (an operation with no requests would be dropped from all lists); failing allocations; `num_ios == 0`; a record length that is no int.
- aio-stress.c: throughput, latencies, verification of contents, `fsync`, shared memory instead of malloc. Draws of `rand()` are arbitrary, scaling them by `double` is taken as exact, and the cast to `int` bounds a context to 2^31 megabytes.
- aio-stress.c: overflow of the counters that `-b` and `-i` bound (`num_built + io_iter`), and of `cnt`, the number of rounds; the worker starts with the buffers in place, and `BufferLayout.Setup` says when they are.
- aio-stress.c: the kernel is assumed to honour `min_nr` and to refuse a submission with EAGAIN only while something is in flight; otherwise the program aborts.
- aio-stress.c: the kernel performs what is in flight after finitely many looks at a file. Writes succeed and extend their file; only regular files are compared with a start.
- AioWorker.Worker.Run: the endless rounds of a starved thread are an outcome, since they change nothing. With more than one thread, what the others write and whether one has reached the end of its stage is arbitrary at each look; `AioTeam` has them all. The lists are sequences here; `OperList` proves the pointer form of their operations.
- AioTeam: starting requests, performing one and cutting off are single steps, in any order and any portion; free units, the array of built requests and the order of the lists are those of `AioWorker`.
- BufferLayout.WrappedIsTooSmall: for a padded length that fits an int itself, and with threads and twice the alignment below 2^32 together; what `Setup` gives up on is all that does not fit.
- StageBarrier: taking the mutex, looking and falling asleep are one step, as the mutex makes them; that awake threads are scheduled eventually is not modelled.
- RandomOffset.BeginsInsideIff: the closed form is for alignments that are powers of two, as masking them out presupposes; `BeginsInsideAnyMask` has the others.
- RandomOffset.EndsInsideIff: likewise, with `EndsInsideAnyMask`.
- cyclictest.c: the timer modes, minimum, maximum and average, tracing, and `unsigned long` overflow of the cycle count; the last cycle counted has no line until the next one, as in the program.
- KernVars.Program.SetKernvar: what a name that does not fit overwrites is not modelled, and calls do not overlap, although timer threads could make them at once. The kernel shows a variable as one decimal number.
- The Python wrappers around these programs, and the other C programs of the repository.
