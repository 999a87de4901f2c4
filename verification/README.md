# OCTCommu verification

A Dafny model of the algorithms and state machines of OCTCommu, a C++ network
library derived from ZLToolKit, and proofs about them. Code that changes state
step by step is modelled by classes and methods with loops; each is proved
against a function or a state machine, and what the library promises is proved
about that function or over every run of that machine.

`dafny verify dfyconfig.toml` checks everything.

## What is modelled

- **GOP cache and replicated ring** (`RingStorage.dfy`, `RingBuffer.dfy`). One
  cache of video GOPs is cloned into a replica per poller thread; every write is
  posted to the pollers' task queues and fans out to readers there. The cache is
  a class proved against functions on cache values; the whole object is a state
  machine whose events are its critical sections and the tasks the pollers run.
- **TCP send path** (`SocketSend.dfy`). Two queues, a scatter-gather list that
  is cut where a partial write stops, a rollback path and the registration for
  write events. The kernel is an oracle: it takes a non-empty prefix or refuses.
  The list is `BufferSendMsg` of `src/Network/BufferSock.cpp`, lines 156 to 282:
  `SendList.BufferSendMsg.ReOffset` passes exactly the bytes that were sent, cuts
  the slice in which the write stopped and reports each buffer when its last byte
  is out; `SendOnce` is one `sendmsg` over at most `IOV_MAX` slices.
- **Poller hand-off** (`PollerWakeup.dfy`). Producers push a task under a lock and
  then write to a pipe; the poller drains the pipe, swaps the list out and runs
  it. All interleavings of these steps are runs of a state machine.
- **Poller timers** (`PollerTimers.dfy`). The multimap of delayed tasks is swapped
  out, its due part run, and the rest merged back.
- **getopt** (`Getopt.dfy`). Three reversals in place rotate two blocks of argv;
  the scanner's global variables carry a permutation over a whole run.
- **SHA-1** (`Sha1Rounds.dfy`, `Sha1.dfy`) and **MD5** (`Md5.dfy`). The unrolled SHA-1
  rounds over a circular schedule, and both classes' incremental hashing. The digest
  of "abc" (`Sha1Example.dfy`) pins the constants and the byte orders.
- **Codecs and parsers**: base64 (`Base64.dfy`), `inet_pton4` and `inet_pton6`
  (`Inet4.dfy`, `Inet6.dfy`), the frame splitter (`StreamBuffer.dfy`), the ini
  reader and writer (`Ini.dfy`).
- **Refinements**: the lock-free localtime against the Gregorian calendar
  (`LocalTime.dfy`), the string with head and tail offsets against an ordinary
  string (`BufferLikeString.dfy`).

Words that wrap in C++ wrap here (`% TWO32`, `% TWO64`, `bv32`), and truncating
division is written out. Clocks, kernel answers, capacities, callbacks and the
order in which a map is visited are parameters or arbitrary choices.

## Where the code and its promises differ

- A registered replica that has readers ignores a `clearCache` and keeps frames that
  the main cache dropped (`RingProtocol.SkippedClearDiverges`). It is in step with the
  main cache exactly when both hold the same number of frames
  (`RingProtocol.ConvergesIffSameSize`); with one GOP, which is the default, the next
  key frame puts it back in step (`RingProtocol.KeyFrameResynchronizes`).
- The write end of the poller's pipe blocks, and only the poller empties the pipe: a
  poller that posts to its own task list while the pipe is full waits for itself
  (`PollerWakeup.PollerBlocksItself`). It is the only way to get stuck
  (`PollerWakeup.CanMoveIff`), and it cannot happen while the pipe has room for
  everybody who is about to write (`PollerWakeup.RoomKeepsMoving`) or if the poller
  never posts to itself (`PollerWakeup.OthersCannotStick`).
- `flushDelayTask` answers 0, which stands for "no timer", when a callback adds a
  timer for the very millisecond of the flush (`EventPollerTimers.DelayCorrectIff`,
  `EventPollerTimers.ZeroDelayLooksLikeNoTimer`). Callbacks that ask for at least a
  millisecond, under a clock that does not go back, cannot cause it
  (`EventPollerTimers.FlushCarefully`).
- `StreamBuffer::append` does not look whether a chunk fits behind the bytes it keeps;
  its copy leaves the buffer exactly when they are together longer than the buffer
  (`StreamBuffer.CopyOverrunsIffNotFits`). `StreamBuffer.Fit` says which rows of chunks
  never do that.
- MD5's `update` compares `i + 64` in 32 bits and overruns its input for some
  lengths of at least 2^32 - 64 (`Md5.LoopFits`, `Md5.LoopOverrunsIfNotFits`).
- base64 gives its input back exactly for inputs shorter than `UINT_MAX / 4`
  (`Base64.RoundTripIff`).
- `no_locks_localtime` is right exactly for adjusted times that are not negative
  (`LocalTime.NoLocksLocaltime`); its comment says as much.
- `BufferLikeString` adds `size_t` values that can wrap, twice over in `erase` and
  `substr`: `pos + n` and `_erase_head + pos` (`BufferLikeString.WrappingCounts`,
  `BufferLikeString.WrappingIndex`). `insert` checks its position against the
  underlying string only. The exact conditions are in
  `BufferLikeString.BufferLikeString.Erase`, `Insert` and `Substr`.
- A comment in `mini.h` says that `parse` resets; the code reads over what the map
  holds, and so does the model.

## Model

| member | source | states |
|---|---|---|
| GopCache.WritePreserves | src/Util/RingBuffer.h:141-179 | every write keeps the GOP invariant against the history so far: size is the sum of the GOPs and at most the maximum, the GOP count is within its limit, the contents are a suffix of the history, a key frame comes only first in its GOP and only a leading GOP may lack one |
| GopCache.ClearPreserves | src/Util/RingBuffer.h:195-201 | clearing keeps the same invariant without forgetting the history |
| GopCache.NewCacheInv | src/Util/RingBuffer.h:121-131 | a new cache has it, with the lower limit of 32 |
| GopCache.CurrentGopIsWhole | src/Util/RingBuffer.h:141-179 | while a key frame is cached, the newest GOP is everything written from the most recent key frame on |
| GopCache.CurrentGopIsCached | src/Util/RingBuffer.h:141-201 | after any writes and clears, the frames from the last key frame on are cached, whole and as the newest GOP, if and only if they are no more than the cache may hold and no clear came between |
| GopCache.KeyFrameKeepsOlder | src/Util/RingBuffer.h:141-178 | a key frame drops the oldest GOP only if there are as many as allowed, and all older ones only if they do not fit with it |
| GopCache.FrameContinues | src/Util/RingBuffer.h:160-178 | another frame continues the newest GOP; the older ones stay as long as all fit, the newest alone as long as it fits |
| GopCache.SingleGopStartsWithKey | src/Util/RingBuffer.h:141-179 | with one GOP, a non-empty cache starts at a key frame once any key frame was written |
| GopCache.EqualIffSameSize | src/Util/RingBuffer.h:141-217 | two caches over the same history with the same limits are equal if and only if they hold the same number of frames: the cut into GOPs is determined by the frames |
| GopCache.KeyFrameEqualizes | src/Util/RingBuffer.h:141-179 | with one GOP, writing a key frame makes any two such caches equal |
| RingStorage.RingStorage.Write | src/Util/RingBuffer.h:141-179 | the method changes the fields exactly as the function on cache values says |
| RingStorage.RingStorage.DropOldGops | src/Util/RingBuffer.h:168-172 | the loop leaves the newest GOP and takes the sizes of all others off |
| RingStorage.RingStorage.Clone | src/Util/RingBuffer.h:181-191 | a clone is a new object with the same value |
| RingStorage.RingStorage.ClearCache | src/Util/RingBuffer.h:195-201 | the cache is one empty GOP afterwards |
| RingStorage.RingStorage.PopFrontGop | src/Util/RingBuffer.h:206-217 | the oldest GOP and its size go; an empty cache gets an empty GOP |
| RingReaders.DeliverIff | src/Util/RingBuffer.h:270-286 | exactly the live readers stay, and those with a callback have one frame more |
| RingDispatcher.RingReaderDispatcher.Write | src/Util/RingBuffer.h:270-286 | every live reader with a callback gets the frame once, expired ones leave the table, the reader count stays right, and size 0 is reported exactly if the table became empty |
| RingDispatcher.RingReaderDispatcher.SetReadCB | src/Util/RingBuffer.h:66-104 | a reader with a cache is replayed the flattened cache, in order, before anything else |
| RingProtocol.ApplyOk | src/Util/RingBuffer.h:270-432 | every step (write, clear, lookup, attach, set callback, release, run a task) keeps the protocol invariant |
| RingProtocol.ExecOk | src/Util/RingBuffer.h:375-432 | so does every run |
| RingProtocol.ReplicaConvergence | src/Util/RingBuffer.h:375-418 | after any run, folding a registered dispatcher's queued tasks over its own cache gives the main cache, unless a clearCache was ignored and, with one GOP, no key frame has come since |
| RingProtocol.ConvergesIffSameSize | src/Util/RingBuffer.h:375-432 | after any run, whatever was ignored and however many GOPs there may be, the caught-up replica equals the main cache if and only if both hold the same number of frames |
| RingProtocol.KeyFrameResynchronizes | src/Util/RingBuffer.h:141-179 | with one GOP, writing a key frame after any run puts every registered replica back in step |
| RingProtocol.MainCacheInvariant | src/Util/RingBuffer.h:141-217 | after any run, the main cache has the GOP invariant against everything ever written |
| RingProtocol.MainCachesCurrentGop | src/Util/RingBuffer.h:375-432 | so it is for the main cache after any run |
| RingProtocol.GapFreeDelivery | src/Util/RingBuffer.h:66-104 | after any run a reader is attached, with or without a cache; later its callback is set, and then anything but setting it again happens: while the reader is there, what the callback was given followed by what is queued for it is exactly the replica's cache, if one was asked for, and all later writes |
| RingProtocol.ReaderStays | src/Util/RingBuffer.h:270-309 | and the reader is there, alive and with its callback, until it is released |
| RingProtocol.AttachChooses | src/Util/RingBuffer.h:310-313 | attach leaves a live reader in the table, with the cache exactly if asked for, nothing given to it yet and no callback |
| RingProtocol.NothingAfterRelease | src/Util/RingBuffer.h:294-308 | from its release on, in every run, the reader is dead or gone and is given nothing more |
| RingProtocol.NothingWithoutCallback | src/Util/RingBuffer.h:66-77 | a reader whose callback was taken away is given nothing in any run until it is set again |
| RingProtocol.UnregisteredIffEmptied | src/Util/RingBuffer.h:474-480 | a step takes a registered dispatcher out of the map exactly if it takes its last reader |
| RingProtocol.ReplayIsCache | src/Util/RingBuffer.h:94-104 | setting a callback delivers the replica's cache, the end of what the replica has absorbed; with one GOP it starts at a key frame |
| RingProtocol.ClearReachesReplicaIff | src/Util/RingBuffer.h:319-325 | when a replica in step runs a clear task, whatever is queued behind it, it will equal the main cache if and only if the dispatcher has no readers or ignoring the task leaves the same number of frames |
| RingProtocol.SkippedClearDiverges | src/Util/RingBuffer.h:319-325 | a run of six events after which the replica keeps a frame that the main cache has dropped, and the two differ |
| SendList.BufferSendMsg.Send | src/Network/Socket.cpp:971-992 | what flushData takes for granted of a packet's send: it moves a non-empty prefix of the unsent bytes to the kernel and returns how many, or changes nothing, and leaves a rest only after a refusal by the kernel |
| SocketSend.Socket.SendFront | src/Network/Socket.cpp:971-1018 | accepted bytes plus the packet's rest stay the same; a packet left over means one refusal and has a write event; the socket closes exactly on an error other than EAGAIN with nothing sent |
| SocketSend.Socket.FlushData | src/Network/Socket.cpp:918-1034 | conservation through the swap, the loop and the rollback; unsent data ends up under a write event; it is left over only if the kernel refused to take more, and the socket closes only then |
| SocketSend.Socket.FlushAll | src/Network/Socket.cpp:513-536 | 0 exactly if the socket still lives, and then nothing unsent lacks a write event; a writable socket sends all of its list unless the kernel refuses, one that is not writable sends nothing and closes on a timeout |
| SocketSend.Socket.SendL | src/Network/Socket.cpp:489-511 | what is handed over is queued behind everything queued before; without a flush, or on an unwritable socket before its timeout, nothing else changes; without a refusal a flush leaves nothing queued |
| SocketSend.Socket.OnWriteAble | src/Network/Socket.cpp:1036-1060 | the write event is given up only when both queues are empty, and a write event in which the kernel refuses nothing leaves every byte with the kernel |
| SocketRun.Step | src/Network/Socket.cpp:489-1060 | from any valid state, a write event leaves everything with the kernel or sees a refusal; without refusals the way stays clear |
| SocketRun.Run | src/Network/Socket.cpp:489-1076 | over every run of sends and write events and every pattern of partial writes and refusals, what the kernel accepted is a prefix of what was handed over; while the socket lives the two queues hold the rest in order, and if every send asked for a flush it is being watched for; a kernel that never refused has accepted everything |
| PollerWakeup.ApplyOk | src/Poller/EventPoller.cpp:229-294 | every step of producers and poller keeps the hand-off invariant |
| PollerWakeup.NoLostWakeup | src/Poller/EventPoller.cpp:229-294 | in every interleaving, a non-empty list has a pipe byte, a producer between push and write, or a poller between drain and swap; every task is queued, taken or run exactly once; back-posted tasks run in posting order |
| PollerWakeup.FrontRunsBefore | src/Poller/EventPoller.cpp:238-248 | in every run, a front-posted task comes before everything that was still in the list when it was posted, and behind what had been swapped out |
| PollerWakeup.BackRunsBehind | src/Poller/EventPoller.cpp:238-248 | in every run, a back-posted task comes behind everything posted before it |
| PollerWakeup.IdleMeansDone | src/Poller/EventPoller.cpp:260-294 | when all threads are idle, every posted task has run exactly once |
| PollerWakeup.ProgressDescends | src/Poller/EventPoller.cpp:229-294 | every step of the poller or of a thread under way, other than a new post, lowers a rank, so no schedule of them goes on for ever |
| PollerWakeup.CanMoveIff | src/Poller/EventPoller.cpp:229-294 | a state with work left can go on without new posts if and only if the poller is not blocked in its own write to a full pipe |
| PollerWakeup.EverythingRuns | src/Poller/EventPoller.cpp:229-294 | from every reachable state in which the poller does not wait for itself, the writes under way are finished and everything that was posted is run, without new posts |
| PollerWakeup.RoomKeepsMoving | src/Poller/EventPoller.cpp:249-250 | while the pipe has room for everybody about to write, no schedule blocks the poller in its own write |
| PollerWakeup.OthersCannotStick | src/Poller/EventPoller.cpp:229-253 | nor does any run in which the poller never posts to itself |
| PollerWakeup.PollerBlocksItself | src/Poller/EventPoller.cpp:249-250 | for every capacity there is a run after which the poller is blocked in its own write, with the task never taken |
| EventPollerTasks.EventPoller.AsyncL | src/Poller/EventPoller.cpp:229-253 | the task goes to the front or the back of the list as asked; the function performs the machine's push step, and its write step unless the pipe is full, where it blocks |
| EventPollerTasks.EventPoller.Unblock | src/Poller/EventPoller.cpp:249-250 | a blocked write goes through as the machine's write step once there is room |
| EventPollerTasks.EventPoller.OnPipeEvent | src/Poller/EventPoller.cpp:260-294 | the function performs poller steps only, and runs the whole list in order |
| TimerSpec.EmplaceSorts | src/Poller/EventPoller.cpp:466-500 | entering a timer behind its equals keeps the map ordered |
| TimerSpec.EmplaceIsStable | src/Poller/EventPoller.cpp:480-480 | a new timer comes behind those of the same deadline and moves no other |
| TimerSpec.MergeIsStable | src/Poller/EventPoller.cpp:489-490 | so do all timers that a flush has entered, when they are merged with the undue ones |
| TimerSpec.DueIffDelayOver | src/Poller/EventPoller.cpp:520-530 | without a wrap, the timer of a call carries the call's task and is due exactly once its delay is over |
| TimerSpec.RepeatsAfterDelay | src/Poller/EventPoller.cpp:476-481 | a task that returns d > 0 is due again exactly once d milliseconds are over, and one that returns 0 is not entered |
| TimerSpec.DueIsPrefix | src/Poller/EventPoller.cpp:471-471 | in an ordered map the due timers are exactly the first ones |
| EventPollerTimers.EventPoller.RunDue | src/Poller/EventPoller.cpp:471-487 | the loop ends whatever the callbacks add, each due task runs exactly once and in order, and the map collects what the callbacks and the repetitions add |
| EventPollerTimers.EventPoller.FlushDelayTask | src/Poller/EventPoller.cpp:466-500 | the map becomes the undue timers and then, in order of insertion, the repetitions and whatever callbacks added; the result is the distance to the first deadline modulo 2^64 |
| EventPollerTimers.FlushRunsIffDelayOver | src/Poller/EventPoller.cpp:466-487 | a flush runs the timer of a call, as often as it is in the map, if its delay is over, and otherwise leaves it there |
| EventPollerTimers.InsertedIff | src/Poller/EventPoller.cpp:471-487 | what a flush enters is the timers of the calls made by the tasks it ran and the repetitions they asked for, and nothing else |
| EventPollerTimers.EventPoller.GetMinDelay | src/Poller/EventPoller.cpp:502-518 | the same, with nothing run when nothing is due |
| EventPollerTimers.EventPoller.DoDelayTask | src/Poller/EventPoller.cpp:520-530 | a timer for the current time plus its delay, modulo 2^64, is entered at once on the poller thread and otherwise posted in front of the task list |
| EventPollerTimers.EventPoller.RunPosted | src/Poller/EventPoller.cpp:524-528 | the posted insertions enter every one of their timers and keep the map ordered |
| EventPollerTimers.DelayCorrectIff | src/Poller/EventPoller.cpp:489-500 | the delay is 0 exactly for an empty map and otherwise the positive distance to the earliest deadline, if and only if every timer entered during the flush lies in the future |
| EventPollerTimers.CarefulRunsLieAhead | src/Poller/EventPoller.cpp:471-487 | callbacks that ask for at least a millisecond, with a clock not before the flush and no wrap, enter only timers in the future |
| EventPollerTimers.FlushCarefully | src/Poller/EventPoller.cpp:466-500 | with such callbacks a flush answers 0 if and only if no timer is left, and otherwise the positive distance to the earliest deadline |
| EventPollerTimers.ZeroDelayLooksLikeNoTimer | src/Poller/EventPoller.cpp:466-500 | a flush of one due timer whose callback adds a timer for this millisecond answers 0 and leaves that timer in the map |
| Getopt.ThreeReversals | src/win32/getopt.c:246-276 | reversing a whole and then its two parts swaps the parts, each in its own order |
| Getopt.Getopt.Exchange | src/win32/getopt.c:246-276 | the three loops in place swap skipped non-options and options and relocate both marks |
| Getopt.FindLong | src/win32/getopt.c:473-495 | an exact name wins, otherwise an abbreviation counts if it is unique |
| Getopt.MyIndex | src/win32/getopt.c:198-210 | the first position of a character, or the end |
| Getopt.Getopt.TakeShort | src/win32/getopt.c:586-665 | a short option with its argument forms, as the reference decoder says |
| Getopt.Getopt.TakeLong | src/win32/getopt.c:507-558 | a long option found in the table, with its argument forms |
| Getopt.Getopt.TakeOption | src/win32/getopt.c:455-665 | one option decoded: the report, the unread characters and how far optind moves |
| Getopt.Getopt.EndOfOptions | src/win32/getopt.c:407-418 | `--` joins the options and everything behind it the non-options |
| Getopt.Getopt.Locate | src/win32/getopt.c:376-453 | finds the next option element, or ends with argv partitioned |
| Getopt.Getopt.Next | src/win32/getopt.c:334-666 | every call keeps argv a permutation that agrees with the reference scan of the original argv |
| Getopt.Getopt.ParseAll | src/win32/getopt.c:334-666 | calling until EOF leaves argv as program name, options with their arguments and `--` in order, then the rest in order, with optind at the first non-option, and reports what a scan of the unpermuted argv reports |
| GetoptSpec.ScanIsStable | src/win32/getopt.c:376-430 | the reference scan is a stable partition: both parts interleave to the original |
| GetoptSpec.ScanOptionStep | src/win32/getopt.c:455-665 | one decoding call takes exactly the first step of the reference scan of an option element |
| GetoptSpec.NonOptionIff | src/win32/getopt.c:390-396 | an element is no option exactly if it does not start with a dash or is a dash alone |
| GetoptSpec.RequiredInNext | src/win32/getopt.c:657-660 | -c file under "c:": both elements are options, reported as c with the argument file |
| GetoptSpec.RequiredMissing | src/win32/getopt.c:638-656 | -c at the end under "c:": the error code, which is ':' if optstring starts with one |
| GetoptSpec.AttachedArgument | src/win32/getopt.c:614-637 | -cfile under "c:" or "c::": reported as c with the argument file |
| GetoptSpec.WithoutArgument | src/win32/getopt.c:614-665 | -c under "c" or "c::": reported without an argument, and the next element is left alone |
| GetoptSpec.InCluster | src/win32/getopt.c:588-594 | -cxyz under "c": c is reported and the scan goes on with xyz |
| GetoptSpec.UnknownShort | src/win32/getopt.c:596-613 | -x that optstring does not list: an error, with x in optopt |
| GetoptSpec.LookupIff | src/win32/getopt.c:473-495 | a name means the first option of that very name, or else the only one it abbreviates |
| GetoptSpec.LongWithValue | src/win32/getopt.c:511-535 | --name=value: the value is the argument, or an error if the option takes none |
| GetoptSpec.LongWithoutValue | src/win32/getopt.c:536-557 | --name: a needed argument is the next element, and an error if there is none |
| GetoptSpec.LongNotFound | src/win32/getopt.c:497-585 | --name that means no option or several: an error |
| Sha1Spec.RolByOne | src/Util/SHA1.cpp:46-49 | the bit that is shifted out comes round at the other end, and the others move up by one |
| Sha1Spec.RolByFive | src/Util/SHA1.cpp:46-49 | the same for five bits |
| Sha1Spec.RolByThirty | src/Util/SHA1.cpp:46-49 | the same for thirty bits |
| Sha1Spec.Xor4Bit | src/Util/SHA1.cpp:52-55 | a bit of the schedule's exclusive or is set exactly if an odd number of the four words has it |
| Sha1Rounds.BlkIsSchedule | src/Util/SHA1.cpp:52-55 | the circular 16-word expression is the next word of the 80-word schedule |
| Sha1Rounds.WindowSlides | src/Util/SHA1.cpp:69-73 | overwriting one word moves the window of sixteen on by one |
| Sha1Rounds.ChooseForms | src/Util/SHA1.cpp:62-74 | the three-operation form of the choice function is that of RFC 3174 |
| Sha1Rounds.MajorityForms | src/Util/SHA1.cpp:85-90 | so is that of the majority function |
| Sha1Rounds.AccumulateIsStep | src/Util/SHA1.cpp:62-98 | adding into one register and rotating another is one textbook step with the registers renamed |
| Sha1Rounds.Rounds0To19 | src/Util/SHA1.cpp:105-205 | the first twenty unrolled calls make twenty steps of section 6.1 of RFC 3174 |
| Sha1Rounds.Transform | src/Util/SHA1.cpp:105-205 | all eighty unrolled steps in place compute the digest update of the simple loop of section 6.1 |
| Sha1Message.WordBytesRoundTrip | src/Util/SHA1.cpp:213-217 | taking a word apart into bytes and joining them gives it back |
| Sha1Message.BitsAreCounted | src/Util/SHA1.cpp:276-277 | the bit count from the wrapping transform counter is 8 times the message length modulo 2^64 |
| Sha1Message.OneBlockTail | src/Util/SHA1.cpp:279-302 | a rest below 56 bytes pads to one block as in section 4 of RFC 3174 |
| Sha1Message.TwoBlockTail | src/Util/SHA1.cpp:290-302 | a longer rest pads to two blocks |
| Sha1Message.WordsWithLength | src/Util/SHA1.cpp:299-301 | overwriting the last two words of a zeroed block appends the length field |
| Sha1.BufferToBlock | src/Util/SHA1.cpp:208-219 | sixteen big-endian words |
| Sha1.Sha1.Update | src/Util/SHA1.cpp:235-251 | the message fed so far grows by the input; transforms, buffer and digest describe it for every way of cutting it |
| Sha1.Sha1.PadAndHash | src/Util/SHA1.cpp:274-302 | both tails leave the fold of the block function over the padded message |
| Sha1.Sha1.FinalBin | src/Util/SHA1.cpp:274-318 | the digest of everything fed, and a reset object |
| Sha1Example.DigestOfAbc | src/Util/SHA1.cpp:235-318 | the digest of "abc" is the one that section 7.3 of RFC 3174 gives |
| Md5Message.CountAdds | src/Util/MD5.cpp:271-274 | the two-word count with its carry is 8 times the bytes modulo 2^64 |
| Md5Message.InitialBytes | src/Util/MD5.cpp:142-146 | the initial state is that of section 3.3 of RFC 1321 |
| Md5Message.PaddingShape | src/Util/MD5.cpp:313-330 | the padding is one 0x80, as few zeros as can be, and the 64-bit count |
| Md5Message.CountIndex | src/Util/MD5.cpp:268-269 | the buffer index from the low word is the bytes modulo 64 |
| Md5Message.TwoWordsLittleEndian | src/Util/MD5.cpp:323-325 | encoding both words gives the 64-bit count in little endian |
| Md5Message.DecodeUndoesEncode | src/Util/MD5.cpp:151-171 | decode gives the encoded words back |
| Md5.Encode | src/Util/MD5.cpp:162-171 | the loop writes four bytes a word, least significant first |
| Md5.Decode | src/Util/MD5.cpp:151-156 | the loop reads little-endian words |
| Md5.ShortInputsFit | src/Util/MD5.cpp:288-290 | inputs below 2^32 - 64 bytes end the 32-bit loop in time |
| Md5.LoopOverrunsIfNotFits | src/Util/MD5.cpp:288-290 | otherwise the guard holds once more with fewer than 64 bytes left |
| Md5.Md5.HashChunks | src/Util/MD5.cpp:288-290 | the loop hashes every whole chunk and stops at the last |
| Md5.Md5.Update | src/Util/MD5.cpp:266-299 | state, buffer and count describe the message fed so far, however it was cut |
| Md5.Md5.Finalize | src/Util/MD5.cpp:313-346 | the digest is the fold of the block function over the message padded as in sections 3.1 and 3.2 of RFC 1321 |
| Base64Spec.EncodingDigits | src/Util/base64.cpp:80-111 | the 24-bit groups of section 4 of RFC 4648 are the six-bit digits of the bit stream and then '=' up to four times ceil(n/3) characters |
| Base64.EmitsSextet | src/Util/base64.cpp:99-103 | what the wrapping 32-bit accumulator shifts out is the next digit of the bit stream |
| Base64.EncodeDigits | src/Util/base64.cpp:93-104 | both loops write every digit once and in order |
| Base64.EncodeInto | src/Util/base64.cpp:80-111 | refuses too long inputs and too small buffers, otherwise leaves the encoding and a NUL and nothing else |
| Base64.EncodeBase64 | src/Util/base64.cpp:118-134 | the encoding of RFC 4648 for every input below the size bound, with the int conversions beyond it |
| Base64.LongInputs | src/Util/base64.cpp:118-134 | from UINT_MAX / 4 on the result is empty, and an exception once the size of the buffer passes INT_MAX |
| Base64.LookupIsValue | src/Util/base64.cpp:36-60 | the decoder's 80-entry table is the inverse of the encoder's alphabet on every character |
| Base64.WordStep | src/Util/base64.cpp:61-66 | the signed wrapping word holds the last two digits, and the shift by 6 - 2 (i & 3) gives the next octet |
| Base64Decoding.DecodingInverts | src/Util/base64.cpp:50-111 | decoding the encoding gives the bytes back, for every byte string |
| Base64.DecodeInto | src/Util/base64.cpp:50-72 | -1 exactly if a character before '=', NUL or the end is no digit, otherwise every whole octet that fits |
| Base64.DecodeBase64 | src/Util/base64.cpp:136-152 | all octets, or nothing |
| Base64.RoundTripIff | src/Util/base64.cpp:118-152 | decodeBase64(encodeBase64(s)) is s if and only if s is shorter than UINT_MAX / 4 |
| Inet4Spec.DigitsInOrder | src/Network/sockutil.cpp:1530-1573 | the digits in order stand for 0 to 9 |
| Inet4Spec.ParseIffQuad | src/Network/sockutil.cpp:1530-1573 | a text is accepted with a value exactly if it is the decimal rendering of that value without leading zeros |
| Inet4.InetPton4 | src/Network/sockutil.cpp:1530-1573 | the loop over tmp and its pointer computes that parse |
| Inet6Grammar.HexDigitsInOrder | src/Network/sockutil.cpp:1581-1605 | the digits in order stand for 0 to 15, in both cases of letters, and there are no others |
| Inet6Grammar.GroupOfFour | src/Network/sockutil.cpp:1600-1640 | a group of four digits is two bytes, the most significant first |
| Inet6Proof.Complete | src/Network/sockutil.cpp:1579-1674 | every address text of section 2.2 of RFC 4291 is accepted with its value: prefix groups, zeros for `::`, suffix groups, all big-endian |
| Inet6Proof.ParseIffGrammar | src/Network/sockutil.cpp:1579-1674 | nothing else is accepted |
| Inet6.ScanPieces | src/Network/sockutil.cpp:1594-1651 | the character loop computes the token parse, with at most four digits a group, one `::`, and a dotted quad only at the end |
| Inet6.ShiftBack | src/Network/sockutil.cpp:1652-1669 | the shift by hand moves the groups behind `::` to the end and leaves zeros, although source and target overlap |
| Inet6.InetPton6 | src/Network/sockutil.cpp:1579-1674 | the whole function accepts exactly the grammar and returns the value |
| FrameSpec.HeadAtIff | src/Util/StreamBuffer.cpp:152-168 | the header is found exactly where every byte of it is |
| FrameSpec.FramesOpenWithHead | src/Util/StreamBuffer.cpp:104-125 | every frame of the reference scan has the fixed length and opens with the header, byte by byte |
| FrameSpec.SplitsSkip | src/Util/StreamBuffer.cpp:159-165 | dropping a position without a header loses no frame, whatever follows |
| FrameSpec.SplitsTake | src/Util/StreamBuffer.cpp:118-121 | handing out a frame leaves exactly the later ones, whatever follows |
| FrameSpec.ResidueIsShort | src/Util/StreamBuffer.cpp:104-125 | what is kept once all frames are out is shorter than a frame or shorter than the header |
| FrameSpec.ResidueDependsOnCut | src/Util/StreamBuffer.cpp:104-125 | the same three bytes, cut in two ways, leave different bytes in the buffer: what is kept is no function of the stream alone |
| StreamBuffer.ShortChunksFit | src/Util/StreamBuffer.cpp:62-99 | chunks that leave room for the longest residue always fit |
| StreamBuffer.CopyOverrunsIffNotFits | src/Util/StreamBuffer.cpp:69-97 | the copy ends outside the buffer if and only if the bytes kept and the chunk are together longer than it |
| StreamBuffer.StreamBuffer.Append | src/Util/StreamBuffer.cpp:62-99 | the window grows by the chunk, compaction included, and the copy ends where CopyEnd says; a chunk as long as the buffer is dropped |
| StreamBuffer.StreamBuffer.FindStartFrameHeaderPos | src/Util/StreamBuffer.cpp:152-168 | the search stops at a header or when none can begin in the window, loses no frame and leaves exactly what the reference search leaves |
| StreamBuffer.StreamBuffer.GetNextFrame | src/Util/StreamBuffer.cpp:104-125 | hands out the next frame of the reference scan if and only if there is one |
| StreamBuffer.StreamBuffer.Drain | src/Util/StreamBuffer.cpp:104-125 | repeated, it hands out all frames in the window, in order, and keeps exactly the residue |
| StreamBuffer.StreamBuffer.Feed | src/Util/StreamBuffer.cpp:62-125 | however a stream is cut into chunks that fit behind what is kept, the frames are those of one scan over the whole stream, chunks as long as the buffer left out, and what is kept is what the reference keeps |
| LocalTime.IsLeapYear | src/Util/local_time.cpp:69-79 | the branches give the Gregorian rule |
| Calendar.YearStep | src/Util/local_time.cpp:104-114 | the days the year loop takes off are the distance between two January firsts in the closed form |
| Calendar.MonthStep | src/Util/local_time.cpp:120-128 | the same for months |
| Calendar.DateIsUnique | src/Util/local_time.cpp:104-130 | no two dates have the same day number, so the date found is the only one |
| LocalTime.SkipYears | src/Util/local_time.cpp:104-114 | the loop ends in the year that contains the day |
| LocalTime.SkipMonths | src/Util/local_time.cpp:120-128 | the loop ends in the month that contains the day, below index 12 |
| LocalTime.NoLocksLocaltime | src/Util/local_time.cpp:81-132 | the fields are in range if and only if the adjusted time is not negative, and then days-from-civil, time of day, yday and wday all agree with it |
| IniText.TrimIs | src/Util/util.cpp:256-264 | blanks around a clean text are exactly what trim removes |
| IniText.TrimCuts | src/Util/util.cpp:256-264 | what trim returns is clean and only blanks were cut off |
| Ini.TrimText | src/Util/util.cpp:256-277 | both loops, with the exception for byte 0xFF that the table of 0xFF entries causes |
| Ini.Tokenize | src/Util/mini.h:109-133 | the non-empty pieces between delimiters |
| IniText.EntryIsRead | src/Util/mini.h:44-62 | name = value, with blanks around either: the key is section.name, and the first '=' separates |
| IniText.NameIsRead | src/Util/mini.h:58-61 | a line without '=' enters its name with an empty value |
| IniText.SectionIsRead | src/Util/mini.h:53-56 | a name in brackets is the new section |
| IniText.CommentIsSkipped | src/Util/mini.h:46-52 | an empty line and one that starts with ';' or '#' change nothing |
| IniText.OutsideThrows | src/Util/util.cpp:256-264 | trimming a text that ends in byte 0xFF throws |
| Ini.MIni.ParseLine | src/Util/mini.h:44-63 | one line: blank, comment, section or entry; after an exception the map holds what the unfinished assignment may leave |
| Ini.MIni.Parse | src/Util/mini.h:39-64 | the lines in order, over what the map holds, or an exception, after which the map holds the entries of the lines before and what the last line may leave |
| Ini.MIni.Dump | src/Util/mini.h:83-97 | a section line whenever the section changes, and one line per entry |
| IniText.HeaderAndFooter | src/Util/mini.h:83-97 | the text opens with the header and closes with the footer, each on a line of its own |
| IniRoundTrip.StorableComesBack | src/Util/mini.h:39-97 | storable entries come back from the written text, in whatever order they were written |
| IniRoundTrip.ComesBackStorable | src/Util/mini.h:39-97 | a map that comes back has only storable entries |
| IniRoundTrip.RoundTripIff | src/Util/mini.h:39-97 | parse(dump(m)) into an empty map is m if and only if every key is two dot-free clean parts, the name without '=' and no comment, the value clean, no line breaks, and the line not in brackets |
| PlainString.ErasedIff | src/Network/Buffer.h:320-366 | what erasing leaves of an ordinary string, character by character, and when it is refused |
| PlainString.InsertedIff | src/Network/Buffer.h:414-418 | the same for inserting |
| PlainString.PartIff | src/Network/Buffer.h:490-508 | the same for taking a part |
| BufferLikeString.BufferLikeString.Terminated | src/Network/Buffer.h:310-318 | data() shows the visible part and ends in NUL at size() |
| BufferLikeString.BufferLikeString.Erase | src/Network/Buffer.h:320-366 | the view becomes what erasing leaves of an ordinary string, or the erasure is refused, if and only if pos + n does not wrap into the string, or the underlying string refuses the wrapped index, or nothing was erased at the tail and pos is inside the view |
| BufferLikeString.BufferLikeString.Append | src/Network/Buffer.h:383-400 | the view grows by the data, whether or not the data is moved first |
| BufferLikeString.BufferLikeString.PushBack | src/Network/Buffer.h:402-412 | the view grows by one character and stays NUL-terminated |
| BufferLikeString.BufferLikeString.Insert | src/Network/Buffer.h:414-418 | inserts as into an ordinary string if and only if the position is within the view or beyond the underlying string |
| BufferLikeString.BufferLikeString.Substr | src/Network/Buffer.h:490-508 | the part of the view, or a refusal, if and only if pos + n does not wrap harmfully |
| BufferLikeString.WrappingCounts | src/Network/Buffer.h:345-366 | at the end of a string, a count that wraps is taken by erase and substr where it should be refused |
| BufferLikeString.WrappingIndex | src/Network/Buffer.h:345-366 | with an erased head, a position whose sum with _erase_head wraps makes erase cut the string somewhere else instead of refusing |
| BufferLikeString.BufferLikeString.MoveData | src/Network/Buffer.h:511-518 | moving the data does not change the view |
| BufferLikeString.BufferLikeString.Clear | src/Network/Buffer.h:447-452 | the view is empty |
| BufferLikeString.BufferLikeString.Run | src/Network/Buffer.h:310-452 | every run of operations in range leaves the view that the same run leaves of an ordinary string |

## Left out

- Socket options, binding, multicast, DNS, interfaces, `TcpClient`, `TcpServer`, `UdpServer` and sessions: system calls.
- SSL, SQL, logging, file access, serial ports, `SPBuffer`, `SmoothTicker` and the small containers: foreign libraries, devices or easy members.
- Ring: delegates, `getInfoList`, `_total_count` and a read callback that sets a new callback while it runs. Readers and dispatchers are numbers; when the last reference to one goes is an event.
- Send path: overlapping `flushData` calls from several threads, `enableRecv`, UDP and `SendMsg` interrupted by a signal. Bytes may stay queued without a write event after a send that did not ask for a flush; `SocketRun.Run` says so.
- Poller: the pipe's read end is non-blocking and its write end blocks when full, as `PipeWrap.cpp` sets them up. A task that posts while it runs does so in push and write events of its own. `async` called with permission to run at once on the poller thread is an ordinary call. Exceptions thrown by tasks are caught by the source and have no part in the order.
- Timers: a cancelled task returns 0 and is one of the arbitrary callbacks. That a posted insertion is run at all is `PollerWakeup`'s matter.
- Getopt.Getopt.constructor: requires that the option string does not begin with '-' or '+', which select another ordering.
- getopt: the orderings REQUIRE_ORDER and RETURN_IN_ORDER, messages, `opterr` and the store through an option's flag pointer. EOF is a separate outcome; in C an option whose value is -1 cannot be told from it.
- SHA-1: the hexadecimal form and `from_file`.
- MD5: the compression function is a parameter, so its 64 steps are not modelled; the hexadecimal form neither.
- Md5.Md5.Update: requires that the 32-bit loop ends in time, which `Md5.LoopFits` states exactly; beyond it the source reads past its input.
- Base64.DecodeBase64: texts longer than INT_MAX overflow the loop's int counter in the source and are not modelled.
- StreamBuffer: `init` (its return value for a header over 64 bytes is true although nothing is set), `release` and `clearBuffer`; header and frame length are given.
- StreamBuffer.StreamBuffer.Append: requires that the copy ends inside the buffer, since what it would overwrite is no part of the object; `StreamBuffer.CopyOverrunsIffNotFits` says when it does not.
- Local time: `local_time_init`. A year beyond 2^31 overflows `tm_year` in the source; `SkipYears` bounds the year by the days so that this cannot happen for fewer than (2^31 - 1970) times 365 days.
- Ini.MIni.Dump: requires two parts in every key; the source indexes without looking. The map's order of iteration is a parameter, so nothing depends on it.
- Ini.MIni.Parse: when the value of a line throws, C++14 leaves open whether its key has been entered with an empty value; both are allowed.
- BufferLikeString: `assign`, `resize`, assignment and `operator[]`; strings longer than std::string allows; appending from the string's own storage.
