# A verified model of msgbag

msgbag records messages into bag files and plays them back. It carries its own copy of the spdlog
logger and, inside it, of the fmt formatting library. This project models the parts of it that do
real work with arithmetic, bytes, files, threads and time, in Dafny, and proves what they promise.
`dafny verify dfyconfig.toml` checks all of it.

Code that changes state is a class or a method with the same fields and the same loops, proved
against a function; what the source promises is then proved about that function, for all inputs and
all runs. The blocking queues and the thread pool are step systems: a state is changed by the atomic
steps of any number of threads, and the theorems are about every reachable state.

| module | what it models |
|---|---|
| `FixedPointPrinter`, `DigitTables` | printing 32-bit numbers with 4.32 fixed-point multiplication |
| `CountDigits` | counting decimal digits by bit length and one table lookup |
| `DecimalWriter` | printing numbers backwards, with separators between groups of three |
| `Grisu` | shortest digits of a floating-point number: digit generation, rounding, the 64-bit product |
| `CircularQueue`, `MpmcQueue`, `ThreadPool` | spdlog's ring buffer, blocking queue and thread pool |
| `SyncQueue` | the recorder's task queue, whose consumers take everything at once |
| `ByteCodec`, `ByteBuffer`, `HeaderCodec` | integers in bytes, the growing buffer, header maps in bytes |
| `BagFormat`, `Bag`, `BagLayout` | the bag file: its bytes, the object that writes it, the object that reads it, and its bytes place by place |
| `RotatingFileSink` | log files that are renamed when they are full |
| `RecordingFiles`, `Recorder`, `RecordingRuns`, `RecordingLimits` | recording into a chain of bags, of which the newest are kept, and when it goes on to the next or ends |
| `Timeline`, `Views`, `Timers` | messages sorted by time, views of several bags, playback by timers |
| `PatternFormatter` | log patterns such as `[%H:%M:%S] %-8l %v` |
| `FormatString` | format strings with replacement fields |
| `GmtOffset` | the difference of two broken-down times |
| `Arith`, `Counting`, `Decimals`, `Sequences`, `Texts`, `Wrappers` | the arithmetic, set sizes, decimal text and sequences they share |

## What the code does not do

Some of what the code seems to promise is false of it. Each of these has its exact condition or a
concrete run as a theorem.

- A closed bag reads back without the last message written (`Bag.ClosedBagLosesItsLast`), because the
  check for enough data wants one byte more than it needs. All messages come back, and nothing else, exactly if there are
  none or something follows the bag that neither holds a record nor breaks the stream (`Bag.ClosedBagIsComplete`);
  one to sixteen bytes are enough. A recording that is split loses one message in every file that way
  (`RecordingRuns.KeptFilesReadBack`).
- A bag to whose end a record was being added when writing was cut off gives all the messages before it, but if it was cut
  inside the topic it does not open at all (`BagLayout.CutOffBag`).
- A recording that reaches a limit without splitting is not closed: unless a signal comes, the last file keeps its active
  name, with zeros in its header (`RecordingRuns.LastFileIsThere`).
- A header comes back from its bytes exactly if no key contains `=` (`HeaderCodec.RoundTripExactly`).
- Shrinking a buffer keeps its readable bytes exactly if there are less than 2 GiB of them (`ByteBuffer.ShrinkKeepsExactly`).
- Grisu digit generation looks past the end of its table of powers of ten exactly under
  `OverrunsTable` (`Grisu.GenDigits`). A third, printed with 17 digits, meets that condition
  (`Grisu.TableOverrunExample`, `Grisu.ExampleIsScaled`).
- A thread pool with a queue of capacity zero never finishes its destructor (`ThreadPool.NoCapacityNeverJoins`);
  a task queue of capacity zero deadlocks (`SyncQueue.NoCapacityDeadlocks`), and one with two or more slots can keep
  a slot idle while a producer sleeps (`SyncQueue.MoreSlotsCanBeIdle`).
- Opening a rotating sink with rotation counts the size of the file that was rotated away for the new one, exactly if that
  file was not empty (`RotatingFileSink.Sink.constructor`). The count stays too high by as much until the next rotation
  and is exact from then on (`RotatingFileSink.SizeIsRepaired`), so one rotation comes early and none late.
- Messages with equal time stamps are played in the order of the addresses of their timers. A view is played completely and
  in its own order exactly if those addresses increase and every event of the timer comes in time
  (`Timers.WholeViewIsPlayed`); an event that comes too early ends the playback (`Timers.EarlyEventStops`).
- A recording limit on the size of a file sees only the low 32 bits of the size, and from 2 GiB to 4 GiB a huge number
  (`RecordingFiles.OverSizeMeans`). It means what it says for files below 2 GiB; a limit below 2 GiB is missed
  exactly by files over it whose low 32 bits are within it (`RecordingFiles.LimitHoldsExactly`).
- The offset between two broken-down times is exact if and only if both years or neither are among the early ones
  where rounding toward zero loses a day (`GmtOffset.OffsetIsExact`); from the year -99 on none are.

## Model

| member | source | states |
|---|---|---|
| FixedPointPrinter.DecadeIsFloorLog10 | spdlog/fmt/bundled/format.h:832-843 | the tree of comparisons finds floor(log10 n), which is one less than the number of digits, for every 32-bit n |
| FixedPointPrinter.ScaledApproximates | spdlog/fmt/bundled/format.h:866-870 | after the multiplication, shift and added constant the 4.32 number lies in the interval from which every further digit comes out exact, and nothing overflows 64 bits |
| FixedPointPrinter.NextPair | spdlog/fmt/bundled/format.h:871-875 | multiplying the fraction by 100 brings out the next two digits exactly and keeps the interval |
| FixedPointPrinter.LastDigit | spdlog/fmt/bundled/format.h:876-879 | multiplying by ten brings out the last digit, and the digits are then those of the number |
| FixedPointPrinter.DecimalFormatter.On | spdlog/fmt/bundled/format.h:858-882 | writes the decimal text of u, N+1 characters at the position, and nothing else |
| FixedPointPrinter.Lg | spdlog/fmt/bundled/format.h:832-883 | with this formatter prints every 32-bit number as its decimal text |
| CountDigits.CandidateDecade | spdlog/fmt/bundled/format.h:769-774 | bit length * 1233 >> 12 is the digit count or one less for every bit length |
| CountDigits.CandidateDigits | spdlog/fmt/bundled/format.h:769-774 | the table index is in range and one comparison decides the digit count |
| CountDigits.CountDigitsLoop | spdlog/fmt/bundled/format.h:777-791 | the loop that divides by 10000 counts the digits of the decimal text |
| CountDigits.FastFormsAreExact | spdlog/fmt/bundled/format.h:769-774 | the 64-bit and the 32-bit form give the length of the decimal text, hence the same as the loop, for every number |
| DecimalWriter.AddThousandsSep.Apply | spdlog/fmt/bundled/format.h:930-936 | a separator goes in front of every third digit and nothing anywhere else |
| DecimalWriter.FormatDecimal | spdlog/fmt/bundled/format.h:957-983 | fills the slot backwards from its end with the digits and what the functor writes between them, and returns the end |
| DecimalWriter.SeparatedIsGrouped | spdlog/fmt/bundled/format.h:917-939 | written digit by digit from the right, the text is the one grouped by threes |
| DecimalWriter.GroupedLength | spdlog/fmt/bundled/format.h:2484-2490 | the grouped text is longer by one separator for each full group in front of which digits remain |
| DecimalWriter.GroupedDigits | spdlog/fmt/bundled/format.h:930-936 | the i-th digit from the right stands behind as many separators as there are threes in i |
| DecimalWriter.GroupedSeparators | spdlog/fmt/bundled/format.h:930-936 | and in front of every full group of three but the first there is a separator |
| DecimalWriter.OnNum | spdlog/fmt/bundled/format.h:2484-2490 | with the size computed in front, the text fills the slot exactly and is the number grouped by threes |
| DecimalWriter.GroupedRoundTrip | spdlog/fmt/bundled/format.h:957-997 | without its separators the text reads back as the number |
| Grisu.Round | spdlog/fmt/bundled/format-inl.h:466-481 | the last digit is lowered to the closest number in the interval without dropping below '0'; a digit too many is cut off and decides the result |
| Grisu.ExitIsClosest | spdlog/fmt/bundled/format-inl.h:470-475 | when the lowering loop stops, no number of that length in the interval is closer to its centre |
| Grisu.HighDigits | spdlog/fmt/bundled/format-inl.h:484-516 | the loop over the integral part conserves upper = digits * 10^exp + remainder, and ends with correct digits or all of them |
| Grisu.LowDigits | spdlog/fmt/bundled/format-inl.h:517-530 | the loop over the fraction conserves the same sum scaled by ten, and finds no power in the table exactly under OverrunsTable |
| Grisu.GenDigits | spdlog/fmt/bundled/format-inl.h:484-531 | the digits are those of the closest number in [upper - delta, upper], or the leading max_digits of them; the lookup of the power of ten is out of range exactly under OverrunsTable |
| Grisu.TableOverrunExample | spdlog/fmt/bundled/format-inl.h:517-530 | for a third printed with 17 digits the lookup is out of range |
| Grisu.ExampleIsScaled | spdlog/fmt/bundled/format-inl.h:736-749 | the operands of that example are those the caller computes from the boundaries of a third and the cached power 10^4 |
| Grisu.FpMultiplyRounds | spdlog/fmt/bundled/format-inl.h:442-451 | the product of two significands is rounded to nearest, halves up, and no step of it wraps around |
| CircularQueue.CircularQ.PushBack | spdlog/details/circular_q.h:26-36 | the item goes last; a full ring loses its first item and counts it |
| CircularQueue.PushedIsNewest | spdlog/details/circular_q.h:26-36 | what a push leaves are the newest items, all of them or as many as there is room for |
| CircularQueue.CircularQ.PopFront | spdlog/details/circular_q.h:40-44 | takes the first item and leaves the rest in order |
| MpmcQueue.StepKeepsWakeUps | spdlog/details/mpmc_blocking_q.h:35-69 | every step of every thread, with timeouts and spurious wake-ups, keeps the wake-up inequalities |
| MpmcQueue.NoLostWakeUps | spdlog/details/mpmc_blocking_q.h:35-69 | in every reachable state, while a producer sleeps, notified producers and dequeuers about to notify are at least the free slots; while a consumer sleeps, notified consumers and enqueuers about to notify are at least the items |
| MpmcQueue.SleeperHasHelper | spdlog/details/mpmc_blocking_q.h:35-69 | so somebody who sleeps beside work always has a thread that is notified or about to notify |
| MpmcQueue.EveryItemAccounted | spdlog/details/mpmc_blocking_q.h:35-69 | in every reachable state each item is in the queue, in one thread's hands, delivered once or dropped by an overrun |
| MpmcQueue.EveryItemPushed | spdlog/details/mpmc_blocking_q.h:35-54 | over every run, each item is in the log of pushes or in the hands of a waiting producer exactly as often as threads came with it |
| MpmcQueue.StepOnContents | spdlog/details/mpmc_blocking_q.h:35-69 | pushes append the item their thread came with and wait for room unless they may overrun, pops take the first item, nothing else changes the contents |
| MpmcQueue.BlockingQueue.PushUnlessFull | spdlog/details/mpmc_blocking_q.h:38-40 | the critical section of the blocking push on the ring does what the step says |
| MpmcQueue.BlockingQueue.PushNow | spdlog/details/mpmc_blocking_q.h:49-50 | likewise the critical section of the overrunning push |
| MpmcQueue.BlockingQueue.PopUnlessEmpty | spdlog/details/mpmc_blocking_q.h:60-65 | likewise the critical section of the pop, with the item it takes |
| ThreadPool.EveryReachablePool | spdlog/details/thread_pool.h:141-158 | every run from a fresh pool, through its destruction, keeps the pool's invariant |
| ThreadPool.LiveWorkers | spdlog/details/thread_pool.h:141-158 | during destruction the live workers are the threads minus the terminates dequeued, and a waiting destructor always finds one |
| ThreadPool.AllMessagesHandled | spdlog/details/thread_pool.h:184-234 | when all threads are joined the queue is empty, each worker took exactly one terminate of its own, and every earlier message was delivered once or dropped by an overrun, not both |
| ThreadPool.EveryPostIsHandled | spdlog/details/thread_pool.h:184-234 | when all threads are joined, every message that was posted has been pushed exactly as often as it was posted, so what was delivered or dropped is what was posted |
| ThreadPool.DestructionProgresses | spdlog/details/thread_pool.h:141-158 | with room for a message, destruction can always make a step until it is over |
| ThreadPool.StepLowersRank | spdlog/details/thread_pool.h:141-158 | every productive step of destruction lowers a rank |
| ThreadPool.DestructorReturns | spdlog/details/thread_pool.h:141-158 | so a run of productive steps is no longer than the rank, and where none is possible all threads are joined |
| ThreadPool.NoCapacityNeverJoins | spdlog/details/thread_pool.h:141-158 | a pool whose queue has no room never gets past posting its terminates |
| SyncQueue.FirstInFirstOut | src/common/sync_queue.h:28-36 | the batches taken, followed by the queue, are the tasks of the Add operations in the order in which they found room, and the size never passes the maximum |
| SyncQueue.StepOnTasks | src/common/sync_queue.h:97-109 | a step that finds room appends exactly the task its Add came with; one that takes hands over the whole queue; no other step touches the tasks |
| SyncQueue.StepOnHeld | src/common/sync_queue.h:97-105 | a waiting producer holds the task it came with, until it tries again |
| SyncQueue.EveryTaskOnce | src/common/sync_queue.h:28-36 | over every run until the stop, each task was taken, is queued or is held by a waiting producer exactly as often as it was added |
| SyncQueue.NeverDeadlocks | src/common/sync_queue.h:28-36 | with several producers and consumers, sleeping producers beside an empty queue imply a notified producer, sleeping consumers beside tasks a notified consumer |
| SyncQueue.NoCapacityDeadlocks | src/common/sync_queue.h:97-109 | a run that deadlocks when the maximum is zero |
| SyncQueue.StopReleasesEverybody | src/common/sync_queue.h:51-59 | after the stop nobody sleeps, nobody falls asleep again, and nothing more is added or taken |
| SyncQueue.OneSlotIsNeverIdle | src/common/sync_queue.h:97-109 | with a maximum of one, no producer sleeps beside a free slot without anybody notified |
| SyncQueue.MoreSlotsCanBeIdle | src/common/sync_queue.h:28-36 | with a larger maximum, a run after which one does |
| ByteCodec.IntRoundTrip | src/common/buffer.h:161-179 | an integer that fits its width comes back from its bytes |
| ByteCodec.UnsignedThroughSigned | src/common/buffer.h:169-172 | an unsigned length passed as a signed integer keeps its bytes and comes back |
| BagLayout.IntPlaces | src/common/buffer.h:161-179 | the k-th byte of an integer, negative or not, is its k-th digit to the base 256 from the right |
| ByteBuffer.Buffer.MakeSpace | src/common/buffer.h:299-314 | by growing or by moving, the readable bytes stay the same and there is room; the assertion about the read position holds |
| ByteBuffer.Buffer.Append | src/common/buffer.h:127-131 | the bytes go behind the readable ones, through every growth |
| ByteBuffer.Buffer.Prepend | src/common/buffer.h:271-276 | the bytes go in front of the readable ones |
| ByteBuffer.Buffer.Retrieve | src/common/buffer.h:81-88 | the first bytes are gone, the others remain in order |
| ByteBuffer.Buffer.Unwrite | src/common/buffer.h:153-156 | the last bytes are gone, the others remain |
| ByteBuffer.Buffer.RetrieveAsString | src/common/buffer.h:114-119 | returns the first bytes and leaves the rest |
| ByteBuffer.Buffer.Shrink | src/common/buffer.h:278-284 | a new buffer with the reserve and as many of the readable bytes as the low 31 bits of their number say, or an exception when the 32-bit number is negative |
| ByteBuffer.ShrinkKeepsExactly | src/common/buffer.h:121-123 | all readable bytes are kept if and only if there are less than 2 GiB |
| ByteBuffer.Buffer.AppendInt | src/common/buffer.h:161-179 | appends the bytes of an integer behind everything else |
| ByteBuffer.Buffer.ReadInt | src/common/buffer.h:185-211 | reads the integer at the front and removes its bytes |
| HeaderCodec.WriteHeader | src/common/util.cpp:867-883 | puts the length of all fields in front of what the buffer held, and the fields behind it |
| HeaderCodec.ReadHeader | src/common/util.cpp:885-906 | parses the readable bytes, and leaves the bytes after the header; fields without = do not count |
| HeaderCodec.HeaderRoundTrip | src/common/util.cpp:867-906 | a header without = in its keys, followed by any padding, parses to the same map and leaves the padding |
| HeaderCodec.RoundTripExactly | src/common/util.cpp:867-906 | and with = in a key it does not |
| HeaderCodec.WriteThenRead | src/common/util.cpp:867-906 | the same through a buffer of any size that grows as it has to |
| BagFormat.HeaderRecordSize | src/storage/bag.cpp:94-117 | the header record takes 1028 bytes whatever its values |
| BagFormat.HeaderRecordRoundTrip | src/storage/bag.cpp:94-117 | and gives its four fields back, as the texts of the numbers |
| BagLayout.HeaderRecordLayout | src/storage/bag.cpp:94-117 | the header's length, the header, and blanks up to 1028 bytes |
| BagLayout.HeaderExample | src/common/util.cpp:867-883 | a header with the single field op, byte for byte |
| BagLayout.FieldLayout | src/common/util.cpp:870-878 | a field is its length, its key, an equals sign and its value |
| BagLayout.FieldsAdded | src/common/util.cpp:885-906 | a key that is read has the value of the last field with it |
| BagLayout.SkippedField | src/common/util.cpp:894-900 | a field without an equals sign is skipped and not counted |
| BagLayout.RecordLayout | src/record/recorder.cpp:61-66 | a record is eight bytes of length, eight of time, the topic, a newline and the message |
| BagLayout.ReadIntText | src/storage/bag.cpp:97-99 | the text of any integer is a minus sign, if it is negative, and digits, and reads back as the integer |
| BagLayout.VersionLineIs | src/storage/bag.cpp:69-82 | a version line with any two numbers is read as a hundred times the first and the second |
| BagLayout.VersionLineBytes | src/storage/bag.cpp:84-92 | the version line that is written is that of version 1.0 |
| BagLayout.VersionDecides | src/storage/bag.cpp:136-154 | whatever comes behind the first line, a file opens only with version 100, and the error names what is wrong with the line |
| BagFormat.ReadEncodedRecord | src/storage/bag.cpp:184-218 | one recorded message reads back exactly if at least one byte follows it |
| BagFormat.ReadEncodedRecords | src/storage/bag.cpp:156-218 | a stream of records reads back without its last if nothing follows; otherwise completely, and reading goes on with whatever follows |
| BagFormat.ShortTail | src/storage/bag.cpp:184-199 | up to sixteen bytes hold no record and break nothing |
| Bag.Bag.OpenWrite | src/storage/bag.cpp:119-134 | a new file holds the version line and a header record of zeros |
| Bag.Bag.Open | src/storage/bag.cpp:28-48 | and its size is known when it is open |
| Bag.Bag.WriteMessage | src/record/recorder.cpp:61-66 | five writes append the record of one message and leave everything before it |
| Bag.Bag.WriteHeaderRecord | src/storage/bag.cpp:94-117 | overwrites 1028 bytes at the position with the header record |
| Bag.Bag.Close | src/storage/bag.cpp:253-261 | rewrites the header in place with the start, the end and the number of messages, and leaves the records untouched |
| Bag.ClosedBagReadsBack | src/storage/bag.cpp:156-245 | opening a closed bag, with anything behind it, gives its header and, in the order of their times, its messages: all but the last if nothing follows, and otherwise all of them and what follows |
| BagLayout.ClosedBagHoldsNumbers | src/storage/bag.cpp:94-117 | opening a closed bag, with anything behind it, gives a header whose start time, end time and message count, read as integers, are those of the close |
| Bag.ClosedBagIsComplete | src/storage/bag.cpp:174-218 | all messages come back, and nothing else, if and only if there are none or something follows that holds no record and does not break the stream |
| Bag.FewBytesComplete | src/storage/bag.cpp:174-218 | one to sixteen bytes behind a bag make it complete |
| BagLayout.CutOffBag | src/storage/bag.cpp:174-218 | behind a complete bag, any front part of another record leaves all messages before it, except one that ends inside the topic, which breaks the stream |
| BagLayout.CutHeaderIsRefused | src/storage/bag.cpp:156-172 | a bag cut off anywhere before the end of its header record does not open |
| Bag.ClosedBagLosesItsLast | src/storage/bag.cpp:174-218 | as it is closed, a bag reads back without its last message |
| Bag.ClosedBagIsCompleteOnlyIfEmpty | src/storage/bag.cpp:174-182 | so a closed bag is complete exactly if it has no messages |
| Bag.BagReader.CheckEnoughDataToRead | src/storage/bag.cpp:174-182 | asks for strictly more bytes than are needed, in 64-bit arithmetic, and goes to the end otherwise |
| Bag.BagReader.ReadTopicIndexRecord | src/storage/bag.cpp:184-218 | inserts the record at the position, if it is complete, and moves behind it, or ends the reading |
| Bag.BagReader.StartReading | src/storage/bag.cpp:156-172 | the loop over the records ends on every file, inserts every record it can read, and breaks the stream exactly where the format says |
| Bag.BagReader.Open | src/storage/bag.cpp:28-172 | opening any bytes gives what the format says of them: a file that ends inside its header record or inside a topic leaves the stream broken and is refused |
| Bag.RecordAndPlayBack | src/storage/bag.cpp:119-261 | writing a whole bag and opening it again, by both objects |
| RotatingFileSink.SplitByExtension | spdlog/details/file_helper.h:125-145 | base and extension make up the name; the extension has one dot, no folder and a base in front |
| RotatingFileSink.SplitExactly | spdlog/details/file_helper.h:125-145 | a name is split at a position if and only if its last dot is there, neither first nor last, with no folder separator in front of it or behind it; otherwise it has no extension |
| RotatingFileSink.NumberedName | spdlog/sinks/rotating_file_sink.h:49-63 | the number goes in front of the extension, or behind a name that has none |
| RotatingFileSink.NameExample | spdlog/sinks/rotating_file_sink.h:47-49 | as in the source's own example, logs/mylog.txt with 3 is logs/mylog.3.txt |
| RotatingFileSink.CalcFilenameInjective | spdlog/sinks/rotating_file_sink.h:49-63 | for every base name, different indices give different file names |
| RotatingFileSink.Sink.constructor | spdlog/sinks/rotating_file_sink.h:34-45 | on any directory the active file is open for appending; its counted size is exact if and only if nothing was rotated away; a chain of files is where the packing starts |
| RotatingFileSink.Sink.RenameFile | spdlog/sinks/rotating_file_sink.h:128-133 | the target is removed, and replaced by the source if the rename succeeds |
| RotatingFileSink.Sink.Rotate | spdlog/sinks/rotating_file_sink.h:95-124 | every file moves on by one, the last is lost, the active one is empty, other files stay; whatever files there are, the bytes on disk become a suffix; a rename that fails twice truncates the active file |
| RotatingFileSink.MoveUpKeepsSuffix | spdlog/sinks/rotating_file_sink.h:99-122 | one rename of the rotation loses at most the oldest file, with gaps in the chain or without |
| RotatingFileSink.Sink.SinkIt | spdlog/sinks/rotating_file_sink.h:71-82 | from every state a sink can be in: the counted size is never below the active file's, a rotation makes it exact, the bytes on disk are a suffix of those before and the message, and on a chain the files are the newest of the packing |
| RotatingFileSink.PackKeepsBytes | spdlog/sinks/rotating_file_sink.h:71-82 | packing messages into files loses and reorders nothing |
| RotatingFileSink.PackRespectsLimit | spdlog/sinks/rotating_file_sink.h:71-82 | a file is no larger than the limit unless it holds a single message or was there before |
| RotatingFileSink.PackIsGreedy | spdlog/sinks/rotating_file_sink.h:75-80 | a file is started only for a message with which the file before would be larger than the limit |
| RotatingFileSink.StartIs | spdlog/sinks/rotating_file_sink.h:38-44 | rotating on opening puts an empty file before a chain with a non-empty first file, and drops one only if there are too many |
| RotatingFileSink.SizeIsRepaired | spdlog/sinks/rotating_file_sink.h:76-80 | a counted size that is too high stays so by as much until a file is started, and is exact from then on |
| RotatingFileSink.DiskKeepsSuffix | spdlog/sinks/rotating_file_sink.h:71-133 | the files, oldest first, are a suffix of what there was and everything logged, as long as the number of files allows |
| RotatingFileSink.ChainUnique | spdlog/sinks/rotating_file_sink.h:95-124 | the chain of files on a disk is unique |
| RotatingFileSink.OnDiskIsChain | spdlog/sinks/rotating_file_sink.h:95-124 | for a chain, the bytes on disk are its files, oldest first |
| RotatingFileSink.LogAll | spdlog/sinks/rotating_file_sink.h:71-133 | a whole run from any directory, with rotation at the start or without, leaves a suffix of what there was and all messages, on a chain the newest files of the packing, and all other files alone |
| RecordingFiles.TargetNamesDiffer | src/record/recorder.cpp:100-130 | the files of one recording never have the same name, whatever the prefix and the dates |
| RecordingFiles.StemIs | src/record/recorder.cpp:103-107 | only a .bag at the end of the prefix is cut off |
| RecordingFiles.TargetNames | src/record/recorder.cpp:100-124 | every form of a name: prefix, date and number as far as there are any, joined by underscores |
| RecordingFiles.WriteNameIsNoTarget | src/record/recorder.cpp:124-126 | the name of a file being written is never that of a finished one |
| RecordingFiles.OneMoreFile | src/record/recorder.cpp:179-192 | finishing one more file keeps the newest max_splits on the disk and in the list, in order, and removes the others |
| RecordingFiles.OverSizeMeans | src/record/recorder.cpp:161-164 | what the size test compares with the limit, for every size and every limit |
| RecordingFiles.LimitHoldsExactly | src/record/recorder.cpp:161-164 | a limit below 2 GiB is kept if and only if the file is within it or its low 32 bits are not |
| RecordingFiles.LimitHoldsBelow2GiB | src/record/recorder.cpp:161-164 | every limit is kept for files below 2 GiB |
| RecordingFiles.LimitFails | src/record/recorder.cpp:161-164 | a file of 4 GiB and five bytes is within a limit of 100 |
| RecordingFiles.AdvanceMeans | src/record/recorder.cpp:198-207 | the start of the file moves by whole durations, until the message is within the last one and no further |
| Recorder.Recorder.CheckNumSplits | src/record/recorder.cpp:179-192 | the list and the disk after a file has been counted |
| Recorder.Recorder.StopWriting | src/record/recorder.cpp:94-98 | the closed bag's bytes are on the disk under the target name |
| Recorder.Recorder.StartWriting | src/record/recorder.cpp:75-92 | a new bag is open under a new name, everything else as before |
| Recorder.Recorder.CheckSize | src/record/recorder.cpp:161-177 | splits or stops when the size so far is over the limit, and does nothing otherwise |
| Recorder.Recorder.CheckDuration | src/record/recorder.cpp:194-214 | splits as often as durations have passed, or stops |
| Recorder.Recorder.DoWrite | src/record/recorder.cpp:47-73 | the whole new state of the recorder after one message |
| Recorder.Recorder.Stop | src/record/recorder.cpp:377-383 | the last file is on the disk too and is not counted |
| Recorder.Recorder.Leave | src/record/recorder.cpp:371-374 | without that, the open file is on the disk under its active name, with zeros in its header |
| RecordingRuns.NextFileIsGood | src/record/recorder.cpp:165-170 | starting another file loses no message and keeps the newest files |
| RecordingRuns.WrittenIsGood | src/record/recorder.cpp:47-73 | one message keeps all that was recorded, comes last, and keeps files within the limit but for their last message |
| RecordingRuns.WrittenInTime | src/record/recorder.cpp:194-214 | a message's time is within the duration of the file it goes into, and the start never passes the message |
| RecordingRuns.DurationCheckedAdvances | src/record/recorder.cpp:194-214 | the start moves by exactly as many durations as files are finished |
| RecordingRuns.NothingIsLost | src/record/recorder.cpp:239-279 | over every run, removed files, kept files and the open one hold, in order, all messages let through among those the run takes; `RecordingLimits.EndsExactly` says which it takes |
| RecordingLimits.WrittenWithoutSplit | src/record/recorder.cpp:161-214 | without splitting, a message is recorded and ends the recording if and only if the size before it or its time is over the limit |
| RecordingLimits.WrittenWithSplit | src/record/recorder.cpp:161-214 | with splitting, it finishes one file if the size before it is over the limit and one for every whole duration that has passed, goes into the last, and never ends the recording |
| RecordingLimits.EndsExactly | src/record/recorder.cpp:239-279 | without splitting, over every run, all messages are taken if none comes when a limit is exceeded, otherwise all up to the first that does; what is let through of them is in the only file |
| RecordingLimits.NoLimitsOneFile | src/record/recorder.cpp:16-19 | without limits, as by default, every message let through is in one file and the recording goes on |
| RecordingLimits.SplitBySize | src/record/recorder.cpp:161-177 | splitting by size, over every run: all messages let through, in order, in files each of which is over the limit, but no non-empty front part of it is |
| RecordingLimits.SplitByTime | src/record/recorder.cpp:194-214 | splitting by duration, over every run: as many files are finished as whole durations lie before the last one that is needed for the latest message |
| RecordingLimits.FilesAreTimed | src/storage/bag.cpp:128-134 | the start, end and date of every file are successive readings of the clock |
| RecordingLimits.KeptExactly | src/record/recorder.cpp:179-192 | over every run, the i-th finished file is on the disk under its own name if and only if it is among the newest max_splits or there is no such limit, and the list names exactly those |
| RecordingLimits.OnlyOwnFiles | src/record/recorder.cpp:75-130 | over every run, files with other names stay as they are, and nothing is left under the last active name if the recorder was stopped |
| RecordingRuns.NewestAreKept | src/record/recorder.cpp:161-214 | over every run, stopped or left, the kept files are closed bags on the disk and named in the list in closing order, the older ones are gone |
| RecordingRuns.LastFileIsThere | src/record/recorder.cpp:356-383 | the last messages are in a file of its final name exactly if the recorder was stopped, and in one of its active name otherwise |
| RecordingRuns.KeptFilesReadBack | src/storage/bag.cpp:156-218 | over every run, opening a kept file gives back all but the last of its messages |
| RecordingRuns.Record | src/record/recorder.cpp:239-279 | the recording loop, to its end, with a signal or without, leaves the disk that the theorems speak of |
| Timeline.InsertAllIsStableSort | src/storage/bag.cpp:210-212 | a multimap filled in any order is sorted, and keeps the order of insertion at equal times |
| Timeline.StableSortIsUnique | src/storage/view.cpp:35-41 | and is the only sequence that is |
| Views.View.UpdateQueries | src/storage/view.cpp:35-41 | inserts the matching records of one bag |
| Views.MatchingCounts | src/storage/view.cpp:36-38 | a query keeps every occurrence of a record it accepts, and nothing else |
| Views.View.AddQueries | src/play/player.cpp:84-93 | and those of all bags, one after the other |
| Views.ViewIsStableMerge | src/storage/view.cpp:35-41 | a view is sorted by time, and at each instant holds the matching records of the first bag, then of the second, each in its own order |
| Views.ViewIsUnique | src/storage/view.cpp:35-41 | and is the only such sequence |
| Timers.AbortsExactly | src/common/timer_queue.cpp:58-60 | the assertion on the first timer that is left fails exactly if a timer's time is now |
| Timers.HandleKeepsOrder | src/common/timer_queue.cpp:28-43 | an event keeps the timers ordered and distinct, with repeating timers put back |
| Timers.RestartHolds | src/common/timer_queue.cpp:67-79 | exactly the repeating timers go back, with the same callback, an interval from now |
| Timers.HandleExactly | src/common/timer_queue.cpp:28-43 | an event runs exactly the timers before its time, in order; left are the others and the repeating ones; it stops if it ran nothing or nothing is left |
| Timers.EveryRun | src/common/timer_queue.cpp:28-43 | over every run of events, the callbacks run so far followed by the timers left are the original list, and none ran before its time |
| Timers.PlayedExactly | src/common/timer_queue.cpp:28-87 | with as many events as timers, nothing is left if and only if every event comes after the time it was set to and at no timer's time, while timers are left |
| Timers.PlaybackStops | src/common/timer_queue.cpp:67-87 | a queue that runs empty has stopped |
| Timers.EverythingIsPlayed | src/common/timer_queue.cpp:28-87 | and under the same condition exactly the whole list has been played, in order |
| Timers.EarlyEventStops | src/common/timer_queue.cpp:31-34 | an event with nothing to run ends the playback |
| Timers.LoadedShifts | src/play/player.cpp:107-115 | loading a view shifts all times by one constant |
| Timers.LoadedHolds | src/play/player.cpp:107-115 | and loses and adds nothing, by the timers made for the messages |
| Timers.LoadedRecords | src/play/player.cpp:107-115 | the messages loaded are those of the view, each as often as it is there |
| Timers.LoadedTimers | src/play/player.cpp:107-115 | each message of the view has a timer that does not repeat, at its shifted time, and there are no others |
| Timers.LoadedInOrderExactly | src/common/timer_queue.cpp:45-52 | the order of the view is kept exactly if, at equal times, later messages get higher addresses |
| Timers.WholeViewIsPlayed | src/play/player.cpp:107-117 | the i-th message played is the i-th of the view, from the timer at its shifted time, for all of the view, if and only if later messages get higher addresses at equal times and the events are timely; each is played after its shifted time |
| Timers.TimerQueue.GetExpired | src/common/timer_queue.cpp:54-65 | takes the timers strictly before now, unless the assertion fails |
| Timers.TimerQueue.HandleEvent | src/common/timer_queue.cpp:28-43 | runs those, in order, puts the repeating ones back, and stops if there were none or none are left |
| Timers.TimerQueue.Reset | src/common/timer_queue.cpp:67-87 | repeating timers go back an interval from now |
| Timers.Play | src/play/player.cpp:107-120 | the messages played and those left are the view's, each as often as it is there; the times of those played are the first of the view, shifted, and each is played after its own |
| PatternFormatter.WidthOfDigits | spdlog/details/pattern_formatter.h:1287-1292 | written digits are read as the number they denote, modulo 64 bits |
| PatternFormatter.PatternFormatter.HandlePadSpec | spdlog/details/pattern_formatter.h:1256-1293 | moves behind the padding and returns it |
| PatternFormatter.PatternFormatter.CompilePattern | spdlog/details/pattern_formatter.h:1296-1334 | compiles the pattern, as the function of it says |
| PatternFormatter.RenderThenCompile | spdlog/details/pattern_formatter.h:1083-1334 | rendering any well-formed list of formatters and compiling it gives the list back |
| PatternFormatter.CompileThenRender | spdlog/details/pattern_formatter.h:1083-1334 | every pattern compiles to a well-formed list, so those are exactly the lists there are |
| PatternFormatter.EscapedPrintsItself | spdlog/details/pattern_formatter.h:1296-1334 | a text with doubled percent signs in front of any pattern prints itself and changes nothing of what follows |
| PatternFormatter.EscapedText | spdlog/details/pattern_formatter.h:1047-1063 | such a text alone prints itself |
| PatternFormatter.PaddedShape | spdlog/details/pattern_formatter.h:53-109 | a padded text has the larger of its size and width, and blanks on the sides asked for, the odd one behind |
| PatternFormatter.TextPrints | spdlog/details/pattern_formatter.h:1083-1293 | name, level, short level and message are printed among as many blanks as they are short of the written width, up to 128, behind the blanks, with a minus in front of them, with an equals sign in the middle |
| PatternFormatter.FlagPrints | spdlog/details/pattern_formatter.h:1083-1251 | two percent signs print one, h, x and X print as b, D and T, the other known flags print their own, an unknown flag prints itself |
| PatternFormatter.ScopedPad.constructor | spdlog/details/pattern_formatter.h:56-81 | writes the blanks in front and remembers those behind |
| PatternFormatter.ScopedPad.Close | spdlog/details/pattern_formatter.h:87-93 | writes the blanks behind |
| PatternFormatter.WidthsAreCapped | spdlog/details/pattern_formatter.h:1256-1293 | no compiled pattern asks for more than the 128 blanks there are |
| PatternFormatter.PatternFormatter.Format | spdlog/details/pattern_formatter.h:1047-1063 | appends the output of every formatter, then the end of line |
| FormatString.TwoPassesAreOne | spdlog/fmt/bundled/format.h:1998-2049 | searching for one brace and then for the other finds exactly what a single pass over the characters finds: the same calls, or an error in both |
| FormatString.ErrorFreeIsUnparsed | spdlog/fmt/bundled/format.h:1998-2049 | a format string without an error is the printed form of the calls it makes |
| FormatString.WrittenIsParsed | spdlog/fmt/bundled/format.h:1998-2049 | printing any well-formed calls gives a string that makes the same calls again |
| FormatString.EscapedIsText | spdlog/fmt/bundled/format.h:1998-2013 | a text with doubled braces reports no error, asks for no argument, and its pieces add up to the text |
| FormatString.TextExactly | spdlog/fmt/bundled/format.h:1998-2049 | a string whose calls are all text is the escaped form of that text |
| FormatString.PlainTextsAreEscaped | spdlog/fmt/bundled/format.h:1998-2049 | the strings that make no call but for text are exactly the texts with doubled braces |
| FormatString.ReadNumber | spdlog/fmt/bundled/format.h:1453-1477 | an argument number read without an error was written without leading zeros |
| FormatString.WrittenNumber | spdlog/fmt/bundled/format.h:1453-1477 | every number of 31 bits is read as it is written |
| FormatString.NumberFitsExactly | spdlog/fmt/bundled/format.h:1453-1477 | an argument number is taken if and only if it is at most 2147483647; otherwise it is too big |
| FormatString.ReadId | spdlog/fmt/bundled/format.h:1785-1807 | an identifier read without an error is one identifier with its text |
| FormatString.FieldWithoutId | spdlog/fmt/bundled/format.h:1785-1807 | a field that begins with what is no identifier is an invalid format, and so is one that ends before it begins |
| FormatString.FieldNotClosed | spdlog/fmt/bundled/format.h:2026-2046 | behind an identifier, anything but a closing brace or a colon is a missing brace |
| FormatString.BraceAlone | spdlog/fmt/bundled/format.h:2000-2013 | a closing brace that is not doubled is unmatched |
| FormatString.Parser.ParseNonnegativeInt | spdlog/fmt/bundled/format.h:1453-1477 | the loop over digits in 32 bits |
| FormatString.Parser.ParseArgId | spdlog/fmt/bundled/format.h:1785-1807 | passes on the identifier and moves behind it |
| FormatString.Parser.Write | spdlog/fmt/bundled/format.h:2000-2013 | passes on text in pieces that each end with the first of two closing braces |
| FormatString.Parser.ParseFormatString | spdlog/fmt/bundled/format.h:1996-2049 | the parser over positions makes exactly the calls of the two-pass function, and ends |
| GmtOffset.YearStartIs | spdlog/details/os.h:283-294 | summing year lengths by the Gregorian rule gives the leap-day formula, for every year |
| GmtOffset.OffsetIs | spdlog/details/os.h:277-302 | the offset is the difference of the two instants in seconds, less a day if the first year slips and more a day if the second does, for all times |
| GmtOffset.OffsetIsExact | spdlog/details/os.h:277-302 | it is exact if and only if both years slip or neither does |
| GmtOffset.OffsetIsExactSince | spdlog/details/os.h:277-302 | in particular from the year -99 on |
| GmtOffset.ADayShort | spdlog/details/os.h:287-291 | from a year of the century before to a year since, it is a day short |

## Left out

- Real files, `statvfs`, `readv`, timer descriptors and clocks: files are byte sequences, directories are maps from
  names to bytes, times are inputs; opening, removing and (in the recorder) renaming a file succeed.
- Allocation failure: a huge length in a damaged bag makes the source allocate before it checks the length.
- Bag.BagReader.Open: the version line is read as digits, where `sscanf` also takes signs and blanks; file sizes stay below 2^64 - 1.
- ByteCodec.IntRoundTrip: the host's byte order is little-endian.
- ByteBuffer.Buffer.MakeSpace: the searches for line ends, `swap` and the aliases of `retrieve` are not modelled.
- Grisu.GenDigits: its caller, the cached powers, the choice between shortest and fixed precision and the prettifying of
  digits are not modelled; the operands are any that have the properties the caller ensures.
- FixedPointPrinter.Lg: `decimal_formatter_null`, which only measures, is not modelled.
- MpmcQueue.NoLostWakeUps: the queue is a step system over a map of threads, with the ring as the object behind its
  critical sections; the MinGW variants, which notify under the lock, are not modelled, nor is an exception from the item's move.
- ThreadPool.DestructorReturns: fairness is not assumed; spurious wake-ups and timeouts are the steps that do not count as
  productive. Handling a message is taking it out of the queue; what the logger's back end does with it is not modelled.
- ThreadPool.AllMessagesHandled: no message is posted once destruction has begun, as the weak pointer of a logger ensures.
- SyncQueue.FirstInFirstOut: a step system on values; the list moved from is empty. The `Take` of one task, which is never
  instantiated, and the getters are not modelled. The maximum is not negative.
- RotatingFileSink.Sink.constructor: where a rename fails in it the source throws and there is no sink.
- RotatingFileSink.Sink.SinkIt: `current_size_` does not wrap around; the daily sink, the locking of the base sink and flushing are not modelled.
- RecordingFiles.AdvanceMeans: times and durations are whole nanoseconds, where the source computes with `double` seconds;
  a positive duration below one nanosecond would keep its loop from ending.
- Recorder.Recorder.StartWriting: the split counter is unbounded, and the dates in file names are arbitrary texts.
- Recorder.Recorder.UpdateFilename: without a prefix, a date and a split counter the source takes the first of no parts; the model asks for one of them.
- RecordingRuns.Record: the process that ends without stopping the recorder aborts on its unjoined thread; what it has written is on the disk.
- Recorder.Recorder.DoWrite: the checks of the free disk space are inputs, and exceptions from the bag are not modelled.
- Views.ViewIsStableMerge: the time range of a query, which the source stores and never uses.
- Timers.Play: pausing, stepping, looping and the publishing itself are not modelled; the offset is one integer.
- PatternFormatter.PatternFormatter.Format: what the date, thread, process and source flags print is an input; the name, levels and
  message are padded as the source does it. The counter flag exists only in a special build. The cached broken-down time is not modelled.
- FormatString.Parser.ParseFormatString: format specifications are read by a parser that the handler provides, which is a parameter; where a
  handler would throw, the model goes on as the code does and records the error.
- GmtOffset.OffsetIsExact: the function is exact on its two arguments; which two times it is given is not modelled.
- Protobuf messages, publish and subscribe, configuration, the command line, the terminal, the other sinks, logger registries and levels:
  plumbing, which would add members without hard properties.
- fmt's dispatch on types, locales, ranges, colours and `snprintf` paths.
