# Verified model of the tracery tracing engine

Tracery attaches small BPF programs to a process and shows what they record. This
project models that engine in Dafny and proves what it promises: BPF handlers of many
threads that share bounded maps, counters and a ring buffer, and the Go code that
decodes, indexes and renders what comes out.

## How it is built

Three concurrent programs are state machines (`SyscallCounter`, `Latency`, `Uprobe`).
Each helper call of a handler (a lookup, an update, a delete, an atomic add, a clock
read, a reserve, a submit) is one atomic step, `Next` takes one step of any thread, and
`Run` takes any schedule. Results are about `Run` from the freshly loaded state, so they
hold for every interleaving, any number of threads and every history. An action that is
not enabled changes nothing, so no schedule is ever excluded. Fields such as the list of
calls of a thread, the samples or the count of hits are history that no handler reads.

Beside each machine stands the program in the form it has in the source
(`SyscallCounterProgram`, `LatencyProgram`, `UprobeProgram`): a class whose fields are
the shared maps, counters and records, and whose methods are the handlers as straight
code over them. Between two helper calls a handler lets any schedule of the other
threads happen. `Valid()` says that the shared fields are those the machine has after
the class's `trace`, and each handler's contract gives the exact actions it adds to the
trace. A handler body that skips or swaps a step does not verify, and every theorem about
`Run` holds of the fields of these objects.

What the history says is tied back to the schedule and the clock: `LatencyCalls` and
`UprobeCalls` say which actions of a schedule the calls are, `LatencyClock` and
`UprobeClock` between which two moments the times of a call were read, `UprobeRecords`
where the header of a record comes from and which calls are traced at all, and
`SyscallCounter.HitsAreTargets` which actions are counted.

The Go side is modelled file by file: `Snapshot`, `SyscallPoll` and `KernelEvents`
(poll.go, events.go), `UprobeWire` (the packed record, both ends), `Symbols`,
`Flamegraph`, `Log2`, `Decimal` and `Dashboard`. Loops are methods proved against a
function or a predicate, and the lemmas state what these mean. `Bpf`, `Totals`, `Pool`, `Wire` and `Text` are shared vocabulary.

## Results worth reading first

* `LatencyResults.AttachOrder`: attaching sys_exit after sys_enter spoils nothing, in any
  continuation, if and only if no timestamp of an already returned call is left in the
  map at that moment. `StaleIsReachable` and `StaleMispairs` show that such a timestamp
  can be there and does produce a wrong sample; `OneMispairingPerThread` bounds the damage.
* `LatencyResults.NothingMissed`, `EverySample`: handle_exit never checks the syscall
  number, and still every sample after that first one belongs to one call, and a call is
  counted once if and only if its insert was not refused. `LatencyCapacity.RefusesIff`
  says when that can happen: if and only if more than 10240 threads pass the filter.
* `LatencyClock.DurationBetween`: the duration a call is counted with lies between the clock
  time from the end of handle_enter to the return and that from the call to the end of
  handle_exit, in every schedule; `LatencyCalls.UndisturbedCall`: a call that takes d
  nanoseconds raises the bucket of d and nothing else.
* `UprobeResults.EventsAreLeaves`, `LeavesAreReported`: under recursion the per-thread
  timestamp is overwritten, and exactly the leaf calls are reported.
* `SyscallCounter.ExactIff`: the lookup-or-initialise counter is exact if and only if
  its initialising branch ran at most once for the number and was never refused;
  `LossIsFinalIff` says when nothing more can be lost.
* `UprobeResults.ConsumerTells`, `PairLinesTellCalls`: in every reachable state, the lines
  the consumer printed are what the handlers meant, in ring order, whatever the reserved
  memory held; the line of a pair shows one leaf call's own duration and return value.
* `Symbols.SamePlaceIff`, `Flamegraph.FrameTellsAddress`: two addresses held by named
  regions share a label if and only if base name and distance into the file agree, so
  different addresses of one region are different frames.

## Assumptions

* An update with `BPF_ANY` overwrites an existing key and fails only for a new key in a
  full map. Replacing or deleting an element leaves its old cell behind, and no cell is
  ever reused: a pointer taken earlier still reads the value it pointed at.
* The handlers of one thread are serial; those of different threads interleave at helper
  calls. `__sync_fetch_and_add` is atomic. Counters stay below 2^64.
* The clock never runs backwards and fits 64 bits.
* A thread id names one thread all along. A thread returns from the system call or
  function it is in before it enters the next one, apart from nested calls of the traced
  function.
* A return probe sees only invocations entered after it was attached; the pair of
  programs is attached entry first.
* Ring records are delivered in reservation order, each once it has been submitted;
  whether a reservation finds room is the environment's choice.
* The machine is little-endian; `bpf_get_current_comm` leaves a NUL in its 16 bytes; the
  task names of a context switch are NUL-terminated.

## Where the code and its documentation differ

The model follows the code.

* bpf/latency.bpf.c:22 says bucket i holds 2^(i-1) to 2^i ns, and latency.go:84 labels
  bucket 1 as "1-2 ns". The code puts 2^i up to 2^(i+1) into bucket i (`Log2.BucketRange`).
* ARCHITECTURE.md:213 says that a warning is logged through the drop counter when a hash
  map is full, and ARCHITECTURE.md:293-296 that dropped events are shown. No code counts
  refused inserts, and no Go code reads `drop_count`. The refused inserts of the model
  are history only.
* The comment of internal/output/flamegraph.go:43 calls weights nanoseconds; the only
  caller passes 1.

## Model

| member | source | states |
|---|---|---|
| SyscallCounter.NeverOvercounts | bpf/syscall_counter.bpf.c:40-74 | in every reachable state: count <= hits; hits = visible + lost + refused + still in a handler; at most 512 keys |
| SyscallCounter.HitsAreTargets | bpf/syscall_counter.bpf.c:43-52 | the hits of a number are exactly the calls of the schedule that number stands in, made by a thread outside the handler, with target 0 or in the target process |
| SyscallCounter.OthersAreNotCounted | bpf/syscall_counter.bpf.c:47-49 | a schedule without a call of the target process leaves the map empty |
| SyscallCounter.UndisturbedHit | bpf/syscall_counter.bpf.c:40-74 | after any run, one undisturbed call of the target raises its number's count by one and no other, if the number is in the map or there is room |
| SyscallCounter.ExactIff | bpf/syscall_counter.bpf.c:60-71 | once no handler is working on a number, its count is exact iff it had at most one lookup miss and no refused store |
| SyscallCounter.ExactAfterLoneMiss | bpf/syscall_counter.bpf.c:60-71 | a number with a single miss is exact at every moment up to increments in flight; a refused number is not in the map, which is full |
| SyscallCounter.OverlapLoses | bpf/syscall_counter.bpf.c:67-71 | a concrete schedule of two threads whose first hits overlap ends with two hits and count 1 |
| SyscallCounter.LossIsFinal | bpf/syscall_counter.bpf.c:60-71 | once a number is in the map, no handler can still initialise it and none holds a replaced cell, every later hit is counted in every continuation |
| SyscallCounter.LossIsFinalIff | bpf/syscall_counter.bpf.c:60-71 | that condition is exact: it holds iff no continuation loses a further hit of the number |
| SyscallCounter.NextKeeps | bpf/syscall_counter.bpf.c:40-74 | every step keeps the books: live cells, misses, losses and refusals of each number |
| SyscallCounter.StoreKeeps | bpf/syscall_counter.bpf.c:67-71 | storing 1 over a cell another thread just made loses exactly what that cell had counted |
| SyscallCounterProgram.Program.CountSyscalls | bpf/syscall_counter.bpf.c:40-74 | no helper call iff a target is set and the process is another; otherwise exactly the lookup and the store or add, with any schedule of the others between |
| SyscallCounterProgram.Program.Count | internal/bpf/poll.go:48-50 | one number's count plus lost, refused and pending hits is the number of hits; at rest it is exact iff at most one miss and none refused |
| SyscallPoll.PollSyscallCounts | internal/bpf/poll.go:43-56 | a tick gives the rows the iterator met, largest count first and none lost or doubled, unless the iteration failed |
| SyscallPoll.Sorted | internal/bpf/poll.go:54-54 | the rows in descending order of count |
| SyscallPoll.TableIsHonest | internal/bpf/poll.go:43-56 | each row has its number's own name and that number's hits up to lost and pending ones at the moment it was read, never more than the hits; at most 512 rows |
| LatencyPairing.NextKeeps | bpf/latency.bpf.c:80-139 | every step of any thread keeps whose timestamp is in the map, what a handler's locals hold, and what each sample is |
| LatencyPairing.ThreadMoves | bpf/latency.bpf.c:80-139 | a thread's step changes no other thread's timestamp, no finished call and no existing sample |
| LatencyPairing.Reached | bpf/latency.bpf.c:80-139 | the invariant holds in every reachable state |
| LatencyResults.EverySample | bpf/latency.bpf.c:103-139 | every increment is the bucket of exit time minus entry time of one thread's target entry; it joins two calls iff the returning syscall is not the target, and then it is that thread's first handled exit |
| LatencyResults.OneMispairingPerThread | bpf/latency.bpf.c:103-139 | at most one mis-paired sample per thread, before all its exact ones |
| LatencyResults.CountedExactlyOnce | bpf/latency.bpf.c:80-139 | a finished call has exactly one sample, with its own two times, iff its timestamp was stored and its exit handled; a refused call is in no sample |
| LatencyResults.NothingMissed | bpf/latency.bpf.c:80-139 | once both programs are attached, a finished target call of an admitted thread is counted exactly once iff its insert was not refused, and a refused one is in no sample |
| LatencyCapacity.RefusesIff | bpf/latency.bpf.c:31-36 | no run ever refuses an insert iff at most 10240 threads pass the filter |
| LatencyCapacity.NothingMissedWithRoom | bpf/latency.bpf.c:80-139 | with that many threads or fewer, every such target call is counted exactly once |
| LatencyResults.AttachOrder | internal/bpf/poll.go:88-98 | attaching sys_exit second keeps every later sample exact, in all continuations, iff no stale timestamp exists at that moment |
| LatencyResults.StaleMispairs | bpf/latency.bpf.c:115-125 | from any attached state with a stale timestamp some continuation adds a mis-paired sample |
| LatencyResults.StaleIsReachable | internal/bpf/poll.go:88-98 | a concrete run leaves a stale timestamp before sys_exit is attached |
| LatencyConservation.Conservation | bpf/latency.bpf.c:92-137 | admitted enters = histogram total + live + overwritten + refused + in handle_enter + between delete and add; each bucket counts its samples; the fallback initialisation is unreachable |
| LatencyConservation.NextSettles | bpf/latency.bpf.c:80-139 | every step keeps those books |
| LatencyClock.ClockTells | bpf/latency.bpf.c:96-96 | the clock shows the time that passed in the schedule, whatever the handlers do |
| LatencyClock.EnteredBetween | bpf/latency.bpf.c:96-97 | over any split of a schedule, a call's entry time lies between the clock at any moment before the call and at any moment when handle_enter is through with it |
| LatencyClock.ExitedBetween | bpf/latency.bpf.c:121-121 | its exit time lies between the clock at any moment before the return and at any moment when handle_exit is through |
| LatencyClock.DurationBetween | bpf/latency.bpf.c:121-122 | a sample of one call: its duration is at least the clock time from the end of handle_enter to the return, at most that from the call to the end of handle_exit |
| LatencyCalls.CallsBegan | bpf/latency.bpf.c:82-94 | each call is a system call of the schedule, with its number |
| LatencyCalls.EntriesAreCalls | bpf/latency.bpf.c:82-94 | each system call of the schedule by an idle thread is a call, for good |
| LatencyCalls.OnlyTheTarget | bpf/latency.bpf.c:89-113 | no sample is of a thread of another process |
| LatencyCalls.UndisturbedCall | bpf/latency.bpf.c:80-140 | after any run, a target call that takes d nanoseconds adds one to the bucket of d, changes no other bucket and leaves no timestamp |
| LatencyProgram.Program.HandleEnter | bpf/latency.bpf.c:82-100 | filters and two helper calls are exactly the machine's steps, any schedule of the others between; a clock reading made during the handler is the call's entry time and is in the map, or the map is full |
| LatencyProgram.Program.HandleExit | bpf/latency.bpf.c:105-140 | no helper call if filtered, one if the thread has no timestamp, otherwise all six, any schedule of the others between; then the call is counted in the bucket of a clock reading made during the handler less its entry time |
| LatencyProgram.Program.MeasureCall | bpf/latency.bpf.c:120-137 | clock, difference, then delete, lookup and increment; the sample ends at a reading made during this run |
| LatencyProgram.Program.CountSample | bpf/latency.bpf.c:124-137 | delete, bucket lookup and in-place increment, the lookup never missing; the call's sample is in the bucket of its duration |
| LatencyProgram.Program.KtimeGetNs | bpf/latency.bpf.c:96-121 | the reading is the clock of that very moment, and the handler goes on with it |
| LatencyProgram.Program.UpdateEntry | bpf/latency.bpf.c:97-97 | the map then holds the handler's own clock reading for the thread, or it is full and holds nothing new |
| LatencyProgram.Program.Since | bpf/latency.bpf.c:121-122 | the 64-bit difference of the clock reading and the cell the lookup found |
| LatencyProgram.Program.FetchAdd | bpf/latency.bpf.c:131-133 | one bucket of the array grows by one, in place |
| LatencyProgram.Program.Accounts | bpf/latency.bpf.c:92-137 | the conservation equation on the shared map and array themselves |
| Log2.Log2Bucket | bpf/latency.bpf.c:64-77 | the shifting loop computes the bucket in at most 63 shifts of any u64 |
| Log2.BucketRange | bpf/latency.bpf.c:64-77 | bucket b collects exactly 2^b <= v < 2^(b+1), bucket 0 exactly {0, 1}, bucket 31 exactly v >= 2^31 |
| Log2.BucketMonotone | bpf/latency.bpf.c:64-77 | longer durations never land in lower buckets |
| Log2.LabelTellsBucket | latency.go:88-107 | a duration lies in the label of bucket b iff it was counted there and is below 2^32 ns |
| Snapshot.PollHistogram | internal/bpf/poll.go:109-116 | the tick loop reads each bucket as it stands at its own lookup |
| Snapshot.Sandwich | internal/bpf/poll.go:109-116 | bucket by bucket and in total a snapshot lies between the histogram at its first and at its last lookup |
| Snapshot.SnapshotsGrow | internal/bpf/poll.go:104-118 | a later snapshot is nowhere below an earlier one |
| Snapshot.RunCountsUp | bpf/latency.bpf.c:131-133 | no schedule ever lowers a bucket |
| UprobePairing.NextKeeps | bpf/uprobe.bpf.c:47-134 | every step keeps whose timestamp is in the map under recursion, what handlers hold, and what each ring slot is about |
| UprobePairing.ThreadMoves | bpf/uprobe.bpf.c:47-134 | a thread's step touches neither other threads, their timestamps, nor slots it does not hold |
| UprobePairing.Reached | bpf/uprobe.bpf.c:47-134 | the invariant holds in every reachable state |
| UprobePairing.NamedRun | bpf/uprobe.bpf.c:47-62 | a reported call's slot is and stays its own |
| UprobeResults.EventsAreLeaves | bpf/uprobe.bpf.c:83-118 | each paired event is about one leaf call, carries its own duration and return value, and is the only event about it |
| UprobeResults.LeavesAreReported | bpf/uprobe.bpf.c:83-118 | a finished leaf whose insert was not refused has exactly one record, or a counted drop and none; a refused call or one with traced calls inside has none |
| UprobeCapacity.RefusesIff | bpf/uprobe.bpf.c:30-35 | no run ever refuses an insert iff the probe is single-ended or at most 10240 threads pass its filter |
| UprobeCapacity.LeavesAreReportedWithRoom | bpf/uprobe.bpf.c:83-118 | with that many threads or fewer, every finished leaf has its one record unless the ring was full |
| UprobeResults.SingleEndedEvents | bpf/uprobe.bpf.c:64-133 | each call an entry-only or return-only probe saw has exactly one record, or a counted drop and none |
| UprobeResults.SingleEndedRecords | bpf/uprobe.bpf.c:64-133 | each record of such a probe is about a call it saw, carries that call's own arguments or return value, and is the only one about it |
| UprobeResults.ClearedBeforeReserve | bpf/uprobe.bpf.c:101-112 | when a paired exit asks for ring space its timestamp is gone, so a drop cannot revive it |
| UprobeResults.RingAccounting | bpf/uprobe.bpf.c:47-62 | attempted = submitted + dropped + reserved in flight + about to be counted, in every reachable state |
| UprobeTally.RingTally | bpf/uprobe.bpf.c:47-62 | the drop counter is the number of dropped calls, and the ring has one record for each reported call |
| UprobeCalls.CallsBegan | bpf/uprobe.bpf.c:39-45 | each traced call is a function call of the schedule, with its arguments, seen iff the entry program was attached and the process is the target, its return caught iff the return program was |
| UprobeCalls.EntriesAreCalls | bpf/uprobe.bpf.c:83-93 | each function call of the schedule is a call of its thread, for good |
| UprobeCalls.ReturnsTell | bpf/uprobe.bpf.c:113-114 | a call's return value is that of a return in the schedule made while it was the innermost call |
| UprobeCalls.InnerMeans | bpf/uprobe.bpf.c:83-93 | a call is no leaf iff another began while it was the innermost |
| UprobeClock.ClockTells | bpf/uprobe.bpf.c:90-90 | the clock shows the time that passed in the schedule |
| UprobeClock.EnteredBetween | bpf/uprobe.bpf.c:90-91 | a call's entry time lies between the clock before the call and when the entry handler is through |
| UprobeClock.ExitedBetween | bpf/uprobe.bpf.c:106-106 | its exit time lies between the clock before the return and when the exit handler is through |
| UprobeClock.LatencyBetween | bpf/uprobe.bpf.c:106-113 | a record's latency is at least the clock time from the end of the entry handler to the return, at most that from the call to the end of the exit handler |
| UprobeRecords.HeadersTell | bpf/uprobe.bpf.c:54-60 | a record's timestamp is the clock, its comm the kernel's buffer, at one step of its own thread after the reserve; its ids are that thread's |
| UprobeRecords.OnlyTheTarget | bpf/uprobe.bpf.c:39-45 | no record is of a thread of another process |
| UprobeRecords.PairsAreTraced | bpf/uprobe.bpf.c:83-118 | from the moment the return program is attached, every finished call of the target is accounted for: one record, a counted drop, or none as its kind demands |
| UprobeRecords.SingleEndsAreTraced | bpf/uprobe.bpf.c:64-133 | once attached, a single-ended probe has one record or a counted drop for every finished call of the target |
| UprobeRecords.Attached | internal/probe/uprobe.go:105-139 | attaching turns on the entry program unless the probe is return-only, and the return program unless it is entry-only |
| UprobeRecords.EverythingIsDelivered | trace.go:268-277 | when no record is being filled, reading on gets through the whole ring |
| UprobeResults.RunUprobeTrace | trace.go:268-298 | the read loop prints the records that decode, one line each, in order, and counts the lines |
| UprobeResults.PrintedFields | trace.go:279-295 | a record of 120 bytes or more, whoever wrote it, is one line of the fields at their offsets, nil for a zero duration or return value; a shorter one is none |
| UprobeResults.ConsumerTells | trace.go:268-298 | the count equals the records read; line k has its slot's process id and, by kind, the slot's duration and return value, its return value, or its comm and two arguments, each in its place |
| UprobeResults.PairLinesTellCalls | trace.go:287-289 | line k of a paired probe shows one leaf call of the thread's own process: exit time less entry time, and its own return value; no other line is about that call |
| UprobeResults.SingleEndedLinesTellCalls | trace.go:290-295 | line k of a single-ended probe shows the arguments, or the return value, of the one call its record is about |
| UprobeProgram.Program.HandleUprobeEntry | bpf/uprobe.bpf.c:64-81 | no helper call if filtered; otherwise reserve, fill in place and submit, or reserve and count a drop, as the ring has room; the record in the ring tells this call's arguments, ids, comm and a time during the handler |
| UprobeProgram.Program.HandleUprobePairEntry | bpf/uprobe.bpf.c:83-93 | no helper call if filtered; otherwise clock, then update, any schedule of the others between; the map then holds a reading made during the handler, or is full |
| UprobeProgram.Program.HandleUprobePairExit | bpf/uprobe.bpf.c:95-118 | no helper call if filtered, one if the thread has no timestamp; otherwise lookup, difference, delete and the event; the record in the ring tells the return value and the time from the call's entry reading to a reading made during the handler |
| UprobeProgram.Program.HandleUretprobeOnly | bpf/uprobe.bpf.c:120-133 | an event, or a counted drop, for every caught return that passes the filter; the record in the ring tells its return value |
| UprobeProgram.Program.EmitEvent | bpf/uprobe.bpf.c:47-62 | three helper calls with room, after which the bytes in the ring tell the event; two and a counted drop without |
| UprobeProgram.Program.FillEvent | bpf/uprobe.bpf.c:54-61 | the stores leave the slot with the record the machine has there, from the bytes it held, each field at its offset |
| UprobeProgram.Program.Accounts | bpf/uprobe.bpf.c:47-62 | the drop counter field makes the ring books balance |
| UprobeWire.FillRecord | bpf/uprobe.bpf.c:47-134 | the in-place stores change reserved memory into the record, keeping every byte they do not write |
| UprobeWire.RecordFields | bpf/uprobe.bpf.c:10-20 | every written field reads back at its offset, and `syscall_nr` keeps its stale bytes |
| UprobeWire.ParseUprobeEvent | internal/aggregator/uprobe.go:26-64 | an input is rejected iff it is shorter than 120 bytes; otherwise the event is that of the decoded fields |
| UprobeWire.CollectFields | internal/aggregator/uprobe.go:40-55 | the fields map built step by step |
| UprobeWire.FieldsTell | internal/aggregator/uprobe.go:40-55 | which keys the map has, and that an absent key stands for 0 |
| UprobeWire.RoundTrip | internal/aggregator/uprobe.go:26-64 | decoding what a handler wrote gives back exactly what it was given, for all stale contents and trailing bytes |
| UprobeWire.StaleBytesDoNotMatter | bpf/uprobe.bpf.c:47-62 | reservations differing only in old contents decode alike |
| UprobeWire.TrailingIgnored | internal/aggregator/uprobe.go:26-41 | bytes past the struct change nothing |
| UprobeWire.SignedBits | internal/aggregator/uprobe.go:12-22 | the signed return value has the register's bits |
| Wire.DecodeEncode | internal/aggregator/uprobe.go:26-41 | little-endian decoding undoes encoding at every width |
| Wire.EncodeDecode | internal/aggregator/uprobe.go:26-41 | and encoding undoes decoding |
| Wire.LittleEndian | internal/aggregator/uprobe.go:26-41 | the fields are little-endian, below 2^32 and 2^64 |
| Wire.CStringReads | internal/aggregator/uprobe.go:66-71 | text, its NUL and anything behind it read back as the text |
| KernelEvents.TraceMemSyscalls | bpf/events.bpf.c:91-134 | the capture flag, pid and number filters, then one record filled in place if there is room |
| KernelEvents.TraceSchedSwitch | bpf/events.bpf.c:139-172 | the same for context switches |
| KernelEvents.FillMem | bpf/events.bpf.c:79-131 | the stores of `fill_common` and of the switch on the syscall number |
| KernelEvents.MemFields | bpf/events.bpf.c:56-68 | each field of a memory record reads back, brk with size 0 |
| KernelEvents.SwitchFields | bpf/events.bpf.c:152-168 | each field of a switch record reads back, names cut at 15 bytes, stale bytes behind them unseen |
| KernelEvents.RecordShown | events.go:38-87 | a captured firing's record is shown as one line of the probe's own values: verb by syscall number, and the byte count in the largest unit it reaches, 0 being a heap resize |
| KernelEvents.PollEvents | internal/bpf/poll.go:208-230 | the event loop shows each record that decodes and passes both filters, in order |
| KernelEvents.ShowsWhatWasWanted | internal/bpf/poll.go:158-230 | capture flags and both filters together show exactly the wanted firings that found room, in order, for all stale contents |
| KernelEvents.EveryLineTells | events.go:38-87 | line k tells the values of a wanted firing of its own, in order, and every wanted firing that found room has its line |
| KernelEvents.PollFilterIsRedundant | internal/bpf/poll.go:221-226 | on any record, dropping it in PollEvents never hides a line printEvent would print |
| Symbols.ReadMaps | internal/output/symbols.go:20-74 | an error iff the file cannot be opened or scanning it fails; otherwise the regions of its well-formed lines |
| Symbols.ScanMaps | internal/output/symbols.go:33-69 | the scanning loop keeps the regions of the well-formed lines, in order |
| Symbols.ParsesIff | internal/output/symbols.go:39-73 | a line yields a region iff it has five fields, the first two 64-bit hexadecimal numbers around its first dash, the third one such number; the region has those numbers and the sixth field as path |
| Symbols.PrintParse | internal/output/symbols.go:39-68 | parsing a printed region, in every layout, gives it back with the path cut at its first white space, or skips the line when a number needs more than 64 bits |
| Symbols.SurvivesIff | internal/output/symbols.go:39-68 | a printed region is read back unchanged iff its numbers fit 64 bits and its path has no white space |
| Symbols.InterleavedJunk | internal/output/symbols.go:33-73 | regions with such paths, printed among any malformed lines, are read back exactly, in order |
| Text.ParsePadded | internal/output/symbols.go:47-58 | hexadecimal text with any leading zeros reads back below 2^64 and is malformed from there on |
| Symbols.ResolvesToHolder | internal/output/symbols.go:78-86 | over disjoint regions the answer is the path of the one region holding the address and the 64-bit number as far from the region's file offset as the address is from its start |
| Symbols.ResolveIgnoresOrder | internal/output/symbols.go:78-86 | permuting disjoint regions changes no answer |
| Symbols.ResolvesUnmapped | internal/output/symbols.go:78-86 | an address in no region gives the empty answer |
| Symbols.OffsetInRegion | internal/output/symbols.go:78-86 | the file offset lies in the mapped part of the file iff the addition did not wrap at 2^64 |
| Symbols.LabelInjective | internal/output/symbols.go:91-103 | labels are injective: the last plus splits, hexadecimal text is unique |
| Symbols.SameLabelIff | internal/output/symbols.go:91-103 | two addresses have one label iff same base name and file offset, or same unresolved address |
| Symbols.LabelReads | internal/output/symbols.go:91-103 | the label of an address a named region holds: base name, +0x, and its place in the file in hexadecimal |
| Symbols.RawReads | internal/output/symbols.go:91-103 | the label of any other address is the address in hexadecimal |
| Symbols.SamePlaceIff | internal/output/symbols.go:78-103 | addresses held by named regions share a label iff the base names are equal and they are equally far into the file, modulo 2^64 |
| Symbols.LabelTellsAddress | internal/output/symbols.go:78-103 | two addresses of one region, of at most 2^64 bytes, share a label iff they are equal |
| Symbols.ResolveStack | internal/output/symbols.go:107-116 | the labels of the addresses before the first zero, in order |
| Text.BaseIsLastPart | internal/output/symbols.go:97-98 | the name is what follows the last slash |
| Flamegraph.WriteFlamegraph | internal/output/flamegraph.go:47-91 | an error iff no samples; else indices map back to every stack, weights align, the end value is their sum |
| Flamegraph.InternStack | internal/output/flamegraph.go:52-62 | interning keeps map and table inverse and the table in first-occurrence order |
| Flamegraph.IndexSamples | internal/output/flamegraph.go:64-77 | the second pass: one index list and one weight per sample, and the sum of the weights |
| Flamegraph.IndexStack | internal/output/flamegraph.go:69-74 | the indices of a stack stand for its frames |
| Flamegraph.DistinctHasAll | internal/output/flamegraph.go:52-62 | the table holds every frame once |
| Flamegraph.DistinctKeepsOrder | internal/output/flamegraph.go:52-62 | table order is the order of first occurrence |
| Flamegraph.SameIndexIff | internal/output/flamegraph.go:52-77 | two positions have one index iff they carry one label |
| Flamegraph.CollectSamples | trace.go:176-214 | exactly the records that decode, carry a stack id the map knows and have an address before any zero become samples, in order |
| Flamegraph.RecordNamesStack | trace.go:168-203 | a record built from a timestamp, ids, signed stack id and comm names that stack, and is usable iff the id is no error code and its stack has an address before any zero |
| Flamegraph.SameFrameIff | internal/output/flamegraph.go:52-77 | two sampled addresses share an index iff they mean the same place |
| Flamegraph.FrameTellsAddress | internal/output/flamegraph.go:52-77 | two sampled addresses of one region, of at most 2^64 bytes, share an index iff they are equal |
| Decimal.Itoa | internal/tui/styles.go:38-47 | the digits denote n, without a leading zero |
| Decimal.NumeralUnique | internal/tui/styles.go:38-47 | a number has one numeral, so reading and printing are inverse |
| Decimal.CommaSep | bench.go:280-289 | the output is the grouped numeral, and without its commas the numeral of n |
| Decimal.CommaSepMeans | bench.go:280-289 | (d-1)/3 commas, one before digit i iff the digits from i on are a multiple of three |
| Dashboard.Update | internal/tui/model.go:66-106 | what each message does to the model, which keys quit, and that a tick asks for the next |
| Dashboard.BufferIsRecent | internal/tui/model.go:95-100 | after any messages the buffer is the last 200 events received and the view is in range |
| Dashboard.ActiveView | internal/tui/model.go:73-85 | the active view is the last one chosen, or the first, turned on by one for each tab since |
| Dashboard.LastOnesShown | internal/tui/model.go:68-93 | counts, buckets and window size are the ones received last |
| Dashboard.RenderEvents | internal/tui/events_view.go:5-17 | the lines shown are the last 20 events |
| Dashboard.TailIsRecent | internal/tui/events_view.go:5-17 | trimming never shows: the tail is that of the whole history |
| Dashboard.HistogramWindow | latency.go:117-145 | no window iff no data; else the rows from min(2, first) before the first count to min(2, 31 - last) after the last; the maximum is exact |
| Dashboard.WindowShowsAll | latency.go:123-151 | the counts shown add up to the whole histogram |

## Left out

- Loading, constant rewriting, attachment calls and links (`internal/bpf/loader.go`, `AttachUprobe`): external calls; only the attach order is a step.
- ELF symbol lookup, syscall name tables, YAML probes and their validation: searches and field checks.
- Cobra commands, signals, tickers, logging, lipgloss styling, bar lengths and percentages: plumbing and display.
- JSON encoding, file writing, `/proc` access, perf and wall-clock benchmarking: input and output.
- bpf/stack.bpf.c: its capture filter and the kernel's stack ids; samples start from the ring records and the stack map.
- The memory layout and capacity of the ring: whether a reservation finds room is an input.
- Thread death inside a call, reuse of thread ids, and execve changing a thread's id.
- PollSyscallCounts: which keys the iterator meets, and when, is an input; it is taken to meet no key twice.
- The scanner's limit on the length of a maps line, and bytes that are not valid UTF-8 in it.
- LabelTellsBucket: compares the numbers of a label before they are rounded to a unit with one decimal.
- ShowsWhatWasWanted: a firing is one step, as the record's bytes depend on its own probe only; sizes are compared before rounding to a tenth.
- WriteFlamegraph: weights are integers; the only caller passes 1.
- Update: the model is a value, as the source's receiver is a copy; sharing of the events slice's backing array between copies is not modelled.
- HandleUprobeEntry: the clock and comm reads between reserve and submit are one step with the stores, as they touch only the reserved record.
