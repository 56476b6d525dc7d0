# HFIOR verification

HFIOR hands input records from a bridge process to a client through a shared ring that the client
can only read. The client tells the bridge over a message channel how far it has read, and the
bridge moves the shared tail only after validating such an acknowledgement (ACK). This project
models that design in Dafny and proves what it is for.

| area | modules |
|---|---|
| 64-bit words, masks and slots | `Words`, `Records`, `Sequences` |
| the ring, its step system, acknowledged reclamation | `Ring`, `Protocol`, `Reclamation`, `Consumer`, `AckRuns`, `HeadStart`, `Reconnects`, `Overwrites`, `Races`, `Runs` |
| consumers of the ring | `SharedMapping`, `Policy`, `RecordQueue`, `Accounting`, `LatencyClient`, `FramePolicy`, `Freshness`, `ClientThreads` |
| evdev events to records | `FrameAssembler`, `FrameMeaning`, `Bridge` |
| the game | `GameClient`, `GameLoop`, `GameRun` |
| measurement mathematics | `Percentiles`, `PercentileMeaning`, `Pareto`, `Regression` |

## How it is modelled

- `Protocol.Do` is the shared ring as a step system. Taking a number, loading the tail, writing a slot
  (in arbitrarily many torn stages), storing the head, receiving an ACK with the head loaded then,
  and validating it are separate steps, so loaded values are stale when used. Guards read only
  64-bit words, slots and locals; an unbounded history and unbounded positions are carried beside
  them and proved to match. `Consumer.Act` adds the consumer, slot by slot; `ClientThreads.Advance`
  adds two threads under one mutex.
- Code that works by changing things is a class whose methods are proved against specification
  functions. Before every access to shared memory, `SharedMapping.Mapping` lets producer and bridge
  take any number of steps, so each loop is proved against a producer that never pauses.
- Fields named `position` are auxiliary: no test reads them. Clocks, the outcome of sends and of
  Wayland dispatch, and the initial button bitmap are parameters.

## Where the code does less than one might expect

These are proved with exact conditions; the code was kept as it is.

- `src/common.c:247` and `reference/bridge/main.c:749-751` compare words with `<` and `>`: they reject
  exactly while a multiple of 2^64 lies between tail (or cursor) and head. Publish and drain have no such limit.
- `reference/bridge/main.c:751`: the last bounds test never decides.
- A cursor that starts at the head (`src/policy.c:24-25`, `reference/latency-client/main.c:548-550`)
  takes that head as acknowledged. If the ring is full then, nothing ever moves again: the producer
  drops every record, the consumer never sees one and so never acknowledges
  (`HeadStart.HeadAttachDeadlocks`). With room it recovers if its generation is current
  (`HeadStart.HeadAttachRecoversExactly`).
- A device reconnect (`reference/bridge/main.c:823`) outdates every ACK on its way. `src/policy.c` and the
  ring-reading policies of the latency client never take up a new generation (`reference/latency-client/main.c:732-735`
  is reached only in eager mode), so for them the first reconnect ends reclamation
  (`Reconnects.ReconnectEndsReclamation`). A client that does take it up is stuck as well if the
  outdated ACKs were the last it had to send for a full ring (`Reconnects.ReconnectStopsTheStream`).
  `spec/consumer-model.md:15-16` has a consumer stop on a generation mismatch; the ring-reading code never compares.
- `src/policy.c:72-73`: when a later pass of the stable latch fails, earlier passes have already moved
  the cursor; what it moved past is in the buffer, but the caller is not told how much.
- `hfior_cursor_latest_committed` does not pin the slot it reads: it can return a later record or a
  mixture (`Policy.Cursor.LatestCommitted`, `Overwrites.OverwritableExactly`,
  `Overwrites.OverwriteIsReachable`).
- `hfior_ring_depth` loads the head before the tail; `reference/latency-client/main.c:1042` calls it outside
  the mutex, so an ACK of the urgent thread can be accepted in between and the difference wraps
  (`Reclamation.DepthExactly`, `Races.DepthCanWrap`).
- `account_sequences` miscounts after number 2^64 - 1 (`Accounting.ConservationExactly`).
- `benchmarks/game/main.cc:975`: in eager mode a frame whose window has no pixels drops the motions it
  read early; HFIOR mode does not (`GameLoop.SameCameraExactly`).

## Model

| member | source | states |
|---|---|---|
| Words.PowerOfTwoTestIsExact | src/common.c:115-117 | The capacity test (nonzero, and value AND value - 1 is zero) accepts exactly the powers of two |
| Words.CapacityDividesWord | src/common.c:115-117 | Every accepted 32-bit capacity is a power of two below 2^32 and divides 2^64 |
| Words.MaskIsModulo | src/common.c:218-220 | Masking with 2^k - 1 is reduction modulo 2^k, with AND defined bit by bit |
| Words.SlotIsModulo | src/common.c:187 | The masked wrapped counter still selects position modulo capacity, for every unbounded position |
| Words.SlotsDistinct | src/common.c:187 | Positions less than a capacity apart never share a slot, across counter wrap too |
| Words.SlotsRepeat | src/common.c:187 | Positions whole capacities apart always share one |
| Ring.FifoConserves | src/common.c:174-234 | Over any run of offers and takes: accepted = taken followed by queued, the queue never outgrows the capacity, every offer is accepted or counted as refused |
| Ring.RingHeader.InitializeMapping | src/common.c:124-172 | Succeeds exactly for a power-of-two capacity whose mapping is large enough, and then is the empty queue with the first number 1; otherwise changes nothing |
| Ring.RingHeader.Publish | src/common.c:174-205 | On wrapping 64-bit words, one step of the simple drop-newest queue over unbounded counters, for every head and tail; a refusal leaves every slot alone; the statistics line stays the counts of history and of its records with each flag |
| Ring.RingHeader.Drain | src/common.c:207-234 | One take from the same simple queue, for every head and tail including past 2^64: exactly the oldest records are copied out and released, nothing else in the buffer is touched |
| Ring.RingHeader.ReleaseTo | reference/bridge/main.c:755-761 | Moving the tail to an acknowledged word releases exactly the records up to it, and records_consumed stays equal to the tail |
| Protocol.StepKeepsBounded | reference/bridge/main.c:741-766 | Every step keeps tail <= head <= tail + capacity, with the words equal to the wrapped positions and records_consumed equal to the tail, with stale loaded tails and heads in flight |
| Protocol.StepKeepsWindowed | src/common.c:186-189 | Every step keeps the array the modulo-capacity window of history, except for the one slot being written |
| Protocol.StepKeepsNumbered | reference/bridge/main.c:404-435 | Every step keeps the numbering law: record i carries one plus i plus the drops before it |
| Protocol.RunKeepsRing | src/common.c:174-205 | All three invariants hold after any sequence of steps, whatever messages a peer injects |
| Protocol.TailTestIsExact | src/common.c:176-185 | The capacity test on the producer's own head and a stale tail is exactly the test on the unbounded positions at the time of the load |
| Protocol.LastTestIsImplied | reference/bridge/main.c:749-751 | An ACK is accepted exactly if the generation is current and its tail lies between the tail and head words: the fourth test never decides |
| Protocol.LossesAreExact | reference/bridge/main.c:407-411 | After any run: next_sequence is 1 + published + dropped between publications, record i carries 1 + i + drops before i, and while fewer than 2^64 records were attempted numbers strictly increase and differ by exactly the positions and drops between |
| Protocol.UndisturbedPublication | reference/bridge/main.c:404-435 | The six steps of one publication, run without interruption, are one offer to the drop-newest queue |
| Reclamation.AnyAckStreamIsSafe | reference/bridge/main.c:741-766 | For any run with arbitrary, even nonsensical, ACKs: invariants hold, the tail never moves back nor past the head, history is only extended, records_consumed equals the tail |
| Reclamation.RejectedAckChangesNothing | reference/bridge/main.c:749-753 | A rejected ACK changes nothing but the rejection count |
| Reclamation.EveryAckIsAnswered | reference/bridge/main.c:741-766 | Over any run every message is accepted, rejected or still on its way, each once; and while no further ACK is accepted the tail, records_consumed and the reclaimed position stand still |
| Reclamation.AckAcceptedExactly | reference/bridge/main.c:749-757 | An ACK from a protocol-following consumer is accepted if and only if its generation is current and no multiple of 2^64 lies between the tail and the loaded head; accepted, it moves the tail to exactly the position meant |
| Reclamation.DepthExactly | include/hfior/abi.h:157-161 | hfior_ring_depth, with any steps between its two loads, yields the true depth within the capacity if and only if no ACK past the loaded head is accepted between the loads; otherwise it wraps past the capacity |
| Races.DepthCanWrap | reference/latency-client/main.c:1042 | For every capacity, a schedule from the initial mapping on which the urgent thread drains and acknowledges between the two loads: the depth comes out as 2^64 - 1 |
| Reclamation.StepKeepsChained | reference/bridge/main.c:741-766 | Every producer or bridge step keeps reclaimed <= in-flight ACKs, oldest first <= acknowledged tail <= head |
| Reclamation.InternalStepRely | src/common.c:174-205 | What the consumer may rely on between two of its accesses: the invariant, and a world that only grew |
| Reclamation.StepNeverOverwrites | src/common.c:181-189 | No step, not even a half-finished slot write, disturbs the record of a published position at or above the acknowledged tail |
| Reclamation.PenIsElsewhere | src/common.c:186-187 | The slot under the producer's pen is never that of an unreclaimed published position |
| Reclamation.SendKeepsInvariant | reference/latency-client/main.c:553-566 | Acknowledging any position between the acknowledged tail and the head keeps the invariant |
| Reclamation.EveryAckAccepted | reference/bridge/main.c:754-765 | Without a reconnect and before 2^64 records, validating an in-flight ACK succeeds and leaves the tail at exactly the word delivered |
| Reclamation.StepKeepsSettled | reference/bridge/main.c:741-766 | The newest in-flight ACK names the acknowledged tail, or the shared tail is already there; every step keeps that |
| Reclamation.ReclamationCatchesUp | reference/bridge/main.c:741-766 | Once the others pause, the bridge accepts every ACK in the channel and the shared tail reaches the acknowledged tail |
| Consumer.ReachableStates | src/common.c:236-260 | In every reachable state of producer, consumer, ACK channel and bridge under every interleaving, slot by slot: tail <= in-flight ACKs <= acknowledged <= local tail <= head <= tail + capacity; every slot in [tail, head) holds its history record; what was delivered, and even a half-copied snapshot, is history once and in order |
| Consumer.EveryInterleavingKeeps | src/policy.c:7-58 | The system invariant survives any sequence of moves from any state that satisfies it |
| Consumer.SnapshotTestIsExact | src/common.c:247-251 | The snapshot rejects exactly when a multiple of 2^64 lies between cursor and head; otherwise the words give the true number of unread records |
| Consumer.ShownAt | src/policy.c:95-98 | An unpinned slot not being written shows the newest published record that shares it, which is the one asked for exactly when no later position that shares the slot has been published |
| AckRuns.NoAckIsEverRejected | reference/bridge/main.c:749-753 | From the initial mapping, under every interleaving without a reconnect and with fewer than 2^64 records, the bridge rejects no ACK |
| AckRuns.MoveKeepsSettled | src/policy.c:40-58 | In such runs every move of an attached consumer keeps the shared tail, or an ACK on its way, at the acknowledged tail |
| AckRuns.TailReachesTheLastAck | reference/bridge/main.c:741-766 | After any such run, wherever the consumer attached, in which it has acknowledged something or had started at the shared tail, the bridge on its own accepts everything in the channel and the shared tail reaches the last position acknowledged |
| AckRuns.AttachSettles | src/policy.c:16-26 | Attaching is settled at once if and only if the cursor starts at the shared tail or the head was not ahead of it |
| HeadStart.HeadAttachDeadlocks | reference/latency-client/main.c:548-550 | Attached at the head of a ring that the two loaded words show full: under every interleaving for ever, no record is published, none is read, no ACK is sent and nothing is reclaimed |
| HeadStart.HeadAttachRecoversExactly | src/policy.c:16-26 | Before 2^64 records and for a consumer that keeps its generation, after a head attach some run brings the shared tail to the acknowledged tail if and only if the loaded head and tail words are equal, or they do not show a full ring and the generation is not behind the bridge's |
| HeadStart.HeadAttachRecoversLearning | reference/latency-client/main.c:732-735 | For a client that also takes up new generations: if and only if the words do not show a full ring |
| HeadStart.RoomRecovers | src/common.c:181-189 | The run, without taking up a generation: finish or restart the publication under way, read one record, acknowledge it, accept the ACK |
| HeadStart.FullAttachIsReachable | reference/latency-client/main.c:548-550 | For every capacity a run from the initial mapping ends in a head attach on a full ring |
| AckRuns.OutdatedForever | reference/bridge/main.c:749-753 | Once the bridge's generation is ahead of the consumer's and of every ACK in flight, and the consumer keeps its own, no ACK is accepted ever again: the tail stands still and at most the room left is published |
| Reconnects.ReconnectEndsReclamation | reference/bridge/main.c:818-831 | From the initial mapping, for a consumer that keeps its generation: whatever runs before and after it, the first reconnect is the end of reclamation |
| Reconnects.ReconnectStopsTheStream | reference/bridge/main.c:818-831 | On a full ring, read and acknowledged to the end with the ACKs still on their way, one reconnect stops the stream for good under every interleaving, even for a client that takes up the new generation |
| Reconnects.WithoutItTheBridgeRecovers | reference/bridge/main.c:754-765 | Without the reconnect, before 2^64 records, the bridge alone empties that ring |
| Reconnects.OnlyAcksMissingIsReachable | reference/bridge/main.c:818-831 | For every capacity a run from the initial mapping reaches such a state |
| SharedMapping.Mapping.ReadSnapshot | src/common.c:236-260 | Against a producer and bridge free to act between any two accesses: returns exactly the unread history up to the head it loaded (or as much as fits), touches nothing else, and fails exactly at a 2^64 lap, changing nothing |
| SharedMapping.Mapping.CopySlots | src/common.c:256-257 | Copied slot by slot against a running producer, every copied record is history |
| SharedMapping.Mapping.CopyUnpinned | src/policy.c:95-98 | Copied eight bytes at a time with the producer acting in between: no mixture when the position is unacknowledged or less than a capacity was begun since; a whole copy is what the slot held |
| SharedMapping.Mapping.RingDepth | include/hfior/abi.h:157-161 | With another thread of the client acknowledging meanwhile: the depth is the true one, within the capacity, when the acknowledged tail or just the shared tail has not passed the loaded head, and otherwise exceeds the capacity |
| Policy.Cursor.constructor | src/policy.c:7-28 | The cursor starts, already acknowledged, at the shared tail or at a head no older than the call |
| Policy.Cursor.Drain | src/policy.c:30-38 | A drain advances the cursor by exactly what it copied; a failed one changes nothing |
| Policy.Cursor.Ack | src/policy.c:40-58 | Sends the local tail unless already acknowledged; a failed send changes nothing |
| Policy.Cursor.StableLatch | src/policy.c:60-81 | With the producer free to publish at any point: appends exactly history[old tail .. new tail], takes at most max_passes snapshots, each loading the head at most twice, and at most max_records records, makes a further pass only when the head has moved past the cursor, never acknowledges, includes everything published before the call unless the buffer filled, and on an early stop the cursor is at the head it last observed; it fails exactly on zero passes or at a 2^64 lap, so never before 2^64 records, and even then the buffer holds what the cursor moved past |
| Policy.Cursor.LatestCommitted | src/policy.c:83-100 | Succeeds exactly when the head word is not 0, no multiple of 2^64 lies between the loaded positions and the copied slot carries a number; so always before 2^64 attempts when the record is unacknowledged or less than a capacity was begun since, and then the record is the one before the loaded head; a copy that is no mixture, of a slot not being written, is that record exactly when less than a capacity was published since |
| Overwrites.OverwritableExactly | src/policy.c:83-100 | Before 2^64, with ACKs settled and of the current generation: some continuation of bridge and producer leaves a later numbered record in the slot of the latest one, both loaded words having passed the tests, if and only if everything is acknowledged |
| Overwrites.CanBeOverwritten | src/policy.c:83-100 | The continuation, from any such state: work off the ACKs, finish the publication under way, fill the ring |
| Overwrites.OverwriteIsReachable | src/policy.c:98-99 | For every capacity a run from the initial mapping to such an overwrite, on which a copy whose first word was taken before and the rest after is numbered and is no record ever published |
| Accounting.SequenceStats.AccountSequences | reference/latency-client/main.c:575-601 | The batch loop computes the specified tally and the terminal flag |
| Accounting.BatchesDoNotMatter | reference/latency-client/main.c:575-601 | Splitting a stream in two changes no counter |
| Accounting.AnyBatching | reference/latency-client/main.c:575-601 | Nor does any split into any number of batches |
| Accounting.FirstAndLast | reference/latency-client/main.c:581-594 | The counters hold the first nonzero number and the highest number seen |
| Accounting.SpanIsAccounted | reference/latency-client/main.c:575-601 | For every list of numbers, of any length, with the wrapping counters: span + duplicates + excess and numbered records + gaps are equal modulo 2^64 |
| Accounting.ConservationExactly | reference/latency-client/main.c:583-594 | Modulo 2^64 the law without the excess holds if and only if the numbers after 2^64 - 1, each plus one, sum to a multiple of 2^64 |
| Accounting.NoExcessBelowMax | reference/latency-client/main.c:583-594 | The excess is zero while no number reaches 2^64 - 1 |
| Accounting.PlainConservation | reference/latency-client/main.c:575-601 | Below 2^64 - 1 and for fewer than 2^64 records, over the integers: (last - first + 1) + duplicates = numbered records + gaps, with last at most the largest number allowed, gaps at most last and duplicates below the number of records, so no counter wraps |
| Accounting.DuplicatesAreLate | reference/latency-client/main.c:583-594 | Below 2^64 - 1, duplicate_or_reordered is the number of numbered records whose number an earlier record had already reached |
| Accounting.TerminalsAreFlagged | reference/latency-client/main.c:595-599 | terminal_records is the number of numbered records with the terminate flag, modulo 2^64 |
| Accounting.SeenIsFlagged | reference/latency-client/main.c:595-599 | terminal_seen is set exactly by a numbered record with that flag |
| Accounting.ConservationFailsAtTheTop | reference/latency-client/main.c:584-591 | Number 1 after number 2^64 - 1 breaks it |
| Accounting.GapsAreLosses | reference/latency-client/main.c:583-591 | On an in-order stream nothing counts as reordered and gaps equal the losses strictly between first and last |
| ClientThreads.EverySchedule | reference/latency-client/main.c:632-675 | Under every schedule of both threads, producer and bridge: with the mutex free, taken followed by pending is history from the start to the local tail once and in order, ring_records is its length and the tally is of exactly it; at no moment does an ACK cover a record not yet queued or taken; a thread that locked to acknowledge leaves everything read acknowledged |
| ClientThreads.EveryScheduleKeeps | reference/latency-client/main.c:771-779 | The invariant behind it survives every schedule, with loads, slot copies, accounting, queueing and acknowledging as separate steps |
| ClientThreads.NobodyElseAcknowledges | reference/latency-client/main.c:671-672 | On a schedule on which no thread locks in order to acknowledge, the acknowledged tail stands still |
| ClientThreads.FrameMissesNothing | reference/latency-client/main.c:815-823 | From the moment the frame thread takes the mutex to drain, under every schedule: once it has let go, taking the queue leaves it with every record published before that moment, in order, even in the middle of an urgent drain |
| ClientThreads.GapsAreExactlyTheDrops | reference/latency-client/main.c:583-591 | Across producer and client: sequence_gaps equals the producer's drops strictly between the first and last record received, and duplicate_or_reordered is 0 |
| ClientThreads.EveryGapIsADrop | reference/latency-client/main.c:583-591 | The same after any schedule from a fresh attach |
| RecordQueue.Queue.Reserve | reference/latency-client/main.c:402-418 | Growing keeps the contents and takes the first doubling, from the old capacity or 4096, to reach the wanted size; it gives up only when doubling would leave size_t |
| RecordQueue.Queue.Push | reference/latency-client/main.c:420-430 | Appends exactly the given records, or changes nothing |
| RecordQueue.Queue.TakeAll | reference/latency-client/main.c:432-446 | Hands over all queued records in order and leaves the queue empty |
| LatencyClient.Client.SendAckIfNeeded | reference/latency-client/main.c:553-566 | Afterwards everything read is acknowledged, by at most one message |
| LatencyClient.Client.DrainLoop | reference/latency-client/main.c:639-670 | Terminates against any producer, by the measure acknowledged tail + capacity - local tail |
| LatencyClient.Client.DrainRing | reference/latency-client/main.c:632-676 | Reads at most capacity records in at most capacity/4096 + 1 snapshots, counted as loads of the head; queues all of them in order and tallied, or when shadowing only counts them, among them everything published before the call; dies only at a 2^64 lap or an exhausted queue |
| FramePolicy.FrameThread.RunFrame | reference/latency-client/main.c:890-1014 | For every ring-reading policy, check count and ACK placement, with the urgent thread draining and acknowledging between any two actions: the frame performs exactly the written-out schedule of drains, takes and ACKs; every take uses everything published before any drain ahead of it was called; total is what the first take left used and late what later takes added; used and still queued records are those queued at the start followed by exactly the history moved past; summary, tally, checks and actions are of exactly these; unless placement is after the frame, everything published before it is acknowledged, and everything read too unless the urgent thread is in the middle of a drain. With the urgent thread silent nothing stays queued and a post-frame placement has acknowledged nothing. It dies only at a 2^64 lap or with nearly 2^63 records queued |
| FramePolicy.ScheduleCounts | reference/latency-client/main.c:890-1014 | The schedule drains as often as the frame makes checks; it takes once, twice in two stages, and in the late-latch policy once before the final latch and once after each of its drains |
| FramePolicy.FrameThread.FinalLatch | reference/latency-client/main.c:962-975 | The final latch drains and takes, then rechecks by drain and take, critical placement acknowledging in the first drain and the last recheck; whatever the urgent thread does, the late records are those taken since the latch began and all records published before it are used |
| FramePolicy.FrameThread.Take | reference/latency-client/main.c:815-823 | Even in the middle of an urgent drain, a take leaves the queue empty and everything read before it used |
| FramePolicy.FrameThread.Urgent | reference/latency-client/main.c:771-779 | However long the urgent thread acts, used and queued records stay the frame's history in order, the acknowledged tail never moves back, and records all acknowledged stay so unless it is in the middle of a drain |
| Freshness.SummarizeRecords | reference/latency-client/main.c:798-813 | The loop computes the specified summary |
| Freshness.SummaryIsExtreme | reference/latency-client/main.c:798-813 | In any order: no record has a later time than newest, or its time and a higher number, or an earlier time than oldest; both are attained; the button count grows by the records flagged button |
| Freshness.TakesCompose | reference/latency-client/main.c:815-823 | Taking the queue in several batches gives the summary of taking it in one |
| FrameAssembler.OneRecordPerReport | reference/bridge/main.c:527-533 | A stream yields one record per SYN_REPORT |
| FrameAssembler.EmissionButtons | reference/bridge/main.c:461-463 | Buttons survive frame ends: a record carries the bitmap of all key events of the stream so far |
| FrameAssembler.BitIsLastWriter | reference/bridge/main.c:516-523 | Each known button's bit equals the last key value seen for it, or its initial bit |
| FrameAssembler.FlagsAreExact | reference/bridge/main.c:455-458 | Flag 1 holds exactly when dx or dy is nonzero, 4 exactly when a wheel value is, 2 exactly when an event of the frame changed the bitmap, 8 exactly when the frame saw a drop; clamping never hides motion |
| FrameAssembler.QuietRecordsRepeatButtons | reference/bridge/main.c:516-526 | A record without BUTTON repeats the previous record's bitmap |
| FrameAssembler.LastRecordButtons | reference/bridge/main.c:461-463 | Between reports the carried bitmap is that of the last record |
| FrameAssembler.MotionIgnoresOrder | reference/bridge/main.c:481-515 | Motion and scroll of a record do not depend on event order; high-resolution scrolling overrides low-resolution on either side of it |
| FrameAssembler.SumFitsInt64 | reference/bridge/main.c:483-511 | Accumulators stay in signed 64 bits for frames of fewer than 2^32 events |
| FrameMeaning.RecordIsRunningTotals | reference/bridge/main.c:448-451 | Over the events alone: dx and dy are the running totals of relative codes 0 and 1 held to 32 bits; each wheel is, held to 16 bits, the total of codes 11 and 12 in a frame that has any, else of codes 8 and 6 |
| FrameMeaning.OneMoreMotion | reference/bridge/main.c:483-488 | One more event of code 0 adds its value to dx alone, of code 1 to dy alone, and no other event changes either, up to the bounds |
| FrameMeaning.OneMoreScroll | reference/bridge/main.c:489-512 | A low-resolution event adds to its wheel only in a frame without high-resolution ones; the first high-resolution event replaces what was there, later ones add |
| FrameMeaning.EmptyFrame | reference/bridge/main.c:462-463 | A frame without events yields no motion, the buttons it found and no flag |
| FrameMeaning.ButtonBits | src/common.c:381-399 | Bit 0 is code 0x110, the next seven codes have the next bits, 0x108 and 0x109 have bits 8 and 9, no other code has one |
| FrameMeaning.EmissionTime | reference/bridge/main.c:447 | A record carries its report's own time, or the clock if it has none |
| Bridge.Accumulator.Relative | reference/bridge/main.c:481-515 | The step-by-step sums and wheel override equal the order-independent specification of the open frame |
| Bridge.Accumulator.Key | reference/bridge/main.c:516-526 | Bitmap and sticky BUTTON flag equal the specification of the open frame |
| Bridge.Accumulator.Complete | reference/bridge/main.c:445-463 | The emitted record is the specified one for the closed frame, and the next frame starts with its bitmap |
| Bridge.BridgeState.ProcessInputEvent | reference/bridge/main.c:474-534 | After any event stream, the records handed to the ring are exactly the specified ones, numbered 1, 2, 3, ...; a report adds one, stored exactly when the ring has room |
| Bridge.BridgeState.PublishRecord | reference/bridge/main.c:404-435 | Numbers the record whether or not it fits, publishes it exactly when there is room, and keeps attempted = published + dropped, the statistics line the counts of flags over history, and the wake-ups the number of urgent records published plus drops plus rejected ACKs |
| Bridge.UrgentMeans | reference/bridge/main.c:428-430 | Urgent are exactly the records flagged 2, 8, 16 or 64 |
| Bridge.BridgeState.HandleAck | reference/bridge/main.c:741-766 | On the mutable bridge: accepts exactly current-generation tails between the tail and head words, moves the tail to exactly that word, and otherwise changes only the rejection count and wakes the client |
| GameClient.Client.Read | benchmarks/game/hfior_wayland_client.c:318-394 | All or nothing: a success consumes exactly the history up to the loaded head, with consecutive numbers, its sums, motions that are a 256th of each record's, and no loss before it; a failure leaves cursor and expectation alone, disables the client and names a true cause; a gap is never reported before 2^64 - 1 records |
| GameClient.Client.Consume | benchmarks/game/hfior_wayland_client.c:363-393 | Succeeds exactly if every unread number is the expected next one, and only then commits |
| GameClient.ConsecutiveMeans | benchmarks/game/hfior_wayland_client.c:367-374 | What passes the check: every number nonzero, the first the expected one if one is expected, each later one above the one before it by 1 unless that was the largest |
| GameClient.Client.Acknowledge | benchmarks/game/hfior_wayland_client.c:396-411 | Acknowledges the local tail once; an unflushed display makes the client unusable though the message is queued |
| GameClient.BatchSumIsMotionSum | benchmarks/game/hfior_wayland_client.c:375-386 | The batch sums of dx and dy are the sums of the per-record motions, the count is their number and the newest timestamp that of the last |
| GameClient.MotionsAre | benchmarks/game/hfior_wayland_client.c:378-381 | 256 times a motion's dx and dy are its record's |
| GameClient.SumsFitInt64 | benchmarks/game/hfior_wayland_client.c:358-376 | The sums stay in signed 64 bits for any 32-bit capacity |
| GameClient.ReadsCompose | benchmarks/game/hfior_wayland_client.c:374-393 | Successive successful reads are one read: consecutive numbers, sums and motions carry over |
| GameClient.NoLossNoGap | benchmarks/game/hfior_wayland_client.c:367-373 | With no loss, any stretch of the bridge's history passes the client's check |
| GameClient.NoFalseGap | benchmarks/game/hfior_wayland_client.c:336-347 | A zero drop counter loaded after the head proves no record up to that head follows a loss, so the check cannot fail |
| GameLoop.Game.RunFrame | benchmarks/game/main.cc:948-1031 | Whatever the early/late split, a rendered frame folds every consumed motion into the camera, paying max(1, records) reactions in eager mode and 1 in HFIOR mode; an unrendered or broken-off frame folds the early ones in HFIOR mode only and pays nothing |
| GameLoop.HfiorCamera | benchmarks/game/main.cc:957-962 | After any frames the HFIOR camera is the fold over the whole stream in ring order, for any motion function |
| GameLoop.EagerCamera | benchmarks/game/main.cc:997-1018 | After any frames the eager camera is the fold over the motions of rendered frames |
| GameLoop.SameCamera | benchmarks/game/main.cc:948-1031 | Two runs over one stream, differently split, reach the same camera in both modes when no unrendered frame had read early |
| GameLoop.SameCameraExactly | benchmarks/game/main.cc:975 | For a camera that remembers its motions, the modes agree if and only if no motion was read early in an unrendered frame |
| GameLoop.ZeroSizeFrameLosesMotion | benchmarks/game/main.cc:975 | One such frame on which they differ |
| GameLoop.CameraFollowsHistory | benchmarks/game/main.cc:948-1031 | However reads cut history into frames and halves, both modes fold exactly the published records from first to last position read |
| GameRun.Player.Play | benchmarks/game/main.cc:948-1059 | The frame loop with the validating client, against a running producer: with the cursor's positions between frames as cuts, the camera is the fold over the slices moved past by rendered frames (in HFIOR mode by all frames), the reactions are the sum of the frames' costs over the same cuts, and with no record lost the camera is the fold over exactly history[first position .. last position]. It breaks off only with the client unusable, and never while reads cannot fail and the display takes acknowledgements |
| GameRun.RenderedExactly | benchmarks/game/main.cc:975 | Every record moved past reaches the camera or is lost, and the camera's motions are exactly those of the history moved past if and only if none is lost; HFIOR mode loses none, nor does a run in which every frame is rendered |
| GameRun.CostExactly | benchmarks/game/main.cc:997-1031 | A run pays one reaction a rendered frame in HFIOR mode; in eager mode one a record that reached the camera and one a rendered frame without records |
| GameRun.Player.ReadFrame | benchmarks/game/main.cc:948-989 | The early and late reads of a frame together are exactly the stretch of history the cursor moved over, so reads are successive slices |
| GameRun.Player.PlayFrame | benchmarks/game/main.cc:948-1059 | One frame folds what its reads moved past, pays its reactions, and acknowledges it if rendered; it breaks off exactly if the early read failed while measuring, the late read failed in a rendered frame, or an acknowledgement was due and the flush failed |
| GameLoop.CameraStaysInRange | benchmarks/game/main.cc:258-267 | Pitch stays clamped, and yaw within half a turn either way while no motion exceeds a full turn |
| GameLoop.OneMotion | benchmarks/game/main.cc:258-267 | One motion turns yaw by dx and pitch against dy, 0.0015 a count; past half a turn yaw goes on from the other side, pitch stops at 1.45 either way |
| GameLoop.SumIsNotEnough | benchmarks/game/main.cc:260-261 | Clamping makes order matter: two motions of zero sum move the camera |
| Percentiles.SortIsSort | src/common.c:71 | Sorting orders the values and keeps their multiset |
| Percentiles.SortedIsUnique | src/common.c:71 | Any two sorted arrangements of a multiset are equal, so the sort algorithm does not matter |
| Percentiles.PercentileNs | src/common.c:62-78 | The in-place function returns the specified percentile and leaves the vector sorted |
| Percentiles.ThreePercentilesAgree | benchmarks/analysis/analyze.py:47-52 | The C, C++ and Python percentiles agree on every list and every percentile from 0 to 100 |
| Percentiles.PercentileMonotone | src/common.c:66-77 | The percentile never falls as the argument grows |
| Percentiles.PercentileBounds | src/common.c:72-77 | Every percentile lies between any bounds on the values |
| PercentileMeaning.OrderStatistic | src/common.c:71 | The k-th sorted value is one of the values, with at most k below it and at most n - 1 - k above it |
| PercentileMeaning.PercentileInterpolates | src/common.c:72-77 | At 100 (k + t) / (n - 1) the percentile is the k-th sorted value at t = 0, the next at t = 1, and runs straight between |
| PercentileMeaning.ExtremePercentiles | src/common.c:66-77 | 0 and below is the least value, 100 and above the greatest; a single value is every percentile |
| Percentiles.WorstFractionMeanNs | src/common.c:80-96 | The in-place function returns the mean of the greatest values counted by the fraction |
| Percentiles.WorstFractionLaws | src/common.c:80-96 | The worst-fraction mean never grows with a positive fraction and is never below the mean |
| PercentileMeaning.WorstFractionIsBest | src/common.c:88-95 | With k - 1 < fraction n <= k, k times the mean is the greatest sum that any k of the values have |
| PercentileMeaning.WorstFractionEnds | src/common.c:83-86 | A fraction of 0 or less gives the greatest value, of 1 or more the mean |
| Percentiles.LowFpsIsWorstFraction | benchmarks/game/main.cc:589-600 | The C++ low frame rate is the inverse of the C worst-fraction mean |
| PercentileMeaning.LowFpsIsInverse | benchmarks/game/main.cc:589-600 | The low frame rate times the worst-fraction mean is a thousand million, and 0 for a mean of 0 |
| Pareto.Frontier | benchmarks/analysis/analyze.py:234-241 | The nested loops mark exactly the undominated candidates |
| Pareto.RejectedIsDominatedByFrontier | benchmarks/analysis/analyze.py:234-241 | Every rejected candidate is dominated by one that stays on the frontier |
| Pareto.FrontierLaws | benchmarks/analysis/analyze.py:234-241 | A nonempty list has a nonempty frontier, no member of it is dominated, every rejected candidate is dominated by a member |
| Pareto.RejectedAreRedundant | benchmarks/analysis/analyze.py:234-241 | Removing a rejected candidate never changes who else is on the frontier |
| Pareto.CheapestIsOnFrontier | benchmarks/analysis/analyze.py:238-241 | Less is better: a candidate of least total price, for any positive prices of the four measures, is on the frontier |
| Pareto.WorseIsRejected | benchmarks/analysis/analyze.py:239-241 | A different candidate that is no better in any measure is not |
| Regression.NormalEquations | benchmarks/analysis/model_scaling.py:8-12 | At the fit the residues sum to zero and are uncorrelated with x |
| Regression.OtherLine | benchmarks/analysis/model_scaling.py:13-14 | The residuals of any other line are those of this one plus the spread between the lines, up to sum and tilt of the residues |
| Regression.FitMinimises | benchmarks/analysis/model_scaling.py:8-15 | No line has a smaller sum of squared residuals, for any nonempty data, all-equal x included |
| Regression.RSquaredInUnitInterval | benchmarks/analysis/model_scaling.py:14-15 | The coefficient of determination lies in [0, 1] |
| Regression.RSquaredIsExplained | benchmarks/analysis/model_scaling.py:14-15 | r^2 times the squared deviations of y is the part the line explains; unless y is constant it is 1 exactly when the line leaves nothing |
| Regression.EqualXs | benchmarks/analysis/model_scaling.py:10-12 | For all-equal x the slope is 0 and the line is the mean of y |

## Left out

- ClientThreads.EverySchedule: a rejected snapshot leaves the drain where it is, where the original ends the process, so the statement covers every state before that.
- FramePolicy.FrameThread.RunFrame: the urgent thread acts between actions of the frame thread and between batches of its own drains; a take between the snapshot and the push of one batch, which has the effect of a take before it, is covered step by step by ClientThreads.FrameMissesNothing. The eager policy's branch is not part of it.
- HeadStart.HeadAttachRecoversExactly: for runs below 2^64 records, because past that the word comparisons reject whatever the ring holds (Reclamation.AckAcceptedExactly).
- Consumer.ReachableStates: a slot is copied in one step, because every slot the snapshot copies is pinned and so does not change between the bytes; the unpinned copy of Policy.Cursor.LatestCommitted takes four.
- Reconnects.ReconnectEndsReclamation: the game client is told a generation only when its stream is activated; a second activation is not modelled.
- Overwrites.OverwritableExactly: for runs below 2^64 attempted records; past that the word comparisons reject.
- GameRun.Player.Play: reconnecting and the window's own events are not part of the loop, and nothing is claimed of a frame that breaks it off.
- LatencyClient.Client.SendAckIfNeeded: a failed send ends the original process; only sent messages are modelled.
- LatencyClient.Client.DrainRing: button ages and the receipt log are not kept; a failed allocation is not modelled.
- GameLoop.CameraStaysInRange: doubles are reals, here and in Percentiles and Regression; rounding is not modelled.
- Percentiles.PercentileNs: the library sort is modelled by its result; Python's filtering of missing and infinite values is taken as done before the call.
- Bridge.BridgeState.ProcessInputEvent: accumulators are unbounded, within signed 64 bits as long as a frame has fewer than 2^32 events (FrameAssembler.SumFitsInt64).
- Null-pointer and magic-number checks that return EINVAL.
- Sockets, descriptor passing, memory mapping and sealing, eventfd, timers, polling, signals: only the first-in-first-out ACK channel remains, and a send may fail where the original goes on.
- Memory orders beyond interleaving: each access is one step, slot writes may be torn, and loaded heads and tails may be stale, but no reordering within a thread is modelled.
- Timestamps are opaque values; heartbeats, ages, latencies and busy work are not modelled.
- Generation numbers and the counters private to one process are unbounded.
- Rereading the button state from a newly opened device: it appears only as the initial bitmap. A reconnect appears as a new generation.
- The eager socket path, the start barrier, the synthetic source, the shadow stream's validation, CSV and JSON output, plotting.
- Wayland object lifecycle, SDL, OpenGL, culling and the reaction graph: foreign calls and floating-point graphics.
- hfior_max_ns and hfior_mean_ns as loops: easy members.
