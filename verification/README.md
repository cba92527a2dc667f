# Verified model of sensorfw

sensorfw is a sensor daemon. Clients open sessions for sensors; their requests
for intervals, data ranges and standby overrides travel through a graph of
nodes (adaptor, chain, sensor), and samples flow back through ring buffers,
filters, a downsampler and a framed socket. This project models the stateful
parts of the daemon and of its client library in Dafny and proves what they
keep over whole runs. Check it with `dafny verify dfyconfig.toml`.

| file | models | main results |
|---|---|---|
| `Loader.dfy` | plugin loader | the recursive load with in-place invalidation computes the least fixpoint of the dependency rules |
| `Counters.dfy`, `RingBuffer.dfy`, `DataEmitter.dfy`, `Dataflow.dfy`, `Chain.dfy` | ring buffer, readers, sources, chains | the buffer refines an unbounded log over the 32-bit counter wrap; runs of writes and chains of nested writes, on values and on objects, are lossless |
| `Intervals.dfy`, `DataRanges.dfy`, `NodeGraph.dfy` | request arbitration | nearest valid interval, fastest request wins, first come first served ranges, all-or-nothing overrides over a DAG, removal of a session |
| `HybrisManager.dfy`, `HybrisFaults.dfy`, `HybrisDelivery.dfy`, `HybrisCommands.dfy`, `HybrisControl.dfy` | sensor control on a Hybris backend | record and hardware agree whenever no event is under way, unless a harmful batch was dropped; the wake-up group is switched as one; every event is shown once, every wake-up as one of the primary; running sensors run at their recorded rates |
| `AdaptorPolicy.dfy`, `SysfsAdaptor.dfy` | adaptors in standby | when a sensor runs, and exactly when it runs against its policy; no file is leaked or closed twice |
| `Framing.dfy`, `SessionWriter.dfy`, `SocketReader.dfy` | session socket | the reader gets back what was offered, in order, exactly if no frame is oversize and no copy leaves its 32-bit allocation; exactly when a read takes too much |
| `Downsampler.dfy` | sensor channel | over any run every session has received the means of exactly its windows, also after a change of the window |
| `SessionRegistry.dfy`, `Channels.dfy`, `Daemon.dfy` | session lifecycle | session ids are never reused; a client that leaves is forgotten, and what it requested through its sensors is withdrawn at all nodes, nothing else; exactly what can be left; exactly when a run crashes |
| `TapRecogniser.dfy` | double tap recogniser | taps emitted and pending are the greedy merge of the taps received |
| `Lists.dfy`, `Sessions.dfy` | - | optional values, removal from lists, the type of session ids |

Code that changes objects step by step is a class with methods. Each method is
proved against a transition on values (`State()` or `Abs()` is that value), and
the theorems over runs are lemmas about the transitions. Contracts that speak
about one object only, such as those of `Loader`, `RingBuffer` and `Node`, say
directly what is true afterwards.

## Assumptions

- The backend of the Hybris manager answers each single call with success or an
  error (`Faults`), and batches of events may be dropped on their way to the main
  thread. `RunStaysHonest` allows both at any time. The results on synchrony and
  rates assume no errors; rates allow all drops, synchrony the harmless ones
  (`DropKeepsSyncIff`). A sensor fires only while it runs, one-shot sensors stop by
  firing, and secondaries of the wake-up group are driven only through their primary.
- Nodes are created over existing nodes and their edges stay, so the graph is
  acyclic by construction; interval and range sources are among the sources.
  A device takes the interval and the data range that it is given.
- In whole runs of a session its socket takes what is written, and an allocation of a
  size that is not negative succeeds. Counts on
  the wire are little-endian 32-bit numbers. A session has one sample size.
- Clocks, timers and threads are steps that may happen at any time; only
  `TimedRunMerges` assumes that a timer that is due fires before later taps are read. Timestamps
  and counters wrap as their unsigned types do; session ids, interval requests,
  buffer intervals and reference counts are taken as unbounded.
- The intervals of a run of a channel stay as they are (`RunXyz`, `RunField`); they
  may change between runs, which start with any buffers.

## Where the code does not do what it promises

- `NodeBase::standbyOverride` is false whatever was requested
  (`QueryIsAlwaysFalse`); the override that counts is the one stored at the leaves.
- An override that is withdrawn from a sensor already in standby leaves it
  running (`AgainstPolicyIff`, `AgainstPolicyHappens`).
- The reference count of a `SysfsAdaptor` drifts with every standby that is taken
  while its entry is running (`ReferencesDrift`). So a stop is forgotten, by the next
  resume, exactly in standby or with references left (`StopIsForgottenIff`,
  `RunsForNobody`), and a stop silences listeners that remain exactly if there are
  not more of them than such standbys and one (`StopSilencesIff`, `SilencesAnother`).
- The event of a one-shot Hybris sensor that was stopped and started again before
  the event is processed stops the sensor (`StaleEventStops`; `ProcessStopsIff`
  says exactly when processing stops hardware). A dropped batch does harm exactly if it
  holds the last announcement of a sensor recorded active but idle
  (`DropKeepsSyncIff`, `DroppedEventDesyncs`), and then a start reports success and
  leaves the hardware off (`StartLeavesOffIff`).
- The trimming loop of the downsampler skips a sample after every erasure. It
  is right exactly if at most one sample has to go (`TrimIsIdealIff`), which a
  constant window and steady timestamps ensure (`FeedSlides`). After a window has
  shrunk the next output is that of the last samples exactly if one sample had to
  go (`ShrunkWindowIsRightIff`).
- `SocketReader::read` asks for the full size again after a partial read and
  may take bytes of the next frame (`OvershootsIff`). The typed read is
  documented to append, but it writes to the start of the vector, which is the
  same exactly for an empty vector (`AppendsIff`); the callers in qt-api all pass an
  empty one.
- Sessions may ask for buffers of more than 1000 samples, whose frames the
  reader rejects (`ReadsFrameIff`). The size of a buffer is computed as a 32-bit
  product, so it is too small, or negative, exactly if the bytes and the count do not
  stay below 2^31 (`AllocatesIff`, `CopiesFitIff`); the bus passes such sizes on,
  as 178956971 samples of 24 bytes (`OverrunHappens`). A session conserves its
  samples exactly if no operation flushes more than 1000 and no copy leaves its
  allocation (`SessionConservesSamplesIff`); for a client that fills its buffers that
  is a condition on the size it asks for (`FillingConservesIff`, `BigBufferLoses`).
- Samples that were offered before a buffer interval was set stay pending without a
  timer (`TimerRunsIff`, `TimerForgotten`).
- `SocketHandler::setDownsampling` sets the buffer interval and not the
  downsampling flag, so it works exactly if the flag was right before
  (`SetDownsamplingWorksIff`) and never switches it on (`DownsamplingStaysOff`);
  it starts or spares the flush timer instead (`SetDownsamplingSetsTimer`).
  `SocketHandler::downsampling` answers with the buffer size
  (`SaysDownsamplingIff`). Nothing in the repository calls these two: the bus
  request goes to the node (core/abstractsensor_a.cpp:244-247).
- A release under the name of a registered sensor whose channel was never created,
  because nobody has requested it or its creation failed, uses the missing channel. A
  run ends so exactly if it holds such a release (`RunCrashesIff`), which one client
  can bring about (`CrashHappens`, `FailedCreationCrashes`).
- A release does not stop its session: the channel runs on for one that was
  started, until it is stopped, whatever else happens (`ReleaseLeavesRunningIff`,
  `RunsOnUnlessStopped`, `RunsOnHappens`).
- The departure of a client withdraws only what its sessions requested through the
  sensors that held them. The bus takes a range for any session at any sensor, and one
  that was queued at a node which the session's sensor reaches, but does not take its
  ranges from, outlives the client (`ClearIff`, `RangeOutlivesClient`).
- A release that names the wrong sensor erases the registration of a session
  that stays held (`ReleaseStrandsIff`); such a session is not found when its
  client leaves and stays until its socket is lost or the daemon itself releases it
  (`StrandedStaysIff`, `StrandingHappens`).
- `setTapType` clears the pending taps but lets the timer run
  (`SelectIsSafeIff`, `SelectWhileWaiting`).
- A callback that looks at the first value of a block only, as that of the
  coordinate alignment filter does, is right only behind readers with chunk size 1
  (`FirstOnlyNeedsUnitChunks`); it sits behind such a reader
  (chains/accelerometerchain/accelerometerchain.cpp:52).
- A ring buffer whose size does not divide the counter range loses values when the
  counters wrap (`LosesNothingIff`), and a reader that lags by the whole range
  or more misses that many values unnoticed (`ResumedKeepsCounter`). The sizes in the
  repository are powers of two from 1 to 128, which divide it.

## Model

| member | source | states |
|---|---|---|
| `PluginLoader.ResolvesIff` | core/loader.cpp:238-247 | a name with an alias that is not empty stands for that name, once, and any other for itself |
| `PluginLoader.LoadableIsFixpoint` | core/loader.cpp:76-125 | a plugin is loadable exactly when it is available, its file yields a plugin, and every resolved dependency is loadable |
| `PluginLoader.LoadableIsLeast` | core/loader.cpp:76-125 | the loadable plugins are contained in every set closed under that rule: they are its least fixpoint |
| `PluginLoader.LoadableNeeds` | core/loader.cpp:104-113 | everything that a loadable plugin transitively needs is loadable |
| `PluginLoader.CyclesAreRejected` | core/loader.cpp:88-92 | a plugin that needs a plugin on a dependency cycle is never loadable |
| `PluginLoader.PathNeeds` | core/loader.cpp:88-89 | the pending stack is a dependency path: each of its plugins needs the one about to be loaded |
| `PluginLoader.TopologicalAppend` | core/loader.cpp:114-118 | appending a plugin behind its dependencies keeps the loaded list free of duplicates and in dependency order |
| `PluginLoader.LoadedNeeds` | core/loader.cpp:104-118 | a list in dependency order contains everything that its members need |
| `PluginLoader.RemoveAllIsWithout` | core/loader.cpp:231-236 | invalidating a name strikes all its occurrences and keeps the order of the others |
| `PluginLoader.Loader.constructor` | core/loader.cpp:180-208 | a loader starts with the scanned names available and nothing loaded |
| `PluginLoader.Loader.InvalidatePlugin` | core/loader.cpp:231-236 | only names that can never load are struck from the available ones |
| `PluginLoader.Loader.LoadPluginFile` | core/loader.cpp:76-125 | returns true exactly for loadable plugins, terminates, gives the stack back as it was, appends only needed plugins in dependency order, strikes nothing on success, and on failure names a real obstacle |
| `PluginLoader.Loader.LoadDependencies` | core/loader.cpp:104-119 | stops at the first dependency that fails, and succeeds exactly if the plugin is loadable; then all dependencies are loaded |
| `PluginLoader.Loader.LoadPlugin` | core/loader.cpp:127-135 | for any sequence of calls: true exactly for loadable plugins, then exactly what is needed was added; a name that was loaded or struck before changes nothing |
| `Counters.ModuloIsRemainder` | core/ringbuffer.h:183 | the reduction used for counters and slots is the remainder |
| `Counters.WrapKeepsSlot` | core/ringbuffer.h:183-197 | a free-running counter picks the same slot before and after its wrap if the size divides the counter range |
| `Counters.WrapIsSafeIff` | core/ringbuffer.h:183-197 | that holds for all counts exactly if the size divides the counter range |
| `Counters.ResumedKeepsCounter` | core/ringbuffer.h:176-189 | a reader that lags by the counter range or more has the counter of one that lags by the remainder, so it resumes there |
| `Counters.ReadableIff` | core/ringbuffer.h:195-198 | a log index is still readable exactly while no later one falls into its slot, for every size and range |
| `Counters.EvenlyReadableIff` | core/ringbuffer.h:195-198 | before the counters wrap, or with a size that divides their range, that is exactly while at most the buffer size of values follow from it on |
| `Counters.LosesNothingIff` | core/ringbuffer.h:183-197 | a ring keeps its last `size` values readable for ever exactly if its size divides the counter range |
| `RingBuffers.DeliveredIsSuffix` | core/ringbuffer.h:176-189 | while slots go round evenly, a reader whose lag is at most the buffer size gets the next log values, in order, once each |
| `RingBuffers.DeliveryIsExactIff` | core/ringbuffer.h:176-189 | while slots go round evenly, reads hand out the pending log entries themselves exactly if the lag is at most the buffer size |
| `RingBuffers.FlattenChunks` | core/bufferreader.h:69-75 | cutting into chunks of any positive size loses nothing, and no chunk is empty or too long |
| `RingBuffers.CommitRefines` | core/ringbuffer.h:195-206 | storing a value into the next slot keeps every slot at the latest log value that falls into it, also over a wrap that the size does not divide |
| `RingBuffers.CountersMeet` | core/ringbuffer.h:181 | equal counters mean that the unread distance is 0 modulo the counter range, and every read takes one off it |
| `RingBuffers.BufferReader.JoinSink` | core/source.h:107-116 | a joined sink receives later calls; joining twice is joining once |
| `RingBuffers.BufferReader.UnjoinSink` | core/source.h:118-127 | an unjoined sink is out of the set; what it received stays |
| `RingBuffers.BufferReader.Propagate` | core/source.h:100-105 | exactly the joined sinks receive exactly one call with the block |
| `RingBuffers.BufferReader.PushNewData` | core/bufferreader.h:69-75 | the drain loop terminates, leaves nothing unread, and every joined sink receives the delivered values cut into chunks, from where the counter says, whatever the lag |
| `RingBuffers.RingBuffer.constructor` | core/ringbuffer.h:151-158 | a new buffer refines the empty log, with 32-bit counters |
| `RingBuffers.RingBuffer.Fetch` | core/ringbuffer.h:183 | a read returns the latest log value of the slot under the reader's counter and advances the reader by one |
| `RingBuffers.RingBuffer.Read` | core/ringbuffer.h:176-189 | reads as many values as asked for or as the counters show unread, each the latest of its slot, and keeps the reader tracked over the counter wrap |
| `RingBuffers.RingBuffer.Commit` | core/ringbuffer.h:195-206 | one committed value extends the log by it, also over any counter wrap |
| `RingBuffers.RingBuffer.JoinReader` | core/ringbuffer.h:243-258 | a joining reader starts at the end of the log |
| `RingBuffers.RingBuffer.UnjoinReader` | core/ringbuffer.h:265-275 | an unjoined reader is out of the set; the others stay wired |
| `RingBuffers.RingBuffer.WakeUpReaders` | core/ringbuffer.h:211-217 | every joined reader, however far behind, drains what its counter shows as pending into its own sinks, and no reader affects another |
| `RingBuffers.RingBuffer.Write` | core/ringbuffer.h:225-234 | the log grows by the written values in order, and every joined reader has then handed on what its counter showed as pending, for any lag and any wrap |
| `DataEmitters.DataEmitter.PushNewData` | core/dataemitter.h:66-74 | the nested drain terminates and emits the delivered values one by one, in order, from where the counter says, whatever the lag |
| `DataEmitters.DataEmitter.Drain` | core/dataemitter.h:66-74 | chunk after chunk, what has been emitted is exactly the delivered values up to the position read |
| `DataEmitters.EmittingIsLossless` | core/dataemitter.h:66-74 | an emitter emits exactly what a chunked reader hands on joined together; within the buffer size, while slots go round evenly, that is the unread log |
| `Dataflow.DrainIsLossless` | core/bufferreader.h:69-75 | while slots go round evenly, a drain with a lag of at most the buffer size hands on exactly the unread log, for every positive chunk size |
| `Dataflow.RunIsLossless` | core/ringbuffer.h:225-234 | over any run of writes of at most the buffer size the blocks handed on, joined together, are exactly what was written |
| `Dataflow.WriteEach` | core/ringbuffer.h:225-234 | over any sequence of writes to a buffer, whatever their sizes, every joined reader stays caught up and its sinks receive exactly the blocks of that run |
| `Dataflow.WriteLosslessly` | core/ringbuffer.h:225-234 | if each write fits the buffer, every sink of every joined reader receives, joined together, exactly what was written |
| `Dataflow.CallsWithinChunk` | core/bufferreader.h:69-75 | no call of a sink has more values than the chunk size, and none is empty |
| `Dataflow.ForwardIsPerItem` | core/source.h:100-105 | forwarding blocks through a filter that works value by value does not depend on how they were cut |
| `Dataflow.FirstStageFirst` | core/source.h:100-105 | when every write runs through the whole chain at once, the first buffer still gets all its writes and the rest of the chain what the first stage makes of them, in that order |
| `Dataflow.NestingDoesNotMatter` | core/source.h:100-105 | running each write through the chain from call to call gives the same blocks as letting each stage finish before the next starts |
| `Dataflow.ChainIsComposition` | core/source.h:100-105 | a chain of buffers, readers and filters, in which every write runs through the chain inside the one before it, delivers the composition of the filters, for every batching and chunking, if no write exceeds its buffer |
| `Chains.Drain` | core/bufferreader.h:69-75 | the reader of a chain's first buffer reads it chunk by chunk, and each filtered chunk runs through the rest of the chain before the next one is read |
| `Chains.Write` | core/ringbuffer.h:225-234 | one write to a chain of buffer, reader and filter objects leaves all readers idle, every buffer with the log, and the end of the chain with the blocks, of the nested write |
| `Chains.WriteEach` | core/ringbuffer.h:225-234 | over any sequence of writes too; if every write fits its buffer and the filters treat values one by one, what leaves the chain is the composition of the filters on what was written |
| `Dataflow.FirstOnlyNeedsUnitChunks` | filters/coordinatealignfilter/coordinatealignfilter.cpp:34-45 | a filter that looks only at the first value of a block is lossless, over all fitting runs, exactly behind a reader with chunk size 1 |
| `Dataflow.NonExpandingFits` | core/bufferreader.h:69-75 | filters that never expand a block keep all writes within the buffers if each buffer takes the chunks before it |
| `Intervals.ValidateIntervalRequest` | core/nodebase.cpp:519-544 | a request is answered by the first range with the least error below 0x7fffffff, clamped to it, and by 0 without such a range or for 0 |
| `Intervals.ValidatedIsValid` | core/nodebase.cpp:519-544 | the answer is 0 or a point of an introduced range |
| `Intervals.ValidIsFixed` | core/nodebase.cpp:519-544 | a request is returned unchanged exactly if it is 0 or a point of a range |
| `Intervals.ValidationIsIdempotent` | core/nodebase.cpp:519-544 | validating twice is validating once |
| `Intervals.ValidatedIsClosest` | core/nodebase.cpp:519-544 | no point of any range is closer to the request than the answer |
| `Intervals.FallsBackIff` | core/nodebase.cpp:519-544 | there is an answer from a range exactly if some range has an error below the bound |
| `Intervals.FirstAnswersTies` | core/nodebase.cpp:519-544 | of two ranges equally near to a request the first one answers |
| `Intervals.ClampIs` | core/nodebase.cpp:519-544 | a request below a range becomes its start, one above it its end, one inside stays |
| `Intervals.EvaluateIntervalRequests` | core/nodebase.cpp:389-408 | the least positive request wins, the lowest session on ties; the default with the highest session if all are 0; -1 without requests |
| `Intervals.WinnerIsUnique` | core/nodebase.cpp:389-408 | these rules determine winner and interval |
| `Intervals.FastestWins` | core/nodebase.cpp:389-408 | nobody who asked for a positive interval gets a longer one, and it is what the lowest of those asked for it; with zeros only it is the default |
| `DataRanges.StepPlaces` | core/nodebase.cpp:116-199 | a request or removal changes the presence of no other session and keeps the sessions in the queue unique |
| `DataRanges.StepAvailable` | core/nodebase.cpp:118-149 | every queued range is an introduced one |
| `DataRanges.RequestChangesRange` | core/nodebase.cpp:124-157 | the range in force changes by a request exactly when the code's test for a change says so |
| `DataRanges.WithdrawChangesRange` | core/nodebase.cpp:163-199 | the range in force changes by a removal exactly if the head of the queue goes and what follows it differs; the code then applies it, and otherwise applies one exactly if the head goes and its successor asks for the same range, other than the default |
| `DataRanges.FirstComeFirstServed` | core/nodebase.cpp:104-199 | after any run the queue holds exactly the sessions with an outstanding request, oldest first, each with the range it asked for last |
| `DataRanges.OldestRules` | core/nodebase.cpp:104-199 | after any run the range in force is what the oldest outstanding session asked for last, and the default without one |
| `NodeGraph.AddRemove` | core/nodebase.cpp:344-375 | storing a request twice is storing it once, and taking it back leaves the other sessions' requests as they were |
| `NodeGraph.Node.constructor` | core/nodebase.cpp:32-41 | a new node over existing ones keeps the graph acyclic and holds no requests; its default interval is validated |
| `NodeGraph.Node.SetStandbyOverride` | core/nodebase.cpp:697-702 | a node that handles overrides follows the request, another refuses and changes nothing |
| `NodeGraph.Node.SetStandbyOverrideRequest` | core/nodebase.cpp:344-375 | true exactly if all reachable leaves accept; then every node below holds the request, otherwise no other node does, also in diamonds; a false request clears it everywhere; other sessions keep theirs; a leaf has its override on exactly while it holds requests |
| `NodeGraph.Node.PassToSources` | core/nodebase.cpp:361-372 | all sources are asked even after a refusal; with a false request each node below is cleared |
| `NodeGraph.Node.PassToSource` | core/nodebase.cpp:361-372 | one more source: what all nodes reached so far hold follows the answers so far, also where sources share nodes; the others are untouched |
| `NodeGraph.Node.QueryIsAlwaysFalse` | core/nodebase.cpp:331-342 | the query for the override state answers false whatever was requested |
| `NodeGraph.Node.RootsAreUpstream` | core/nodebase.cpp:291-296 | delegation ends at a node without a source of its own, reachable through sources |
| `NodeGraph.Node.Reevaluate` | core/nodebase.cpp:304-315 | the node takes the winning interval; only valid intervals reach the device |
| `NodeGraph.Node.SetIntervalRequest` | core/nodebase.cpp:291-323 | the deciding node stores the validated request, and its interval is the winning one |
| `NodeGraph.Node.RemoveIntervalRequest` | core/nodebase.cpp:446-472 | the session is gone from the interval map of every node upstream; nodes that decide their own interval take the winning one or, without requests, keep the one before |
| `NodeGraph.Node.RemoveFromSources` | core/nodebase.cpp:450-452 | every reachable source has withdrawn the request once, even if reached on several ways |
| `NodeGraph.Node.RequestLocalRange` | core/nodebase.cpp:118-157 | the queue changes as the queue rules say, and the applied range is always the one in force; without introduced ranges nothing is queued |
| `NodeGraph.Node.RemoveLocalRange` | core/nodebase.cpp:165-195 | the session leaves the queue, and the applied range is the one in force; without introduced ranges nothing changes |
| `NodeGraph.Node.RequestDataRange` | core/nodebase.cpp:116-160 | a delegated request reaches the deciding node and only that |
| `NodeGraph.Node.RemoveDataRangeRequest` | core/nodebase.cpp:163-199 | a delegated removal reaches the deciding node and only that |
| `NodeGraph.Node.RemoveSession` | core/nodebase.cpp:672-679 | terminates and erases the session from all reachable standby lists and interval maps, from the queue at the range root and from the channel's own buffer maps, and leaves the entries of all other sessions alone |
| `HybrisManager.SecondariesFrame` | core/hybrisadaptor.cpp:824-846 | starting or stopping secondaries changes no stored rate and no event |
| `HybrisManager.RefreshIsNeutral` | core/hybrisadaptor.cpp:762-766 | writing the secondaries' rates again changes none of them |
| `HybrisManager.SetActiveFrame` | core/hybrisadaptor.cpp:812-850 | switching changes activation only: rates, events and deliveries stay |
| `HybrisManager.SetDelayFrame` | core/hybrisadaptor.cpp:750-771 | a rate change stores at most that sensor's rate, surely if it reports success, and leaves activation, events and deliveries alone |
| `HybrisManager.StartSecondariesEffect` | core/hybrisadaptor.cpp:824-830 | starting the secondaries one by one switches all of them on and nothing else |
| `HybrisManager.StopSecondariesEffect` | core/hybrisadaptor.cpp:842-846 | stopping the secondaries one by one switches all of them off and nothing else |
| `HybrisManager.SetActiveEffect` | core/hybrisadaptor.cpp:812-850 | on a reliable backend a switch of a sensor switches exactly its group, in the record and in the hardware |
| `HybrisFaults.RateSuccessIff` | core/hybrisadaptor.cpp:750-771 | a rate change that reports success has the rate, one that fails has changed none; whichever calls fail, a change is a success exactly if the new rate is recorded |
| `HybrisFaults.SwitchSuccessIsReal` | core/hybrisadaptor.cpp:812-850 | whichever calls fail: a successful switch is recorded and, if it changed anything, done; a stop is a success exactly if the sensor is recorded off |
| `HybrisFaults.OthersStay` | core/hybrisadaptor.cpp:824-846 | switching the secondaries leaves every other sensor alone |
| `HybrisManager.SwitchingKeepsSync` | core/hybrisadaptor.cpp:812-850 | switching keeps record and hardware in step up to announced one-shot events, and the wake-up group switched as one |
| `HybrisManager.RateKeepsSync` | core/hybrisadaptor.cpp:750-771 | rate changes keep that |
| `HybrisManager.ProcessKeepsSync` | core/hybrisadaptor.cpp:984-1019 | processing one event keeps it: a one-shot event switches its sensor, or the primary of its group, off in the record |
| `HybrisManager.FiringKeepsSync` | core/hybrisadaptor.cpp:927-962 | a one-shot sensor that fires and switches itself off keeps it, its event being on the way |
| `HybrisManager.StepKeepsSync` | core/hybrisadaptor.cpp:812-1022 | every step of hardware, reader thread and main thread keeps it, and so do the batches that may be dropped |
| `HybrisManager.DropKeepsSyncIff` | core/hybrisadaptor.cpp:948-954 | a dropped batch keeps it exactly if it holds no last announcement of a sensor that is recorded active but idle |
| `HybrisManager.SampleDropsAreHarmless` | core/hybrisadaptor.cpp:948-954 | a batch without events of one-shot sensors may always be dropped |
| `HybrisManager.RunStaysInSync` | core/hybrisadaptor.cpp:812-1022 | so does every run without backend errors in which only harmless batches are dropped: running hardware is recorded active; recorded but idle hardware is one-shot with its event queued; primary and secondaries agree |
| `HybrisManager.DrainedRunAgrees` | core/hybrisadaptor.cpp:812-1022 | after such a run, when no event is on its way, record and hardware agree |
| `HybrisFaults.StartLeavesOffIff` | core/hybrisadaptor.cpp:812-850 | a start that is reported as successful leaves the hardware off exactly if the sensor was recorded active but idle |
| `HybrisFaults.ProcessStopsIff` | core/hybrisadaptor.cpp:984-1019 | processing an event stops running hardware exactly if the event is one-shot, its sensor, or for a secondary the primary, is recorded active, and the hardware is that sensor or a secondary of that primary |
| `HybrisFaults.StaleEventStops` | core/hybrisadaptor.cpp:984-1019 | a one-shot sensor that fires, is stopped and started again before its event is processed is stopped by that event |
| `HybrisFaults.DroppedEventDesyncs` | core/hybrisadaptor.cpp:948-954 | a harmful drop: the only event of a one-shot sensor is dropped, and the sensor stays recorded active though idle, with no event under way |
| `HybrisFaults.RunStaysHonest` | core/hybrisadaptor.cpp:725-1022 | even if any single call to the backend fails, no sensor runs without being recorded active |
| `HybrisFaults.QuirkIsNeutral` | core/hybrisadaptor.cpp:575-600 | the extra start and stop with a forced rate change leaves everything as a plain stop would, rates included |
| `HybrisFaults.StartAndStop` | core/hybrisadaptor.cpp:812-850 | starting and stopping an idle sensor, with its group, gives back the state before |
| `HybrisDelivery.ProcessAllDelivers` | core/hybrisadaptor.cpp:984-1010 | processing delivers exactly what the events are to be shown as, in order |
| `HybrisDelivery.ProcessHandsOn` | core/hybrisadaptor.cpp:984-1010 | an event is handed on as it is, of a one-shot secondary as a wake-up of the primary, of another secondary not at all |
| `HybrisDelivery.ShownAllMeans` | core/hybrisadaptor.cpp:984-1010 | of any events every wake-up of the group is shown as one event of the primary, none carries a secondary's handle, and those of other sensors are shown unchanged and in order |
| `HybrisDelivery.ProcessingCountsWakeUps` | core/hybrisadaptor.cpp:984-1010 | so processing hands on exactly as many events of the primary as the primary and the one-shot secondaries sent |
| `HybrisDelivery.EveryEventIsShownOnce` | core/hybrisadaptor.cpp:927-1022 | in every run each event whose batch is not dropped is shown exactly once, in order: a one-shot event of a secondary as one event of the primary, other secondary events not at all |
| `HybrisDelivery.AllSurvive` | core/hybrisadaptor.cpp:948-954 | without dropped batches these are all the events fired, in order |
| `HybrisManager.InitWakeupSensorConfig` | core/hybrisadaptor.cpp:427-460 | the secondaries are exactly the distinct sensors of the other configured types; with a one-shot primary and some secondary the group has the configured handle and type, else there is none |
| `HybrisControl.Manager.constructor` | core/hybrisadaptor.cpp:256-279 | a new manager has nothing active, in the record and in the hardware |
| `HybrisControl.Manager.SetDelayReal` | core/hybrisadaptor.cpp:725-748 | one command is given for a known sensor, and the rate is recorded exactly if the backend takes this call |
| `HybrisControl.Manager.SetActiveReal` | core/hybrisadaptor.cpp:789-810 | one command is given for a known sensor, and activation is recorded exactly if the backend takes this call |
| `HybrisControl.Manager.SetDelay` | core/hybrisadaptor.cpp:750-771 | behaves as the rate transition and gives its commands: none without a change, else the secondaries' rates first, then the sensor's |
| `HybrisControl.Manager.StartSecondaries` | core/hybrisadaptor.cpp:824-830 | every secondary gets rate, activation, and rate again, in order |
| `HybrisControl.Manager.StopSecondaries` | core/hybrisadaptor.cpp:842-846 | every secondary is switched off, in order |
| `HybrisControl.Manager.SetActive` | core/hybrisadaptor.cpp:812-850 | behaves as the switching transition and gives its commands in order, secondaries first on start and last on stop; reports the sensor's own success |
| `HybrisControl.Manager.StartSensor` | core/hybrisadaptor.cpp:832-840 | rate, activation, and the rate again only if the sensor became active; success only if all that counts succeeded |
| `HybrisControl.Manager.Restart` | core/hybrisadaptor.cpp:582-599 | gives exactly the commands of the forced rate change, start, stop and rate change back |
| `HybrisControl.Manager.StopReader` | core/hybrisadaptor.cpp:575-600 | behaves as the stop transition and gives its commands, those of the extra restart only after a successful stop of a listed type |
| `HybrisControl.Manager.QueueEvents` | core/hybrisadaptor.cpp:927-962 | events move from backend to pipe in order, or are dropped as a batch if one is invalid or the pipe does not take them |
| `HybrisControl.Manager.ProcessEvents` | core/hybrisadaptor.cpp:964-1022 | the loop over a buffer of events behaves as the transition for each and gives its commands, in order |
| `HybrisCommands.StartOneTunes` | core/hybrisadaptor.cpp:824-840 | rate, activation, rate again: on a backend that forgets rates the sensor starts with its recorded rate and runs at it |
| `HybrisCommands.StartTunes` | core/hybrisadaptor.cpp:823-840 | starting a sensor does so for its whole group |
| `HybrisCommands.StopMutes` | core/hybrisadaptor.cpp:841-846 | stopping a sensor stops its whole group |
| `HybrisCommands.StartTells` | core/hybrisadaptor.cpp:824-840 | to itself a sensor that starts gets its rate, activation and the rate again, and nothing else |
| `HybrisCommands.StopTells` | core/hybrisadaptor.cpp:842-846 | one that stops gets just the deactivation |
| `HybrisCommands.RateTells` | core/hybrisadaptor.cpp:750-771 | one whose rate changes gets just that rate |
| `HybrisCommands.RestartForcesRateChange` | core/hybrisadaptor.cpp:582-599 | the extra restart sets another rate than the recorded one, starts and stops the sensor, and sets the recorded rate back |
| `HybrisCommands.StopReaderTells` | core/hybrisadaptor.cpp:575-600 | stopping a reader deactivates a sensor that is active, and gives the extra restart exactly to listed types |
| `HybrisCommands.PrimaryStartsLast` | core/hybrisadaptor.cpp:824-840 | while the group is being started the primary is on only if all secondaries are |
| `HybrisCommands.PrimaryStopsFirst` | core/hybrisadaptor.cpp:842-846 | from the first command of a stop on the primary is off |
| `HybrisCommands.RatingEffect` | core/hybrisadaptor.cpp:750-771 | a rate change leaves the secondaries at their recorded rates and the sensor at the new one |
| `HybrisCommands.SwitchingKeepsTuned` | core/hybrisadaptor.cpp:812-850 | switching keeps every running sensor at its recorded rate |
| `HybrisCommands.RestartKeepsTuned` | core/hybrisadaptor.cpp:582-599 | so does the extra start and stop with a forced rate change |
| `HybrisCommands.StepKeepsTuned` | core/hybrisadaptor.cpp:575-1022 | so does every step of hardware, reader thread and main thread |
| `HybrisCommands.RunStaysTuned` | core/hybrisadaptor.cpp:575-1022 | in every run, whatever batches are dropped, and even if starting and stopping a sensor loses its rate, each running sensor runs at its recorded rate and none is started before its rate is set |
| `AdaptorPolicy.StepIsValid` | core/hybrisadaptor.cpp:1168-1249 | standby implies a blanked display; wanted and allowed implies running; running implies wanted; the entry has one reference and runs, and the reader is started, exactly while the adaptor runs |
| `AdaptorPolicy.RunIsValid` | core/hybrisadaptor.cpp:1168-1249 | that holds after every run of starts, stops, display and override changes |
| `AdaptorPolicy.BlankingStops` | core/hybrisadaptor.cpp:1231-1239 | blanking the display puts the sensor to sleep, and it runs on exactly if it is wanted and overridden or ran against policy before |
| `AdaptorPolicy.ShowingWakes` | core/hybrisadaptor.cpp:1241-1249 | showing it wakes the sensor, which runs exactly if it is wanted |
| `AdaptorPolicy.HistoryIsRemembered` | core/hybrisadaptor.cpp:1168-1249 | after every run the wish is that of the last start or stop, override and display are what was set last, and the sensor is asleep exactly if it was blanked, or its override ended under a blanked display, with no waking since |
| `AdaptorPolicy.RunsIff` | core/hybrisadaptor.cpp:1168-1249 | over every run a sensor runs exactly if it is wanted and is awake or overridden, or its override was withdrawn in standby |
| `AdaptorPolicy.StepAgainstPolicyIff` | core/hybrisadaptor.cpp:1231-1249 | a step leaves the sensor running although asleep exactly if it withdraws the override from a sleeping sensor, or it did before and the step does not wake it |
| `AdaptorPolicy.AgainstPolicyIff` | core/hybrisadaptor.cpp:1231-1249 | over any run: running against policy exactly after an override was withdrawn in standby with nothing since that makes the adaptor look again |
| `AdaptorPolicy.AgainstPolicyHappens` | core/deviceadaptor.cpp:125-137 | override, blank, withdraw is such a run |
| `AdaptorPolicy.WakingRestoresPolicy` | core/hybrisadaptor.cpp:1221-1249 | showing the display, stopping, or overriding again restores the policy at once |
| `AdaptorPolicy.AdaptedSensorEntry.AddReference` | core/deviceadaptor.cpp:62-66 | counts up and returns the new count |
| `AdaptorPolicy.AdaptedSensorEntry.RemoveReference` | core/deviceadaptor.cpp:68-72 | counts down and returns the new count |
| `AdaptorPolicy.Adaptor.constructor` | core/deviceadaptor.cpp:80-94 | an adaptor starts idle and awake, with the display state as found |
| `AdaptorPolicy.Adaptor.EvaluateSensor` | core/hybrisadaptor.cpp:1168-1208 | brings running, references and entry in line with what is wanted and allowed |
| `AdaptorPolicy.Adaptor.StartSensor` | core/hybrisadaptor.cpp:1210-1219 | behaves as the start transition |
| `AdaptorPolicy.Adaptor.StopSensor` | core/hybrisadaptor.cpp:1221-1229 | behaves as the stop transition |
| `AdaptorPolicy.Adaptor.Standby` | core/hybrisadaptor.cpp:1231-1239 | a second standby changes nothing, as in the standby transition |
| `AdaptorPolicy.Adaptor.Resume` | core/hybrisadaptor.cpp:1241-1249 | a resume without standby changes nothing, as in the resume transition |
| `AdaptorPolicy.Adaptor.SetStandbyOverride` | core/deviceadaptor.cpp:125-137 | stores the override and, with the display blanked, resumes or goes to standby; always true |
| `AdaptorPolicy.Adaptor.DisplayStateChanged` | core/sensormanager.cpp:768-779 | blanking goes to standby, showing resumes |
| `SysfsAdaptor.RunIsConsistent` | core/sysfsadaptor.cpp:100-216 | after every run: in standby the adaptor does not run, and it always resumes from standby |
| `SysfsAdaptor.RunsAfterIff` | core/sysfsadaptor.cpp:100-216 | after every run: what each operation makes of running and standby; a start waits in standby unless the override was set last, a standby stops the adaptor unless it was, a resume always ends standby |
| `SysfsAdaptor.ReferencesDrift` | core/sysfsadaptor.cpp:100-187 | over every run the reference count is the number of listeners less one for each standby taken with a running entry, so it is right exactly without any |
| `SysfsAdaptor.StopIsForgottenIff` | core/sysfsadaptor.cpp:142-216 | for every run: after a stop a resume finds the adaptor running exactly if it was in standby, or ran with further references |
| `SysfsAdaptor.StopSilencesIff` | core/sysfsadaptor.cpp:142-187 | a stop ends the running of an adaptor that still has listeners exactly if it had several, and at most one more of them than standbys taken with the entry running |
| `SysfsAdaptor.SilencesAnother` | core/sysfsadaptor.cpp:142-216 | two starts, standby, resume, one stop: one listener is left and nothing runs |
| `SysfsAdaptor.RunsForNobody` | core/sysfsadaptor.cpp:142-216 | start, standby, stop, resume leaves the adaptor running with no listener |
| `SysfsAdaptor.Adaptor.constructor` | core/sysfsadaptor.cpp:40-61 | an adaptor starts with no file open and no reader |
| `SysfsAdaptor.Adaptor.OpenFds` | core/sysfsadaptor.cpp:218-272 | true exactly if no system call fails; whichever fails, every opened file is recorded once |
| `SysfsAdaptor.Adaptor.CloseAllFds` | core/sysfsadaptor.cpp:274-299 | closes every open file once and no other, and none stays open |
| `SysfsAdaptor.Adaptor.StartReaderThread` | core/sysfsadaptor.cpp:314-324 | either all files are open and the reader is live, or none and it is not |
| `SysfsAdaptor.Adaptor.StartSensor` | core/sysfsadaptor.cpp:100-140 | behaves as the start transition; the reader is live exactly when the adaptor runs, and then all files are open, else none |
| `SysfsAdaptor.Adaptor.StopSensor` | core/sysfsadaptor.cpp:142-160 | behaves as the stop transition and keeps reader, files and running together, also on the way to standby |
| `SysfsAdaptor.Adaptor.EnterStandby` | core/sysfsadaptor.cpp:162-187 | behaves as the standby transition, with reader stopped and files closed |
| `SysfsAdaptor.Adaptor.LeaveStandby` | core/sysfsadaptor.cpp:189-216 | behaves as the resume transition; a failure to open leaves nothing open |
| `Framing.CountRoundTrip` | core/sockethandler.cpp:79-91 | a count is read back as it was written |
| `Framing.CountBytes` | core/sockethandler.cpp:79-91 | the low byte of a count comes first |
| `Framing.PayloadOfSamples` | qt-api/socketreader.h:146-147 | cutting bytes into samples and joining them gives the bytes back |
| `Framing.SamplesOfPayload` | qt-api/socketreader.h:146-147 | joining samples and cutting them gives the samples back |
| `Framing.ReadsFrameIff` | qt-api/socketreader.h:130-153 | the reader gets a frame back, and the bytes behind it, exactly if it holds between 1 and 1000 samples |
| `Framing.ReadAllFrames` | qt-api/socketreader.h:130-153 | of any sequence of frames the reader gets the samples of all those before the first oversize one, in order, and nothing more |
| `Framing.RejectsFrame` | qt-api/socketreader.h:139-143 | a frame of more than 1000 samples is rejected, and what is behind it with it |
| `Framing.AllAcceptedIff` | qt-api/socketreader.h:139-143 | all samples are read back exactly if no frame is oversize; else fewer are |
| `SessionWriter.AllocatesIff` | core/sockethandler.cpp:93-103 | the allocation computed in 32 bits has the size of the buffer exactly if the product of sizes and the count stay below 2^31; otherwise it is smaller, or negative and not made |
| `SessionWriter.CopiesFitIff` | core/sockethandler.cpp:93-115 | all copies of a buffer stay inside its allocation exactly under that condition |
| `SessionWriter.BreaksIff` | core/sockethandler.cpp:93-115 | a run breaks the session exactly if some sample is copied beyond the allocation, or none can be made |
| `SessionWriter.AllocatableNeverBreaks` | core/sockethandler.cpp:175-189 | it never does if every buffer size asked for, times the sample size, and the count stay below 2^31 |
| `SessionWriter.SettingsInForce` | core/sockethandler.cpp:165-189 | after every run the buffer interval and the buffer size are what was set last, the size at least 1 |
| `SessionWriter.OverrunHappens` | core/abstractsensor_a.cpp:200-214 | 178956971 samples of 24 bytes are given an allocation of 12 bytes, and the first copy leaves it |
| `SessionWriter.StepKeepsWorking` | core/sockethandler.cpp:93-189 | every operation keeps the pending samples below the buffer size, and downsampling off |
| `SessionWriter.RunWrites` | core/sockethandler.cpp:79-189 | after every run that does not break, the wire is a sequence of frames whose samples, with the pending ones, are those kept, one of them oversize exactly if some operation flushed more than 1000 samples; after one that does, whole frames with fewer samples |
| `SessionWriter.ResizeDrops` | core/sockethandler.cpp:175-189 | a change of the buffer size drops exactly the pending samples |
| `SessionWriter.SessionConservesSamplesIff` | core/sockethandler.cpp:79-189 | what the reader makes of the wire, followed by the pending samples, is what was offered, in order, less what was pending when the buffer size changed, exactly if no operation flushed more than 1000 samples and no copy left its allocation |
| `SessionWriter.SmallBuffersConserve` | core/sockethandler.cpp:175-189 | if no buffer is set to more than 1000 samples no operation does |
| `SessionWriter.BigBufferLoses` | core/abstractsensor_a.cpp:200-214 | with a buffer of more than 1000 samples, filling it is enough for the reader to get none of them; it breaks the session exactly if the allocation is too small |
| `SessionWriter.FillingConservesIff` | core/abstractsensor_a.cpp:200-214 | filling a buffer of any size gets all its samples to the reader exactly if it holds at most 1000 and its bytes stay below 2^31 |
| `SessionWriter.SetDownsamplingWorksIff` | core/sockethandler.cpp:419-424 | after the handler switched downsampling the flag is what was asked for exactly if it was so before |
| `SessionWriter.DownsamplingStaysOff` | core/sockethandler.cpp:419-424 | over every run of the handler's requests: asking for downsampling is never granted, and not asking for it always is |
| `SessionWriter.SetDownsamplingSetsTimer` | core/sockethandler.cpp:419-424 | what the switch does instead: the next sample to stay pending starts the flush timer exactly if it was switched on |
| `SessionWriter.SaysDownsamplingIff` | core/sockethandler.cpp:411-417 | the handler's answer whether a session is downsampled is right exactly if it is |
| `SessionWriter.SwitchTakesEffect` | core/sockethandler.cpp:196-203 | the session's own switch sets the flag and stops the flush timer exactly if that changes it |
| `SessionWriter.UnbufferedSendsIff` | core/sockethandler.cpp:107-112 | without a buffer a sample goes out at once, as a frame of its own, exactly if the session is not downsampled or its interval has passed |
| `SessionWriter.TimerRunsIff` | core/sockethandler.cpp:121-129 | over every run the flush timer runs exactly if one of the pending samples was offered while a buffer interval was set |
| `SessionWriter.TimerIsInterval` | core/sockethandler.cpp:121-129 | the timer is set to the buffer interval rounded up to milliseconds, and a running one is left alone |
| `SessionWriter.TimerFlushes` | core/sockethandler.cpp:133-141 | when the timer fires after any run that does not break, nothing stays pending and the client can read all that was kept, if no frame is oversize |
| `SessionWriter.TimerForgotten` | core/sockethandler.cpp:121-129 | so samples offered before the interval is set stay pending without a timer |
| `SessionWriter.CopyInto` | core/sockethandler.cpp:108-114 | a copy changes exactly its place in the buffer |
| `SessionWriter.SessionData.constructor` | core/sockethandler.cpp:38-53 | a new session has no buffer and writes every sample through |
| `SessionWriter.SessionData.WriteFrame` | core/sockethandler.cpp:79-91 | writes the count and that many samples as one frame, or nothing at all |
| `SessionWriter.SessionData.DelayedWrite` | core/sockethandler.cpp:133-141 | flushes the pending samples and stops the timer |
| `SessionWriter.SessionData.TimerTimeout` | core/sockethandler.cpp:62-65 | an elapsed timer flushes |
| `SessionWriter.SessionData.Reserve` | core/sockethandler.cpp:95-106 | the buffer has the 32-bit size computed for the new samples, and pending samples of that size stay |
| `SessionWriter.SessionData.Append` | core/sockethandler.cpp:107-115 | the sample lands behind those collected, if it ends inside the allocation |
| `SessionWriter.SessionData.WriteThrough` | core/sockethandler.cpp:107-112 | without buffering the sample goes out as a frame of one, unless downsampled away |
| `SessionWriter.SessionData.Collect` | core/sockethandler.cpp:113-130 | the sample becomes pending, or completes the buffer, which is then written |
| `SessionWriter.SessionData.Write` | core/sockethandler.cpp:93-131 | a write breaks the session exactly if its copy leaves the allocation; every other one behaves as the abstract session does, and the count stays below the buffer size |
| `SessionWriter.SessionData.SetBufferSize` | core/sockethandler.cpp:175-189 | any 32-bit size is taken: a new one drops the pending samples and stops the timer, the same one changes nothing, 0 becomes 1 |
| `SessionWriter.SessionData.SetBufferInterval` | core/sockethandler.cpp:165-168 | only the buffer interval changes |
| `SessionWriter.SessionData.SetDownsampling` | core/sockethandler.cpp:196-203 | a new value is stored and stops the flush timer; the same value changes nothing |
| `SessionWriter.SocketHandler.SetDownsampling` | core/sockethandler.cpp:419-424 | a session that is known gets the buffer interval 0 or 1 and no other change; an unknown one is ignored |
| `SessionWriter.SocketHandler.Downsampling` | core/sockethandler.cpp:411-417 | the answer depends on the buffer size of the session only; it is false for an unknown one |
| `SocketReader.ReadLoopConserves` | qt-api/socketreader.cpp:105-127 | no byte is lost or reordered between what arrived, what was read and what is left, even when too much is taken |
| `SocketReader.OvershootsIff` | qt-api/socketreader.cpp:110-111 | the loop takes more than it was asked for exactly if, after some but too few bytes have come, the next arrival brings more than are missing, with at most the allowed number of empty waits before it |
| `SocketReader.OvershootExample` | qt-api/socketreader.cpp:110-111 | four bytes asked for and six taken |
| `SocketReader.ReadSucceedsIff` | qt-api/socketreader.cpp:105-127 | a read succeeds exactly if, however the bytes are cut into pieces, enough of them come with at most the allowed number of empty waits; one of no bytes never does |
| `SocketReader.ReadGivesNextBytes` | qt-api/socketreader.cpp:105-127 | one that succeeds without taking too much has exactly the next bytes of the stream and leaves the rest |
| `SocketReader.AtomicReadIsExact` | qt-api/socketreader.cpp:105-127 | when the bytes arrive in one go after any wait within the retries, exactly those asked for are read |
| `SocketReader.ReadLoopAtOnce` | qt-api/socketreader.cpp:105-127 | with nothing more to come a read takes what it asks for, or fails |
| `SocketReader.ReadLoopStarves` | qt-api/socketreader.cpp:112-120 | a read that gets nothing more ends with failure after its retries |
| `SocketReader.AppendsIff` | qt-api/socketreader.h:146-147 | reading a frame appends to the vector, for all samples, exactly if the vector was empty |
| `SocketReader.OverwrittenAt` | qt-api/socketreader.h:146-147 | the samples read come first, and of the vector only what lies behind them is left |
| `SocketReader.Reader.Read` | qt-api/socketreader.cpp:105-127 | the loop behaves as its specification over all arrivals, and terminates |
| `SocketReader.Reader.ReadValues` | qt-api/socketreader.h:130-153 | with the bytes all there it decodes one frame; otherwise it fails and empties the socket |
| `Downsampler.Window` | core/abstractsensor.cpp:116-117 | the window times the current interval is at most the session interval, and no larger window is |
| `Downsampler.Trim` | core/abstractsensor.cpp:122-131 | the iterator loop, with its skip after an erasure, computes the specified list |
| `Downsampler.IdealIsSuffix` | core/abstractsensor.cpp:122-131 | trimming as intended keeps the longest fresh suffix that fits |
| `Downsampler.TrimIsIdealIff` | core/abstractsensor.cpp:122-131 | the loop trims as intended exactly if at most one sample has to go |
| `Downsampler.TrimmedSize` | core/abstractsensor.cpp:122-131 | of fresh samples that are too many at most every other one goes, in exactly this number |
| `Downsampler.TrimSkips` | core/abstractsensor.cpp:122-131 | of three fresh samples in a window of one only the second stays |
| `Downsampler.StaleIff` | core/abstractsensor.cpp:122-126 | a sample is stale exactly if it is more than two seconds older than the newest; one from the future counts as stale |
| `Downsampler.FeedSlides` | core/abstractsensor.cpp:106-158 | for steady timestamps the buffer always is the last samples since the last successful send, at most a window, and every window sent is the samples up to its end |
| `Downsampler.AcceptedFeed` | core/abstractsensor.cpp:106-158 | with successful writes there is one output for every window of inputs, without gap or overlap, and the rest is buffered |
| `Downsampler.NewestStays` | core/abstractsensor.cpp:122-131 | in a constant window trimming never removes the sample that has just come |
| `Downsampler.NextIsFed` | core/abstractsensor.cpp:106-158 | one more sample adds exactly the mean of the window it completes, at its own time, if the write succeeds |
| `Downsampler.BatchMeans` | core/abstractsensor.cpp:106-158 | with successful writes a session has received one sample for every N inputs: the mean of exactly these, at the time of the last |
| `Downsampler.FeedIsBounded` | core/abstractsensor.cpp:122-134 | whatever the timestamps, a constant window bounds the buffer, and every window sent is full |
| `Downsampler.MeanBounds` | core/abstractsensor.cpp:136-148 | a mean lies between all bounds of its window |
| `Downsampler.TruncatedMeanBounds` | core/abstractsensor.cpp:190-212 | a truncated integer mean lies between all bounds of its window and is less than one away from the mean |
| `Downsampler.MeanXyzIs` | core/abstractsensor.cpp:136-148 | each axis of a mean times the number of samples is the sum of that axis |
| `Downsampler.MeanXyzBounds` | core/abstractsensor.cpp:136-148 | a mean lies, axis by axis, between all bounds of its window |
| `Downsampler.MeanFieldIs` | core/abstractsensor.cpp:190-212 | each of the six components is the mean of that component, cut off towards zero, and the level is the one given |
| `Downsampler.OutputsCarry` | core/abstractsensor.cpp:145-212 | an output carries the time of the sample that has come, and of a field its level |
| `Downsampler.Channel.constructor` | core/abstractsensor.cpp:37-42 | a channel starts without sessions |
| `Downsampler.Channel.Start` | core/abstractsensor.cpp:64-67 | true for the first reference |
| `Downsampler.Channel.Stop` | core/abstractsensor.cpp:79-86 | true for the last reference; the count never goes below 0 |
| `Downsampler.Channel.StartSession` | core/abstractsensor.cpp:54-62 | a session counts once; true exactly for the first session |
| `Downsampler.Channel.StopSession` | core/abstractsensor.cpp:69-77 | true exactly when the last session goes; the channel runs exactly while there are sessions |
| `Downsampler.Channel.SetDownsamplingEnabled` | core/abstractsensor.cpp:225-231 | stored only if downsampling is supported; then it takes effect for every session that has asked for an interval |
| `Downsampler.Channel.DownsamplingDefault` | core/abstractsensor.cpp:233-239 | a session without a setting is downsampled exactly if that is supported, one with a setting exactly if it is on and the session has asked for an interval; without support none ever is |
| `Downsampler.PassedIs` | core/abstractsensor.cpp:111-114 | a session without downsampling receives all accepted samples, in order |
| `Downsampler.PassedConcat` | core/abstractsensor.cpp:111-114 | sample by sample, at any point of a run |
| `Downsampler.Channel.DownsampleXyz` | core/abstractsensor.cpp:106-158 | every active session gets the mean of its filled window, or the sample itself without downsampling; a failed write keeps its window; no other buffer changes; true exactly if all writes succeed |
| `Downsampler.Channel.DownsampleField` | core/abstractsensor.cpp:160-222 | the same with truncated integer means and the new sample's level |
| `Downsampler.EmptyStartIsFed` | core/abstractsensor.cpp:106-158 | from an empty buffer a run has buffered and sent what its windows say: one mean for each |
| `Downsampler.ServeOn` | core/abstractsensor.cpp:106-158 | a run goes on from what is buffered, so that runs can be cut anywhere, as where an interval changes |
| `Downsampler.GrownWindowGoesOn` | core/abstractsensor.cpp:112-134 | when the window grows, the run goes on as though the samples buffered were the first since the last send |
| `Downsampler.ShrunkWindowIsRightIff` | core/abstractsensor.cpp:122-134 | when the window has shrunk, the next sample offers a full window, but the last N samples exactly if just N were buffered |
| `Downsampler.ShrunkWindowGoesOn` | core/abstractsensor.cpp:122-158 | once that window is accepted the run goes on as from an empty buffer |
| `Downsampler.Channel.RunXyz` | core/abstractsensor.cpp:106-158 | from any buffers, over any sequence of samples and any failing writes: every active session has buffered and received what its run says, and a session without downsampling the samples written to it |
| `Downsampler.Channel.RunField` | core/abstractsensor.cpp:160-222 | the same with truncated integer means and the level of the newest sample of each window |
| `Downsampler.Channel.AverageXyz` | core/abstractsensor.cpp:136-148 | the accumulating loop computes the mean of each axis |
| `Downsampler.Channel.AverageField` | core/abstractsensor.cpp:190-212 | the accumulating loop computes the truncated mean of each axis |
| `SessionRegistry.CleanId` | include/idutils.h:40-45 | the part of an id before the first semicolon, or all of it |
| `SessionRegistry.RequestKeepsValid` | core/sensormanager.cpp:406-445 | a request keeps the registry valid and hands out an id above all earlier ones, also after failed requests |
| `SessionRegistry.RequestGrantsIff` | core/sensormanager.cpp:406-445 | a session is granted exactly if the sensor is registered and has a channel or gets one; it is then held there and registered for the caller, and all others are held and registered as before |
| `SessionRegistry.RequestLeaves` | core/sensormanager.cpp:406-445 | a failed request says why, counts its attempt, and takes the registration of a sensor that proved invalid; sockets, starts and the other sensors stay |
| `SessionRegistry.ReleaseKeepsValid` | core/sensormanager.cpp:447-521 | a release keeps the registry valid and succeeds exactly if the caller may and the named sensor holds the session |
| `SessionRegistry.ReleaseEffect` | core/sensormanager.cpp:447-521 | exactly a permitted release by the name of a sensor with a channel and sessions takes the session out of registrations and sockets and ends the watch for a client without further ones; none stops a session, and each says why it failed |
| `SessionRegistry.StopAndRelease` | core/sensormanager.cpp:720-736 | stopping and releasing a session where it is held removes it from sensor, channel, instances and sockets, and nothing else |
| `SessionRegistry.WithoutTwice` | core/sensormanager.cpp:738-748 | removing sessions one after the other is removing them at once |
| `SessionRegistry.StartsAndConnections` | core/abstractsensor.cpp:54-77 | a start or stop counts at a sensor that has a channel, for that session only; a connection takes any id from 0 |
| `SessionRegistry.ClientIsForgotten` | core/sensormanager.cpp:738-748 | after a client is gone none of its registered sessions is held, started, connected or registered, and all others are as before |
| `SessionRegistry.ReleaseLeavesRunningIff` | core/sensormanager.cpp:447-521 | a release of a held session leaves the channel running for a session that nothing holds exactly if it was started |
| `SessionRegistry.RunsOnUnlessStopped` | core/sensormanager.cpp:406-748 | from there every operation keeps it so, a departure of its client included, except a stop of that session at that sensor |
| `SessionRegistry.RunsOnHappens` | core/sensormanager.cpp:447-521 | request, start, release, departure of the client: the channel runs on |
| `SessionRegistry.ReleaseStrandsIff` | core/sensormanager.cpp:447-521 | a released session stays held without an owner exactly if the release names a sensor that serves others but not this session |
| `SessionRegistry.StrandedStaysIff` | core/sensormanager.cpp:447-521 | a stranded session survives every operation, its client's departure included, except the loss of its socket and a release by the daemon itself under the right name |
| `SessionRegistry.StrandingHappens` | core/sensormanager.cpp:447-521 | a client with two sessions releases the first under the sensor of the second and leaves: the first stays held |
| `SessionRegistry.RunCrashesIff` | core/sensormanager.cpp:447-521 | a run ends in the use of a missing channel exactly if a permitted release in it names a registered sensor whose channel was never created |
| `SessionRegistry.CrashHappens` | core/sensormanager.cpp:447-521 | a client requests one sensor and releases its session under the name of another: such a run |
| `SessionRegistry.FailedCreationCrashes` | core/sensormanager.cpp:406-521 | so does a release under the name of a sensor whose creation failed |
| `SessionRegistry.StepKeepsValid` | core/sensormanager.cpp:406-748 | every operation keeps the registry valid |
| `SessionRegistry.RunStaysValid` | core/sensormanager.cpp:406-748 | in every run, crashing or not: ids are never handed out twice, each is held by at most one sensor, every registered session is held and its client watched, and only instantiated sensors hold sessions |
| `SessionRegistry.StepStaysTidy` | core/sensormanager.cpp:406-748 | with releases that name the right sensor, every held session that was handed out over the bus stays registered for its client |
| `SessionRegistry.NothingStaysHeld` | core/sensormanager.cpp:738-748 | so of a client that leaves the bus no session stays held, unless the daemon has crashed |
| `SessionRegistry.SensorManager.constructor` | core/sensormanager.cpp:164-221 | the registry starts with the registered sensors and no sessions |
| `SessionRegistry.SensorManager.CreateNewSessionId` | core/sensormanager.cpp:853-856 | ids count up |
| `SessionRegistry.SensorManager.RequestSensor` | core/sensormanager.cpp:406-445 | behaves as the request transition in all its outcomes; an invalid channel takes its registration with it |
| `SessionRegistry.SensorManager.ReleaseSensor` | core/sensormanager.cpp:447-521 | behaves as the release transition on every early return and on a missing channel; the client is watched as long as it has sessions |
| `SessionRegistry.SensorManager.HasMoreSessions` | core/sensormanager.cpp:505-512 | true exactly if the client has a registered session |
| `SessionRegistry.SensorManager.LostClient` | core/sensormanager.cpp:720-736 | a held session is stopped and removed everywhere, at the sensor that held it; any other id changes nothing |
| `SessionRegistry.SensorManager.DbusClientUnregistered` | core/sensormanager.cpp:738-748 | walking over the map while erasing from it stays on existing entries, terminates, and removes exactly the client's sessions |
| `SessionRegistry.SensorManager.NextInstance` | core/sensormanager.cpp:741-744 | the walk goes to the next higher session of the current map, and ends only behind all |
| `Channels.RemoveAt` | core/nodebase.cpp:672-679 | at every node exactly those requests of the session are withdrawn that it made through this channel (standby overrides below it, intervals upstream, ranges at its range root, buffers at itself), and all others keep theirs, with values and order |
| `Channels.ClearIff` | core/nodebase.cpp:672-679 | so no node that the channel reaches holds a request of the session exactly if none of them held one that was made elsewhere, such as a range at another node than the range root, or a buffer at another than the channel |
| `Channels.RequestAt` | core/abstractsensor_a.cpp:152-155 | a range is queued at the node that decides for the channel, and nothing else changes at any node |
| `Channels.WithdrawsStill` | core/nodebase.cpp:672-679 | a removal withdraws the same before and after removals of other sessions at any channels, also where these share nodes |
| `Daemons.Daemon.RequestSensor` | core/sensormanager.cpp:406-445 | every sensor that was created has a channel, whose nodes are sound |
| `Daemons.Daemon.RequestDataRange` | core/abstractsensor_a.cpp:152-155 | the bus queues a range for any session at any channel |
| `Daemons.Daemon.ReleaseSensor` | core/sensormanager.cpp:447-521 | a release that gets as far as the channel withdraws what the session requested through it and nothing else, whether it succeeds or not; any other release changes no node |
| `Daemons.Daemon.LostClient` | core/sensormanager.cpp:720-736 | of a lost session is withdrawn what it requested through the sensor that held it, and nothing else; without a holder no node changes |
| `Daemons.Daemon.ClientLeaves` | core/sensormanager.cpp:738-748 | of every session of the client is withdrawn what it requested through the sensor that held it, the requests of all other clients stay as they are, and nothing of it is left at the nodes that sensor reaches exactly if none was made elsewhere |
| `Daemons.RangeOutlivesClient` | core/abstractsensor_a.cpp:152-155 | whenever a range is requested for a session through another sensor, at a node that its own sensor reaches without taking its ranges from it, the request outlives the client |
| `Daemons.Connected` | core/sensormanager.cpp:406-445 | there are such sensors: two channels over one node, of which one has ranges of its own |
| `TapRecogniser.EveryTapIsGrouped` | qt-api/tapsensor_i.cpp:66-92 | every tap is emitted alone, merged into one double tap, or open, exactly once and in order |
| `TapRecogniser.PairsAreAlike` | qt-api/tapsensor_i.cpp:66-92 | every pair is two taps of one direction and comes out as a double tap of it; any other tap comes out as it is |
| `TapRecogniser.RowsPairUp` | qt-api/tapsensor_i.cpp:66-92 | taps of one direction in a row pair up two by two, and the last one stays open exactly if their number is odd |
| `TapRecogniser.StrangersStayAlone` | qt-api/tapsensor_i.cpp:66-92 | taps that are not followed directly by one of their direction never pair up |
| `TapRecogniser.SlowTapsStayApart` | qt-api/tapsensor_i.cpp:66-119 | taps half a second or more apart are never merged |
| `TapRecogniser.QuickTapsMerge` | qt-api/tapsensor_i.cpp:66-119 | taps of one direction that follow each other faster are merged two by two |
| `TapRecogniser.EmittedIs` | qt-api/tapsensor_i.cpp:105-119 | with only double taps selected one comes out for each pair and nothing else, otherwise one for each group |
| `TapRecogniser.RunPairs` | qt-api/tapsensor_i.cpp:66-119 | from any valid state, over any taps and timeouts, exactly the closed groups are emitted (only double taps if only those are selected), and the open tap is pending, with the timer running since it came |
| `TapRecogniser.RunSingle` | qt-api/tapsensor_i.cpp:72-74 | with single taps selected every tap is emitted as it is |
| `TapRecogniser.TimedRunMerges` | qt-api/tapsensor_i.cpp:66-119 | when the timer keeps its time, the taps emitted and the pending one are the greedy merge of taps of one direction that come within 500 ms |
| `TapRecogniser.StepKeepsValid` | qt-api/tapsensor_i.cpp:66-119 | one tap is pending exactly while the timer runs |
| `TapRecogniser.SelectIsSafeIff` | qt-api/tapsensor_i.cpp:94-98 | a new selection leaves a tap for the next event to decide on exactly if no timer runs or single taps are selected |
| `TapRecogniser.SelectWhileWaiting` | qt-api/tapsensor_i.cpp:94-98 | a tap, then a selection: the next event finds nothing to decide on |
| `TapRecogniser.TapSensor.constructor` | qt-api/tapsensor_i.cpp:38-45 | starts with both kinds selected, nothing pending and no timer |
| `TapRecogniser.TapSensor.Output` | qt-api/tapsensor_i.cpp:105-119 | behaves as the decision on the last pending tap |
| `TapRecogniser.TapSensor.DataReceived` | qt-api/tapsensor_i.cpp:66-92 | behaves as a run of the taps received |
| `TapRecogniser.TapSensor.TimerTimeout` | qt-api/tapsensor_i.cpp:105-119 | behaves as a timeout |
| `TapRecogniser.TapSensor.SetTapType` | qt-api/tapsensor_i.cpp:94-98 | drops what is pending and leaves the timer alone |

## Left out

- Binder and HAL backends, wake locks, the contents of sensor files, D-Bus adaptors and proxies, logging, configuration files and the command line: foreign calls and plumbing.
- What a plugin does when it registers and initialises itself, and the scan of the plugin directory: the scanned names are given.
- Per-sensor adaptors and filters, scaling, compass arithmetic and marshalling: they compute values without keeping state.
- Fallback events of Hybris sensors, and which adaptors of a type are running when a sample is handed to them: the model ends where an event is handed on; `HybrisAdaptor::setInterval` is a rate change of the manager.
- `requestDefaultInterval`, buffer size and buffer interval arbitration between sessions, and the lists of available ranges: only the removal of a session from the buffer maps is modelled.
- Chains and device adaptors in the sensor manager (`requestChain`, `requestDeviceAdaptor` and their counterparts): reference counts of the same kind as those of the channel.
- The connection timeout of a session: it is a lost session at any time.
- Threads inside one call: reader threads and the main thread interleave between operations only.
- Chunk arrays of readers: the values read are returned as a sequence, so that overwriting the chunk during a callback is not captured.
- Sums of floats in the downsampler: means are over reals, and intervals are below 2^31, so that a window fits its integer type.
- Errors of the socket while reading: a read that fails there ends the frame as starvation does.
- SessionWriter.SessionData.Write: samples of another size than those pending spoil the pending ones; only the count and the place of the copy are then guaranteed.
- SocketReader.Reader.ReadValues: stated for bytes that have all arrived; `ReadLoopConserves` and `OvershootsIff` cover the read loop for all other arrivals.
- Dataflow.NonExpandingFits: one direction only, since an expanding filter may still fit by its input.
- HybrisControl.Manager.constructor: activation is on or off; the value -1 of a sensor that the first stop could not reach, which makes later stops try again, is not captured.
- Downsampler.Channel.StartSession: without the default interval request that the code makes for the session.
- Downsampler.Channel.StopSession: without the removal of the session's requests at the node, which is `Channels.RemoveAt`.
- SessionRegistry.SensorManager.CreateNewSessionId: the counter is 32 bits wide in the code; the model does not wrap it.
- Chains.Write: one reader for each buffer and one sink for each reader; `RingBuffers.RingBuffer.Write` covers several, whose sinks only collect.
- `setDataRangeIndex`, which looks an index up in the ranges of the channel itself and then requests that range.
