# Multicluster global hub: conflation, chunked transport, agent emitters and label patches

This project models the stateful core of the global hub and proves what it promises.

- **Conflation pipeline** (`ConflationModel`, `ConflationRuns`, `ConflationOrder`, `ConflationQueue`,
  `ConflationDraining`, `ConflationEffects`, `ConflationUnits`, `ConflationManagers`). Each leaf hub has a unit with
  one slot per event type. The unit is a state machine whose steps are the locked methods of the source plus the
  worker's marks: insert, dispatch (pop and `GetNext`), handler attempt, `ReportResult`. `ConflationModel` gives the methods as functions on
  values; `ConflationUnits` has them as classes with shared pointers and in-place changes, each refining its
  function; the other modules reason about every run.
- **Offset committer** (`Committer`, `ManagerRuns`, `CommitReadings`, `CommitMonotone`, `CommitPositions`, `CommitDeltas`,
  `CommitExamples`): from metadata to Kafka restart offsets, over runs of all hubs.
- **Chunked transport** (`ChunkModel`, `ChunkTransport`, `ChunkDelivery`): the producer's split and send loops, the
  assembler, and the two put together.
- **Agent** (`AgentModel`, `AgentSyncer`): bundle handler, version counter and send loop; `Protocol` composes
  them with the manager's version checks, and `Stamping` hands an emitter's event to the manager.
- **Labels** (`LabelModel`, `LabelRuns`, `LabelTables`): patch folding, row merging, trimming, the agent's apply
  step, and the versioned writes as a protocol of concurrent patchers and trimmers.
- **Side cores**: `Versions` and `Durations`. `Basics` and `Decimals` are helpers.

`dafny verify dfyconfig.toml` checks the whole project.

## What the proofs brought up

Where a promise fails, the code is modelled as it is, a lemma shows the failure, and another says exactly
when the promise holds.

- `GetNext` returns its error with `isInReadyQueue` still set. If the only ready event was replaced by one with
  an unmet dependency, the unit is off the channel for good (`ReplacedBeforeDispatchStrands`, `StuckExactly`,
  `StuckForever`; `StepQueueExact` says which arrivals lead there).
- A first-generation event resets only what the element holds. A superseded job still in flight then raises
  `lastProcessedVersion` again and the new incarnation is refused (`StaleJobRejectsNewIncarnation`, `StepOrder`).
- `GetMetadatas` locks one unit at a time. For units that share a partition this can give an offset past a
  pending event, and the next commit can compute a lower one (`ReadingApartPassesPendingEvent`, `PassesExactly`;
  `PositionFallsAfterReadingApart`, `FallsExactly`). The lower one is not written, as the higher is remembered.
- A delta slot remembers only its latest metadata, so commits can pass queued deltas
  (`DeltaCommitPassesQueuedEvent`, `SupersededPassedExactly`).
- `commit` records a position before the database write, so after a failed write that row is not tried again
  until the offset moves on (`FailedCommitIsNotRepeated`, `WrittenExactly`).
- The key of the committed rows is the topic alone. With two partitions of a topic the row of one replaces that of
  the other, and when both are new in one commit the whole write fails, and is not tried again
  (`TwoNewPartitionsFail`, `TableExactly`).
- Chunks are put together by event id, but the CloudEvents client makes up a new id for every send of an event
  that has none, and no sender outside the samples and tests sets one (the agent's `ToCloudEvent` does not). Their
  over-long events never come out of the assembler (`UnnamedNeverOut`, `PayloadComesOutExactly`).
- At row version 0 the patcher's version condition disappears and updates can be lost (`StepFaithful`,
  `VersionZeroLosesUpdate`); the trimmer writes its condition in SQL and is not affected.
- Only the first `~1` of a patch path is decoded and `~0` is not (`LabelKeyExact`); Kubernetes label keys have at
  most one slash and no tilde, so they are read correctly.
- An agent payload that does not marshal is sent without data and counts as sent (`UnmarshalledChangeIsNotResent`,
  `NoUnsentChange`).
- A handler's tweak runs only when an object is replaced, never when it is first added (`UpdateMeans`).

## Assumptions

- Registered priorities are 0..n-1, one each, and a complete element's dependency has a lower one; this is what
  `newConflationUnit` needs to fill its array.
- PostgreSQL refuses an upsert that names a key twice in one statement (the upserts go in statements of 100 rows).
- First-generation versions have a positive Value, as `SendsAreOrdered` shows of every emitter.
- An event of a type with a dependency carries a dependency version; the source dereferences it unchecked.
- Events given to `SendEvent` carry no chunk extensions, ids that senders set are different, and so are the ids the
  client makes up.
- `messageSizeLimit` is positive (the source divides by it) and payload sizes fit 32 bits, as the extensions do.
- A handler's tweak does not change UIDs (a hypothesis only of the statements about UIDs).

## Model

| member | source | states |
|---|---|---|
| `ConflationModel.NextReady` | manager/pkg/status/conflator/conflation_unit.go:131-148 | the ready element of lowest priority index, none exactly when no element is ready |
| `ConflationModel.ChainBusyMeaning` | manager/pkg/status/conflator/element_complete.go:130-148 | the chain walk ends and answers whether some complete element of the transitive dependency chain is in process |
| `ConflationModel.DispatchRespectsDependencies` | manager/pkg/status/conflator/conflation_unit.go:82-101 | whatever `GetNext` hands out is the lowest-index ready element, nothing in its transitive chain is in process, and its dependency last processed the equal (ExactMatch) or at least the required (AtLeast) value |
| `ConflationModel.Insert` | manager/pkg/status/conflator/conflation_unit.go:56-79 | an insert touches its own slot only, keeps the unit well formed, resets in place what a first-generation version resets, accepts by both version checks, and announces the unit exactly when an accepted event of a complete element leaves something ready |
| `ConflationModel.Queue` | manager/pkg/status/conflator/conflation_unit.go:118-128 | the unit is flagged and put on the channel once, exactly when it was not flagged and some element is ready |
| `ConflationModel.GetNext` | manager/pkg/status/conflator/conflation_unit.go:82-101 | an error exactly when nothing is ready, and then the unit (flag included) is unchanged; otherwise one element goes in process and the flag falls |
| `ConflationModel.ReportResult` | manager/pkg/status/conflator/conflation_unit.go:104-116 | the reporting element alone changes, and for a complete element the unit is flagged afterwards whenever anything is ready |
| `ConflationModel.MetadatasAre` | manager/pkg/status/conflator/conflation_unit.go:151-165 | `getMetadatas` returns exactly what the slots hold |
| `ConflationEffects.ReadyExactly` | manager/pkg/status/conflator/element_complete.go:90-96 | an element is ready exactly when it is complete, has an event neither handled nor failed three times, no complete element of its chain is in process, and its dependency is a complete element that last processed the Value asked for, or at least that Value |
| `ConflationEffects.ReportEffect` | manager/pkg/status/conflator/element_complete.go:107-127 | after a report of a success the element, of either kind, has processed the newer of what it had and the job's version, and otherwise what it had; its event goes exactly when it still holds that version; no other element changes |
| `ConflationEffects.ArrivalEffect` | manager/pkg/status/conflator/element_complete.go:57-88 | an arrival at an element of either kind: taken exactly when of a first generation or newer than what was processed and, for a complete element, held; a first generation sets back what was processed and the held event's version; a taken event replaces what is held, and becomes a job at once for a delta element |
| `ConflationEffects.AttemptEffect` | manager/pkg/status/conflator/workerpool/worker.go:76-93 | an attempt of the handler sets the count of the job's metadata to -1 or one higher, and nothing else of the unit |
| `ConflationEffects.RetriedUntilThree` | manager/pkg/status/conflator/metadata/threshold_metadata.go:99-106 | after a failed report of the event still held, the event stays and is ready again exactly when fewer than three attempts failed and its chain and dependency allow it |
| `ConflationEffects.LastProcessedIsNewest` | manager/pkg/status/conflator/element_complete.go:116-119 | in every run, what an element, of either kind, has processed is the newest version reported as handled since the last first-generation arrival of its type |
| `ConflationEffects.DependentReadyExactly` | manager/pkg/status/conflator/element_complete.go:153-177 | in every run, a dependent pending event with an idle chain and fewer than three failures is ready exactly when its dependency's newest handled version has the Value it asks for, or at least that Value |
| `ConflationRuns.StepInv` | manager/pkg/status/conflator/conflation_unit.go:56-116 | every insert, dispatch, attempt and report, in any state, keeps exclusion, history and job bookkeeping |
| `ConflationRuns.OneJobPerElement` | manager/pkg/status/conflator/element_complete.go:98-109 | in every state of every run a complete element is in process exactly when one job of it is outstanding, never two, and it holds the newest event it accepted |
| `ConflationRuns.RunExtends` | manager/pkg/status/conflator/workerpool/worker.go:62-96 | whatever is enabled continues a run: the invariant excludes no behaviour |
| `ConflationOrder.StepOrder` | manager/pkg/status/conflator/element_complete.go:57-127 | an element keeps 'pending is newer than processed' over a step if and only if the step is not a first-generation arrival that meets a superseded job at least as new |
| `ConflationOrder.PendingIsNewer` | manager/pkg/status/conflator/element_complete.go:57-127 | over runs with such arrivals excluded, a pending event is strictly newer than the last processed version |
| `ConflationOrder.VersionsNeverFall` | manager/pkg/status/conflator/element_complete.go:107-127 | only a first-generation arrival of its own type takes an element's processed or held version back |
| `ConflationOrder.DispatchedNeverFall` | manager/pkg/status/conflator/element_complete.go:98-104 | between first-generation arrivals an element's events are handed out in version order |
| `ConflationQueue.NoLostWakeUp` | manager/pkg/status/conflator/conflation_unit.go:118-128 | in every state of every run the unit is on the channel at most once, and a ready element finds it there, or finds some complete element in process, or the unit stuck |
| `ConflationQueue.ReadyAfterExact` | manager/pkg/status/conflator/element_complete.go:57-96 | what an arrival makes ready, foreseen for every slot from the state before it |
| `ConflationQueue.StepQueueExact` | manager/pkg/status/conflator/conflation_unit.go:82-128 | 'flagged exactly when on the channel once, with something ready' survives a step if and only if it is no arrival after which, judged beforehand, no slot of a flagged unit is ready |
| `ConflationQueue.HarmlessLeavesReady` | manager/pkg/status/conflator/element_complete.go:153-177 | arrivals whose own dependency is met, and which restart nobody's dependency (every arrival, where there are no dependencies), never take readiness away |
| `ConflationQueue.GetNextNeverFails` | manager/pkg/status/conflator/conflation_unit.go:86-97 | in runs of such arrivals `GetNext` never takes an error return |
| `ConflationQueue.DispatchStrands` | manager/pkg/status/dispatcher/conflation_dispatcher.go:83-90 | a dispatch leaves the unit flagged and off the channel exactly when it finds nothing ready |
| `ConflationQueue.StuckExactly` | manager/pkg/status/dispatcher/conflation_dispatcher.go:83-90 | in every run a unit is stuck after a step exactly when it was before, or the step dispatched it with nothing ready |
| `ConflationQueue.StuckForever` | manager/pkg/status/conflator/conflation_unit.go:118-122 | a unit flagged and off the channel never hands out a job again, whatever happens |
| `ConflationQueue.ConflationPreservesMeaning` | manager/pkg/status/conflator/element_complete.go:57-127 | at rest, for overwriting handlers, the state left by the events really handled is the state of handling every accepted event in order, unless the newest was given up or the unit is stranded |
| `ConflationQueue.QuiescentProcessed` | manager/pkg/status/conflator/element_complete.go:90-96 | at rest an element whose dependency is met has dealt with the event it holds |
| `ConflationDraining.StepPotential` | manager/pkg/status/conflator/workerpool/worker.go:76-93 | without inserts the remaining attempts never grow, and every hand-out uses one up |
| `ConflationDraining.DrainingEnds` | manager/pkg/status/conflator/conflation_manager.go:49-62 | from any point of any run, draining hands out at most three jobs per element |
| `ConflationDraining.AtMostThreeHandouts` | manager/pkg/status/conflator/conflation_manager.go:56 | no event of a complete element is ever handed out more than three times |
| `ConflationExamples.StaleJobRejectsNewIncarnation` | manager/pkg/status/conflator/element_complete.go:61-66 | a reachable state in which a job from before the agent's restart makes the element refuse the new incarnation's versions |
| `ConflationExamples.ReplacedBeforeDispatchStrands` | manager/pkg/status/conflator/conflation_unit.go:86-89 | a reachable stranded unit: a ready dependent event is replaced by one whose dependency is unmet before the dispatcher comes by |
| `ConflationUnits.ThresholdMetadata.MarkAsProcessed` | manager/pkg/status/conflator/metadata/threshold_metadata.go:94-96 | the mark in place is the mark on values |
| `ConflationUnits.ThresholdMetadata.MarkAsUnprocessed` | manager/pkg/status/conflator/metadata/threshold_metadata.go:104-106 | one more failure, everything else as before |
| `ConflationUnits.Element.PostProcess` | manager/pkg/status/conflator/element_complete.go:107-127 | both kinds of element, shared version pointer included, as `ConflationModel.PostProcess`, whose effect is `ConflationEffects.ReportEffect` |
| `ConflationUnits.ConflationUnit.CheckVersion` | manager/pkg/status/conflator/element_complete.go:57-81 | `Predicate`: the verdict and the in-place resets are those of the value model, for all elements and all metadata objects |
| `ConflationUnits.ConflationUnit.TakeUp` | manager/pkg/status/conflator/element_complete.go:83-88 | payload and metadata of an accepted event replace the slot's |
| `ConflationUnits.ConflationUnit.ProcessJob` | manager/pkg/status/conflator/element_complete.go:98-104 | the job carries the slot's event and metadata; the flag falls with it |
| `ConflationUnits.ConflationUnit.IsCurrentOrAnyDependencyInProcess` | manager/pkg/status/conflator/element_complete.go:130-148 | the recursion over the heap is the value model's chain walk |
| `ConflationUnits.ConflationUnit.MatchDependency` | manager/pkg/status/conflator/element_complete.go:153-177 | the dependency test on the shared version cells is the value model's |
| `ConflationUnits.ConflationUnit.IsReadyToProcess` | manager/pkg/status/conflator/element_complete.go:90-96 | readiness on the heap is the value model's |
| `ConflationUnits.ConflationUnit.GetNextReadyCompleteElement` | manager/pkg/status/conflator/conflation_unit.go:131-148 | the priority scan finds the lowest ready element |
| `ConflationUnits.ConflationUnit.AddCUToReadyQueueIfNeeded` | manager/pkg/status/conflator/conflation_unit.go:118-128 | the unit is appended to the channel when the value model says so, and only then |
| `ConflationUnits.ConflationUnit.GetNext` | manager/pkg/status/conflator/conflation_unit.go:82-101 | refines `ConflationModel.GetNext`, error return included |
| `ConflationUnits.ConflationUnit.ReportResult` | manager/pkg/status/conflator/conflation_unit.go:104-116 | refines `ConflationModel.ReportResult` |
| `ConflationUnits.ConflationUnit.Insert` | manager/pkg/status/conflator/conflation_unit.go:56-79 | refines `ConflationModel.Insert` and, for a delta element, queues exactly one job when accepted |
| `ConflationUnits.ConflationUnit.AddToReadyQueue` | manager/pkg/status/conflator/element_delta.go:64-67 | complete elements announce the unit, delta elements queue a job of their own |
| `ConflationUnits.ConflationUnit.GetMetadatas` | manager/pkg/status/conflator/conflation_unit.go:151-165 | the metadata objects the elements hold, in priority order |
| `ConflationUnits.NewConflationUnit` | manager/pkg/status/conflator/conflation_unit.go:27-53 | one empty element of the right kind at each registered priority, in whatever order the registrations come |
| `ConflationManagers.ConflationManager.GetConflationUnit` | manager/pkg/status/conflator/conflation_manager.go:74-87 | the hub's unit, or a new one with empty elements in its place and every other unit as it was |
| `ConflationManagers.ConflationManager.NewMetadata` | manager/pkg/status/conflator/metadata/threshold_metadata.go:37-83 | unprocessed metadata of its own with the event's type and position, the version that `VersionFrom` reads from the version text, and as dependency none without a dependency text and otherwise what `VersionFrom` reads from that one |
| `ConflationManagers.ConflationManager.Insert` | manager/pkg/status/conflator/conflation_manager.go:49-62 | an event is dropped exactly when its type is not registered or a version it carries is unreadable (its own must be there); any other is inserted, with new metadata that says what its texts say, into its hub's unit, found or created; what it may change is that unit and its events' versions |
| `ConflationManagers.StampsArrive` | manager/pkg/status/conflator/metadata/threshold_metadata.go:57-66 | metadata made of the texts of any version and dependency version has exactly those two versions |
| `Stamping.StampAndInsert` | manager/pkg/status/conflator/conflation_manager.go:49-62 | emitter and manager one after the other: an event of a registered type is inserted with the emitter's version, and with its dependency's version of that moment as the one it waits for, if it has a dependency |
| `ConflationManagers.ConflationManager.GetMetadatas` | manager/pkg/status/conflator/conflation_manager.go:65-71 | exactly what the slots of all units hold, in whatever order the units come |
| `Committer.RestartUnique` | manager/pkg/status/conflator/conflation_committer.go:113-163 | 'lowest pending offset, else highest processed plus one' determines one offset per partition |
| `Committer.RestartExists` | manager/pkg/status/conflator/conflation_committer.go:113-163 | every partition with metadata has a restart offset |
| `Committer.MetadataToCommit` | manager/pkg/status/conflator/conflation_committer.go:113-163 | for any metadata in any order: a position for exactly the partitions that occur; it is the restart offset, and the position, owner included, of some metadata of the partition, with the offset one higher when nothing on it is pending |
| `Committer.ConflationCommitter.Commit` | manager/pkg/status/conflator/conflation_committer.go:63-111 | the rows are exactly the partitions whose restart offset is past the remembered one, each once, with the owner of the metadata the offset comes from; those offsets are remembered, others stay, whether or not the rows are stored; rows stored by successive commits strictly increase per partition; rows are stored when the database works and no statement names a topic twice; the exact conditions below hold of what was written and of the table |
| `Committer.ConflationCommitter.Advance` | manager/pkg/status/conflator/conflation_committer.go:72-93 | a row for every position past the remembered one, and for no other |
| `Committer.WrittenExactly` | manager/pkg/status/conflator/conflation_committer.go:95-110 | a commit keeps every remembered position written if and only if its rows are stored or it has none |
| `Committer.TableExactly` | manager/pkg/status/conflator/conflation_committer.go:102-110 | a commit keeps every remembered position in the table, whose key is the topic, if and only if it has no rows, or they are stored and no topic has two partitions |
| `Committer.TwoNewPartitionsFail` | pkg/database/models/status.go:64-69 | two partitions of one topic that are new in one commit of at most 100 rows make the whole write fail |
| `Committer.NothingNewTwice` | manager/pkg/status/conflator/conflation_committer.go:72-93 | after a commit, stored or not, the same metadata has nothing new |
| `Committer.FailedCommitIsNotRepeated` | manager/pkg/status/conflator/conflation_committer.go:63-111 | a commit that fails in the database and is repeated writes nothing: its rows are remembered as committed and never written |
| `CommitReadings.PassesExactly` | manager/pkg/status/conflator/conflation_manager.go:65-71 | over all runs of all hubs, read one after the other while they work: the restart offset passes an accepted, unprocessed and unsuperseded event, outstanding then or at any later moment, if and only if the event was not there when its hub was read, some entry read of the partition is at or past it, and every pending entry read lies past it |
| `CommitReadings.CommitSafe` | manager/pkg/status/conflator/conflation_committer.go:113-163 | with offsets arriving in order it never does, at no later moment either, provided no event of the partition reaches a hub already read before another hub that holds an event of it is read |
| `CommitPositions.StepAdvances` | manager/pkg/status/conflator/conflation_unit.go:56-79 | each step replaces what the slots hold by metadata at the same place or later |
| `CommitPositions.PositionNeverFalls` | manager/pkg/status/conflator/conflation_committer.go:113-163 | such a replacement never lowers a partition's restart offset |
| `CommitPositions.PositionsNeverFall` | manager/pkg/status/conflator/conflation_committer.go:113-163 | of metadata read at one moment each, with each hub and type on one partition, the computed positions never decrease along a run |
| `CommitMonotone.FallsExactly` | manager/pkg/status/conflator/conflation_committer.go:63-93 | from one commit to the next, each reading the hubs one after the other: the position computed for a partition falls if and only if the second reading has a pending entry of the partition below the first position |
| `CommitMonotone.ReadingsNeverFall` | manager/pkg/status/conflator/conflation_committer.go:63-93 | and it never falls when no event of the partition reached a hub already read before the first reading had read the other hubs that hold events of it |
| `CommitExamples.ReadingApartPassesPendingEvent` | manager/pkg/status/conflator/conflation_manager.go:65-71 | a run in which reading two units of one partition one after the other yields an offset past a pending event |
| `CommitExamples.PositionFallsAfterReadingApart` | manager/pkg/status/conflator/conflation_manager.go:65-71 | in that run, offsets in order and each hub on its partition, the next commit computes a lower position than the first |
| `CommitDeltas.RunInOrder` | manager/pkg/status/conflator/conflation_manager.go:49-62 | with offsets arriving in order and each hub and type on one partition, what a slot accepts has increasing offsets on one partition |
| `CommitDeltas.SupersededPassedExactly` | manager/pkg/status/conflator/element_delta.go:64-67 | over all such runs, the restart offset passes an accepted event its slot no longer held (for a delta element it may still be queued) if and only if every pending entry read of the partition lies past it |
| `CommitExamples.DeltaCommitPassesQueuedEvent` | manager/pkg/status/conflator/element_delta.go:64-67 | a reachable state in which a delta slot's latest metadata puts the restart offset past an earlier queued event |
| `ChunkTransport.SplitIsWhole` | pkg/transport/producer/generic_producer.go:142-153 | the chunks concatenate to the payload, none is empty or over the limit, all but the last are full, and there is at most one exactly when the payload is within the limit |
| `ChunkTransport.GenericProducer.SplitPayloadIntoChunks` | pkg/transport/producer/generic_producer.go:142-153 | the re-slicing loop is that split |
| `ChunkTransport.WireMeans` | pkg/transport/producer/generic_producer.go:68-79 | send i of an over-long event carries bytes i * limit up to (i + 1) * limit of the payload, as far as there are any, the end of that range as offset and the whole length as size; an event within the limit goes as it is |
| `ChunkTransport.GenericProducer.SendEvent` | pkg/transport/producer/generic_producer.go:50-81 | events within the limit go out as they are; otherwise each chunk carries its cumulative end offset and the total size; an event without an id gets a new one with every send; all up to the first undelivered attempt |
| `ChunkTransport.MessageChunksCollection.Add` | pkg/transport/consumer/message_assembler.go:48-60 | a chunk of a known offset changes nothing; otherwise it joins the set and the running sum stays the length of the collected data |
| `ChunkTransport.MessageChunksCollection.Collect` | pkg/transport/consumer/message_assembler.go:62-76 | sorting and concatenating yields the chunks in ascending offset order, nil when there is no byte |
| `ChunkTransport.MessageAssembler.Assemble` | pkg/transport/consumer/message_assembler.go:93-120 | refines `ChunkModel.Assembled` and `AssembledTo`: completion by size, the finished collection gone from the map, all others untouched |
| `ChunkTransport.MessageAssembler.MessageChunk` | pkg/transport/consumer/message_assembler.go:122-139 | an event is a chunk exactly when it carries both extensions, and the chunk has its id, offset, size and data |
| `ChunkTransport.MessageAssembler.Receive` | pkg/transport/consumer/generic_consumer.go:155-175 | events without both extensions pass; assembled payloads replace the last chunk's data; everything else is swallowed |
| `ChunkModel.ChunkArrives` | pkg/transport/consumer/message_assembler.go:93-117 | any chunk at all: only the first one at an offset counts, and only the size that the collection's first chunk announced; the collection ends exactly when that many bytes are there, coming out unless that is none, and no other collection changes |
| `ChunkModel.CompleteExactlyWithAll` | pkg/transport/consumer/message_assembler.go:107-117 | the size test passes exactly when every chunk of the message is there, and then the data is the message |
| `ChunkModel.AssemblyTracksSeen` | pkg/transport/consumer/message_assembler.go:93-120 | after any stream, the assembler holds for each message exactly the distinct chunks seen since its last completion |
| `ChunkModel.ChunkRoundTrip` | pkg/transport/consumer/message_assembler.go:93-120 | for every stream of chunks of any messages (order, interleaving and duplicates arbitrary) a call returns the payload exactly when it brings the last missing chunk |
| `ChunkModel.DeliveredAtMostScarcest` | pkg/transport/consumer/message_assembler.go:93-120 | no message comes out more often than its scarcest chunk arrived |
| `ChunkModel.CompleteMeansDelivered` | pkg/transport/consumer/message_assembler.go:93-120 | a message all of whose chunks arrived came out, and exactly once if some chunk was never repeated |
| `ChunkModel.DuplicatesBeforeCompletion` | pkg/transport/consumer/message_assembler.go:48-120 | with duplicates only before completion, exactly one delivery, at the last distinct chunk |
| `ChunkDelivery.Outbox.MessageOf` | pkg/transport/consumer/message_assembler.go:122-139 | what SendEvent sends as piece i is read back as chunk i of its message |
| `ChunkDelivery.Outbox.DeliveryOutcome` | pkg/transport/producer/generic_producer.go:50-81 | producer and consumer together, for any events and any order, interleaving and repetition of their sends: a delivery passes on the payload of its event at once when it fits one send, with the last missing chunk when the event has an id, and never otherwise |
| `ChunkDelivery.Outbox.PayloadComesOutExactly` | pkg/transport/consumer/generic_consumer.go:155-175 | once all sends of an event have arrived, its payload has come out if and only if the event has an id or fits one send |
| `ChunkDelivery.Outbox.UnnamedNeverOut` | pkg/transport/producer/generic_producer.go:131-137 | an over-long event without an id never comes out, however its sends are delivered: each chunk arrives under an id of its own |
| `ChunkDelivery.SendAndReceive` | pkg/transport/producer/generic_producer.go:50-81 | `SendEvent` and `Receive` run one after the other: exactly one event with the payload if the event has an id or fits one send, none otherwise |
| `LabelModel.FoldIsFaithful` | manager/pkg/restapis/managedclusters/patch.go:248-296 | for every list of operations and every label map, the folded pair is disjoint and does what the operations do one after the other (section 3 of RFC 6902) |
| `LabelModel.ChangeMeans` | agent/pkg/spec/syncers/clusterlabel_syncer.go:114-122 | what a pair does to each key of a label map: gone if deleted, else its value if the pair sets it, else as it was |
| `LabelModel.EffectDetermines` | manager/pkg/restapis/managedclusters/patch.go:248-296 | a disjoint pair is determined by its effect |
| `LabelModel.LabelKeyExact` | manager/pkg/restapis/managedclusters/patch.go:266-275 | a label key in a path is read as RFC 6901 reads it if and only if it has no ~0 and at most one ~1 |
| `LabelTables.GetLabels` | manager/pkg/restapis/managedclusters/patch.go:248-296 | on every label map the pair, which is disjoint, does what the patches do one after the other, read from their op, path and value; an error is that of the first patch that is not an add or remove of a label |
| `LabelTables.PatchMeans` | manager/pkg/restapis/managedclusters/patch.go:260-293 | for every raw key with no ~0 and at most one ~1, an add at /metadata/labels/ plus the key sets the key, as RFC 6901 reads it, to the value, and a remove there takes it away; any other path, and then any other op, is its own error |
| `LabelTables.FoldPatches` | manager/pkg/restapis/managedclusters/patch.go:260-295 | the loop over the patches is the fold of their operations |
| `LabelTables.FirstErrorDecides` | manager/pkg/restapis/managedclusters/patch.go:263-293 | a bad patch decides the answer, whatever follows it |
| `LabelModel.MergeIsComposition` | manager/pkg/restapis/managedclusters/patch.go:171-195 | for every stored row, patch and label map, the merged row does what the row and then the patch do; disjoint rows stay disjoint |
| `LabelModel.EmptyPatchIsIdentity` | manager/pkg/restapis/managedclusters/patch.go:106-108 | skipping the write of an empty patch loses nothing |
| `LabelModel.TrimKeepsEffect` | manager/pkg/spec/syncers/managedcluster_labels_watcher.go:130-142 | a trim leaves the row's effect on the labels it observed if and only if no trimmed key is also set, so always for disjoint rows |
| `LabelTables.StillInStatus` | manager/pkg/spec/syncers/managedcluster_labels_watcher.go:130-142 | the kept keys are those still observed, and the lengths agree exactly when nothing is trimmed |
| `LabelTables.LabelTable.UpdateRow` | manager/pkg/restapis/managedclusters/patch.go:171-223 | the four loops compute the merge; the write goes through exactly when the version condition, zero dropped, matches |
| `LabelTables.LabelTable.CreateRow` | manager/pkg/restapis/managedclusters/patch.go:120-138 | a first row at version 0 holding the patch, refused when there is a row |
| `LabelTables.LabelTable.UpdateLabels` | manager/pkg/restapis/managedclusters/patch.go:103-169 | whatever other writers do between its read and its write and wherever the database fails: nothing for an empty patch, otherwise success exactly when nothing fails and the row read still passes for the current one, and then the row is the patch merged into the row read |
| `LabelTables.LabelTable.TrimRow` | manager/pkg/spec/syncers/managedcluster_labels_watcher.go:130-156 | no write when nothing is trimmed; otherwise a write of the keys alone, exactly when the version is still the one read |
| `LabelTables.GetKeys` | manager/pkg/restapis/managedclusters/patch.go:236-246 | every key once, in some order |
| `LabelTables.ManagedCluster.Enforce` | agent/pkg/spec/syncers/clusterlabel_syncer.go:114-122 | set, then delete: the effect of the row on the cluster's labels |
| `LabelRuns.StepFaithful` | manager/pkg/restapis/managedclusters/patch.go:206-209 | a step keeps 'the row is the fold of the committed writes, one version each' if and only if it is not a write from version 0 on a row that has moved on |
| `LabelRuns.PatchWriteMeans` | manager/pkg/restapis/managedclusters/patch.go:206-222 | a patcher's write from the current row commits, as the newest write, and the row then does what it did and then the patch; from a row at version 1 or later that has moved on it writes nothing |
| `LabelRuns.TrimWriteMeans` | manager/pkg/spec/syncers/managedcluster_labels_watcher.go:130-156 | a trimmer's write from the current row commits exactly when some deleted key is no longer observed, and drops just those keys; from a row that has moved on it writes nothing |
| `LabelRuns.FiveTries` | manager/pkg/restapis/managedclusters/patch.go:82-92 | in every run a patcher has given up exactly when five of its tries failed, and never fails more often |
| `LabelRuns.NoLostLabelUpdate` | manager/pkg/restapis/managedclusters/patch.go:82-92 | from version 1 on, any interleaving of any patchers and trimmers leaves the fold of the committed writes in version order, and each patch is in it exactly once when its patcher succeeded with something to write, never otherwise |
| `LabelRuns.RowMeansPatchesInOrder` | manager/pkg/spec/syncers/managedcluster_labels_watcher.go:107-164 | whatever trims come between, the final row does to every label map what the first row and then the patches do, except that a deletion some trim dropped may be missing |
| `LabelRuns.VersionZeroLosesUpdate` | manager/pkg/restapis/managedclusters/patch.go:206-209 | at version 0 any two patchers that both read before they write report success, and what only the first one set is gone |
| `AgentModel.First` | agent/pkg/status/generic/generic_handler.go:86-106 | the first match, none exactly when nothing matches |
| `AgentModel.UpdateExactly` | agent/pkg/status/generic/generic_handler.go:38-68 | a change is reported exactly when the handler should take the object and either no object has its UID or the first that has differs in resource version and, for a spec handler, in generation; it is then appended as it is, or replaced in its place by the tweaked new one |
| `AgentModel.DeleteExactly` | agent/pkg/status/generic/generic_handler.go:70-84 | a deletion is reported exactly when the handler should take it and some object has the UID or, for an object without UID, the namespace and name; the first such object goes and nothing else |
| `AgentModel.UpdateMeans` | agent/pkg/status/generic/generic_handler.go:38-68 | after a reported update the bundle has the new object (tweaked when it replaces one) under its UID, all others as before, and UIDs stay unique |
| `AgentModel.DeleteMeans` | agent/pkg/status/generic/generic_handler.go:70-84 | after a reported delete the object found is gone, all others stay, and UIDs stay unique |
| `AgentModel.NoUnsentChange` | agent/pkg/status/generic/multi_event_syncer.go:152-177 | in every run short of 2^64 steps, with nothing to send, the last sent bundle (initially the empty one) is the current one if and only if that event had its data, and no UID occurs twice |
| `AgentModel.ChangeIsSent` | agent/pkg/status/generic/generic_emitter.go:48-66 | after a reported change the next sync that goes through sends the new bundle |
| `AgentModel.ResyncIsSent` | agent/pkg/spec/syncers/resync_syncer.go:26-47 | after a resync the next sync that goes through sends the bundle, changed or not, and then there is nothing to send |
| `AgentModel.SendsAreOrdered` | agent/pkg/status/generic/generic_emitter.go:52-66 | generations count the sends from 0, values are positive and strictly grow |
| `AgentModel.UnmarshalledChangeIsNotResent` | agent/pkg/status/generic/multi_event_syncer.go:159-176 | at the end of any run, a pending payload that does not marshal goes out without data, and no number of further syncs sends the bundle |
| `AgentModel.WrapHidesChange` | pkg/bundle/version/version.go:95-97 | an increment after a send makes the emitter send unless the value wraps |
| `AgentSyncer.GenericHandler.Update` | agent/pkg/status/generic/generic_handler.go:38-68 | a change is reported exactly when it should be, as in `AgentModel.UpdateExactly`, with the effect stated there; otherwise the bundle is as before |
| `AgentSyncer.GenericHandler.Delete` | agent/pkg/status/generic/generic_handler.go:70-84 | a deletion is reported exactly when it should be, as in `AgentModel.DeleteExactly`, with the effect stated there; otherwise the bundle is as before |
| `AgentSyncer.GenericHandler.GetObjectIndexByUID` | agent/pkg/status/generic/generic_handler.go:86-93 | the scan returns the first object of that UID |
| `AgentSyncer.GenericHandler.GetObjectIndexByObj` | agent/pkg/status/generic/generic_handler.go:95-106 | by UID, or by namespace and name when there is none |
| `AgentSyncer.GenericEmitter.ToCloudEvent` | agent/pkg/status/generic/generic_emitter.go:68-78 | the version text on the event reads back as the current version |
| `AgentSyncer.EmitterHandler.PostSend` | agent/pkg/status/generic/generic_emitter.go:52-58 | the hook works on the bundle, then the next generation becomes current and last sent |
| `AgentSyncer.MultiEventSyncer.UpdateObject` | agent/pkg/status/generic/multi_event_syncer.go:110-119 | every emitter makes its own update step, none disturbs another |
| `AgentSyncer.MultiEventSyncer.DeleteObject` | agent/pkg/status/generic/multi_event_syncer.go:121-130 | every emitter makes its own delete step |
| `AgentSyncer.MultiEventSyncer.SyncEvents` | agent/pkg/status/generic/multi_event_syncer.go:152-177 | every emitter makes its own sync step; a failed send changes nothing and does not stop the others; a dependent emitter stamps the version its dependency has after its own turn |
| `AgentModel.TurnLeavesSentValue` | agent/pkg/status/generic/generic_emitter.go:68-78 | an emitter leaves its turn with the Value of its last sent event exactly when its send has not just failed, so a dependent event stamped then asks for a Value that was sent |
| `Protocol.LaterIsNewer` | pkg/bundle/version/version.go:51-65 | along an emitter's sends NewerThan is the order of sending, and only the first one is of the first generation |
| `Protocol.ArrivalDecided` | manager/pkg/status/conflator/element_complete.go:57-81 | an element in order accepts an event if and only if it is the first, of a first generation (a repeated first send included, wrongly), or newer than what the element holds |
| `Protocol.ArrivalKeepsOrder` | manager/pkg/status/conflator/element_complete.go:57-81 | an orderly arrival, a restarted agent's first send too, leaves the element in order, holding the event if it was accepted |
| `Protocol.AgentToManager` | manager/pkg/status/conflator/element_complete.go:57-81 | any runs of an emitter, one for each start of its agent, delivered to a fresh element in any run of the unit, sends perhaps lost, and repeated but for an incarnation's first: a delivery is accepted exactly when it is new, and a repetition changes nothing of what was accepted |
| `Versions.Stamp.NewerThan` | pkg/bundle/version/version.go:51-70 | a strict total order: greater rank of (Generation, Value) |
| `Versions.VersionTextRoundTrip` | pkg/bundle/version/version.go:22-39 | `VersionFrom(v.String())` is v for all 64-bit pairs |
| `Versions.VersionFromAccepts` | pkg/bundle/version/version.go:22-39 | exactly two in-range digit runs around one dot are versions |
| `Decimals.FirstDigitCounts` | pkg/bundle/version/version.go:22-39 | the first of n + 1 digits counts its value times ten to the n |
| `Versions.Version.Incr` | pkg/bundle/version/version.go:95-97 | Value grows by one modulo 2^64 |
| `Versions.Version.Next` | pkg/bundle/version/version.go:100-102 | Generation grows by one modulo 2^64, Value stays |
| `Versions.Version.Reset` | pkg/bundle/version/version.go:105-108 | back to 0.0, in place |
| `Durations.LeadingInt` | pkg/utils/time.go:208-226 | the exact number of the leading digits when it is at most 2^63, an error otherwise, no 64-bit wrap on the way |
| `Durations.SumOfTerms` | pkg/utils/time.go:62-66 | every list of numbers with units denotes its exact total |
| `Durations.TermsOfSum` | pkg/utils/time.go:62-66 | nothing else denotes anything |
| `Durations.TotalMeans` | pkg/utils/time.go:17-22 | the total is the sum of the month numbers times 30 days plus that of the year numbers times 365 days, in nanoseconds |
| `Durations.SignedSum` | pkg/utils/time.go:62-159 | a list of numbers with units denotes its total, also after a plus, and minus its total after a minus |
| `Durations.OnlySignedSums` | pkg/utils/time.go:62-159 | any other text that denotes something is a zero without a unit, signed or not |
| `Durations.WorthIsMultiple` | pkg/utils/time.go:17-22 | every number of months or years is a multiple of three nanoseconds, hence never 2^63, and the division guard is exact |
| `Durations.ParseDuration` | pkg/utils/time.go:62-159 | for texts without a point: the exact signed sum when its magnitude is below 2^63, an error otherwise and for every other text; all sums are 64-bit without wrap |

## Left out

- Kafka, CloudEvents, GORM and SQL, Kubernetes clients, gin, TLS, the operator and samples: input and output, or thin wrappers.
- Statistics and logging of the conflator, which no state depends on.
- Channel capacities and blocking: channels are unbounded; each locked method is one step.
- ConflationManagers.ConflationManager.GetMetadatas: one moment for all units; the reading unit by unit while others work is `CommitReadings.ReadFrom`.
- ConflationManagers.ConflationManager.Insert: speaks of the hub's own unit; that the others stay as they are is in its modifies clause, and over all hubs the step is `ManagerRuns.HubStep`.
- The worker's early return when the database lock fails: it never reports, so its element stays in process; in the model this is a run in which the report does not come.
- The worker's five-minute timeout and its sleeps: an attempt may follow any attempt that failed, so counts may pass three while hand-outs do not.
- ConflationUnits.Element: one class stands for complete and delta elements, with the fields a delta element lacks unused, instead of two classes behind an interface.
- ConflationUnits.ConflationUnit.Insert: the metadata object is in the store before the call, as it has been created by then; runs over many units are stated on values only.
- ConflationOrder.PendingIsNewer: says nothing of runs in which a first-generation event meets a superseded job at least as new, for which it is false.
- CommitReadings.CommitSafe: speaks of each slot's latest accepted event; what a commit does to earlier ones is `CommitDeltas.SupersededPassedExactly`.
- Committer.ConflationCommitter.Commit: `written` and `table` begin empty, so rows left by an earlier manager process are not in them.
- Committer.MetadataToCommit: the partition key is a pair rather than the text topic@partition, and offsets are unbounded, so the step past offset 2^63-1 is not modelled.
- ChunkTransport.MessageChunksCollection.Collect: releasing the chunks' bytes for the garbage collector is not modelled.
- Eviction of incomplete collections: the source has none.
- AgentSyncer.GenericEmitter.ToCloudEvent: source and topic of the event are not modelled, and a Kafka position stands for them at the manager.
- The CloudEvents client itself (its source is not part of this model): `WithUUIDs` is taken to fill an empty id on the copy it sends.
- LabelTables.LabelTable.UpdateRow: the table holds the row of one cluster; database and JSON errors are in `UpdateLabels` and the protocol step `PatchError`.
- LabelRuns.NoLostLabelUpdate: the runs start from an existing row; creating it is `LabelTables.LabelTable.CreateRow`.
- Leaf-hub-name filling, and the database lock both writers take: every interleaving is allowed.
- The HTTP answers of the patch handler, which reports success after its internal error.
- AgentSyncer.GenericHandler.Update: objects are values, so an object shared by several handlers is not changed for all of them by one handler's tweak.
- A dependent emitter that comes before its dependency in the syncer's list, or in another syncer: its stamp is the dependency's version at that moment, and nothing more is said.
- Resync commands, which increment a version outside the syncer's lock, are steps between sends.
- Fractions in `ParseDuration`, and `ParseRetentionMonth`: floating point and regular expressions.
- Pagination, watch loops, condition and phase helpers: easy or library-bound.
