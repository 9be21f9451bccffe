/**
  The conflation unit as the manager runs it: elements, metadata and version cells that are shared by
  pointer and changed in place. Every method is tied to its function in ConflationModel, with metadata
  objects as their own names.
 */
module ConflationUnits {
  import opened Basics
  import opened Versions
  import opened ConflationModel

  class ThresholdMetadata {
    const eventType: string
    const position: Position
    const version: Version
    const dependencyVersion: Option<Stamp>
    var count: int

    function Get(): Meta
      reads this, version
    {
      Meta(eventType, position, version.Get(), dependencyVersion, count)
    }

    constructor (eventType: string, position: Position, v: Stamp, dependencyVersion: Option<Stamp>)
      ensures Get() == Meta(eventType, position, v, dependencyVersion, 0)
      ensures fresh(version)
    {
      this.eventType, this.position, this.dependencyVersion := eventType, position, dependencyVersion;
      version := new Version(v);
      count := 0;
    }

    predicate Processed()
      reads this
    {
      count == -1 || count >= MAX_RETRY
    }

    method MarkAsProcessed()
      modifies this
      ensures Get() == old(Get()).Marked(true) && count == -1
    {
      count := -1;
    }

    method MarkAsUnprocessed()
      modifies this
      ensures Get() == old(Get()).Marked(false) && count == old(count) + 1
    {
      count := count + 1;
    }
  }

  /** A complete or a delta element; what a delta element lacks stays unused. */
  class Element {
    const mode: SyncMode
    const eventType: string
    const dependency: Option<Dependency>
    var isInProcess: bool
    var lastProcessedVersion: Version
    var event: Option<Event>
    var metadata: ThresholdMetadata?

    constructor (mode: SyncMode, eventType: string, dependency: Option<Dependency>)
      ensures AsSlot() == Slot(mode, eventType, dependency, false, ZERO, None, None)
      ensures fresh(lastProcessedVersion)
    {
      this.mode, this.eventType, this.dependency := mode, eventType, dependency;
      isInProcess, event, metadata := false, None, null;
      lastProcessedVersion := new Version(ZERO);
    }

    ghost function AsSlot(): Slot<ThresholdMetadata>
      reads this, lastProcessedVersion
    {
      Slot(mode, eventType, dependency, isInProcess, lastProcessedVersion.Get(), event, Held())
    }

    function Held(): Option<ThresholdMetadata>
      reads this
    {
      if metadata == null then None
      else
        var m: ThresholdMetadata := metadata;
        Some(m)
    }

    ghost function HeldVersion(): set<Version>
      reads this
    {
      if metadata == null then {} else {metadata.version}
    }

    /** Predicate, its answer. */
    predicate IsNew(v: Version)
      reads this, v, lastProcessedVersion, metadata, HeldVersion()
    {
      && v.NewerThan(lastProcessedVersion)
      && (mode.CompleteState? && metadata != null ==> v.NewerThan(metadata.version))
    }

    /** PostProcess: the element may afterwards share the metadata's version cell. */
    method PostProcess(metadata: ThresholdMetadata, failed: bool, ghost ms: Store<ThresholdMetadata>)
      requires metadata in ms && ms[metadata] == metadata.Get()
      requires this.metadata != null ==> this.metadata in ms && ms[this.metadata] == this.metadata.Get()
      requires mode.CompleteState? ==> this.metadata != null
      modifies this
      ensures AsSlot() == ConflationModel.PostProcess(old(AsSlot()), ms, metadata, failed)
      ensures lastProcessedVersion == old(lastProcessedVersion) || lastProcessedVersion == metadata.version
      ensures Held() == old(Held())
    {
      if mode.CompleteState? {
        isInProcess := false;
      }
      if failed {
        return;
      }
      if metadata.Processed() && metadata.version.NewerThan(lastProcessedVersion) {
        lastProcessedVersion := metadata.version;
      }
      if mode.CompleteState? && metadata.version.Get() == this.metadata.version.Get() {
        event := None;
      }
    }
  }

  datatype ConflationJob = ConflationJob(event: Event, metadata: ThresholdMetadata, reporter: ConflationUnit)

  /** The dispatcher's two channels, oldest entry first. */
  class ReadyQueue {
    var units: seq<ConflationUnit>
    var deltaJobs: seq<ConflationJob>

    constructor ()
      ensures units == [] && deltaJobs == []
    {
      units, deltaJobs := [], [];
    }
  }

  class ConflationUnit {
    const elements: seq<Element>
    const priority: map<string, nat>
    const readyQueue: ReadyQueue
    var isInReadyQueue: bool

    constructor (elements: seq<Element>, priority: map<string, nat>, readyQueue: ReadyQueue)
      ensures this.elements == elements && this.priority == priority && this.readyQueue == readyQueue && !isInReadyQueue
    {
      this.elements, this.priority, this.readyQueue := elements, priority, readyQueue;
      isInReadyQueue := false;
    }

    ghost function ElementSet(): set<Element> {
      set e | e in elements
    }

    /** All that inserting an event may change, but for the event's own metadata. */
    ghost function Touched(ms: Store<ThresholdMetadata>): set<object> {
      {this, readyQueue} + ElementSet() + set k | k in ms.Keys :: k.version
    }

    /**
      Objects are where the source leaves them: elements are distinct, each metadata object has its own
      version cell, and an element's lastProcessedVersion is its own cell or that of an event of its type.
     */
    ghost predicate Apart(known: set<ThresholdMetadata>)
      reads elements
    {
      && (forall i, j :: 0 <= i < j < |elements| ==>
            && elements[i] != elements[j]
            && elements[i].eventType != elements[j].eventType
            && elements[i].lastProcessedVersion != elements[j].lastProcessedVersion)
      && (forall m, n :: m in known && n in known && m != n ==> m.version != n.version)
      && (forall i, m :: 0 <= i < |elements| && m in known && elements[i].lastProcessedVersion == m.version ==>
            m.eventType == elements[i].eventType)
    }

    /** The heap holds exactly the unit u with the metadata store ms: the simulation every method keeps. */
    ghost predicate Mirrors(u: Unit<ThresholdMetadata>, ms: Store<ThresholdMetadata>)
      reads this, readyQueue, elements, set e | e in elements :: e.lastProcessedVersion
      reads ms.Keys, set m | m in ms.Keys :: m.version
    {
      && Apart(ms.Keys)
      && |u.slots| == |elements| && u.priority == priority
      && u.inReadyQueue == isInReadyQueue && u.queued == multiset(readyQueue.units)[this]
      && (forall i :: 0 <= i < |elements| ==> u.slots[i] == elements[i].AsSlot())
      && (forall m :: m in ms ==> ms[m] == m.Get())
    }

    // -------------------------------------------------------------- readiness

    predicate IsCurrentOrAnyDependencyInProcess(p: nat, ghost u: Unit<ThresholdMetadata>,
                                                ghost ms: Store<ThresholdMetadata>): (busy: bool)
      reads this, readyQueue, elements, set e | e in elements :: e.lastProcessedVersion
      reads ms.Keys, set m | m in ms.Keys :: m.version
      requires WellFormed(u, ms) && Mirrors(u, ms) && p < |elements| && elements[p].mode.CompleteState?
      ensures busy == ChainBusy(u, p)
      decreases p
    {
      var e := elements[p];
      assert u.slots[p] == e.AsSlot();
      if e.isInProcess then true
      else if e.dependency.None? then false
      else
        var index := PriorityOf(priority, e.dependency.value.eventType);
        assert index == DependencyIndex(u, p);
        assert u.slots[index] == elements[index].AsSlot();
        elements[index].mode.CompleteState? && IsCurrentOrAnyDependencyInProcess(index, u, ms)
    }

    predicate MatchDependency(p: nat, ghost u: Unit<ThresholdMetadata>,
                              ghost ms: Store<ThresholdMetadata>): (matched: bool)
      reads this, readyQueue, elements, set e | e in elements :: e.lastProcessedVersion
      reads ms.Keys, set m | m in ms.Keys :: m.version
      requires WellFormed(u, ms) && Mirrors(u, ms) && p < |elements| && elements[p].mode.CompleteState?
      requires elements[p].metadata != null
      ensures matched == MatchesDependency(u, ms, p)
    {
      var e := elements[p];
      assert u.slots[p] == e.AsSlot();
      if e.dependency.None? then true
      else
        var index := PriorityOf(priority, e.dependency.value.eventType);
        assert index == DependencyIndex(u, p);
        var d := elements[index];
        assert u.slots[index] == d.AsSlot();
        assert SlotOk(u.slots[p], ms);
        if d.mode.DeltaState? then false
        else if e.dependency.value.kind == ExactMatch then
          e.metadata.dependencyVersion.value.EqualValue(d.lastProcessedVersion.Get())
        else
          !e.metadata.dependencyVersion.value.NewerValueThan(d.lastProcessedVersion.Get())
    }

    predicate IsReadyToProcess(p: nat, ghost u: Unit<ThresholdMetadata>,
                               ghost ms: Store<ThresholdMetadata>): (ready: bool)
      reads this, readyQueue, elements, set e | e in elements :: e.lastProcessedVersion
      reads ms.Keys, set m | m in ms.Keys :: m.version
      requires WellFormed(u, ms) && Mirrors(u, ms) && p < |elements| && elements[p].mode.CompleteState?
      ensures ready == IsReady(u, ms, p)
    {
      var e := elements[p];
      assert u.slots[p] == e.AsSlot() && SlotOk(u.slots[p], ms);
      && e.event.Some? && e.metadata != null
      && !e.isInProcess
      && !e.metadata.Processed()
      && !IsCurrentOrAnyDependencyInProcess(p, u, ms)
      && MatchDependency(p, u, ms)
    }

    method GetNextReadyCompleteElement(ghost u: Unit<ThresholdMetadata>, ghost ms: Store<ThresholdMetadata>)
      returns (index: Option<nat>)
      requires WellFormed(u, ms) && Mirrors(u, ms)
      ensures index == NextReady(u, ms)
    {
      index := None;
      var i := 0;
      while i < |elements| && index.None?
        invariant 0 <= i <= |elements|
        invariant forall p :: 0 <= p < i ==> (IsReady(u, ms, p) <==> index == Some(p))
        invariant index.Some? ==> index.value == i - 1
      {
        assert u.slots[i] == elements[i].AsSlot();
        if elements[i].mode.CompleteState? && IsReadyToProcess(i, u, ms) {
          index := Some(i);
        }
        i := i + 1;
      }
      NextReadyIs(u, ms, index);
    }

    // -------------------------------------------------------------- the locked methods

    /** The unit stands in line. */
    method Announce(ghost u: Unit<ThresholdMetadata>, ghost ms: Store<ThresholdMetadata>)
      requires Mirrors(u, ms)
      modifies this, readyQueue
      ensures Mirrors(u.(inReadyQueue := true, queued := u.queued + 1), ms)
      ensures readyQueue.deltaJobs == old(readyQueue.deltaJobs) && readyQueue.units == old(readyQueue.units) + [this]
    {
      readyQueue.units := readyQueue.units + [this];
      isInReadyQueue := true;
    }

    method AddCUToReadyQueueIfNeeded(ghost u: Unit<ThresholdMetadata>, ghost ms: Store<ThresholdMetadata>)
      requires WellFormed(u, ms) && Mirrors(u, ms)
      modifies this, readyQueue
      ensures Mirrors(Queue(u, ms), ms)
      ensures readyQueue.deltaJobs == old(readyQueue.deltaJobs)
      ensures readyQueue.units == old(readyQueue.units) +
                if Queue(u, ms).inReadyQueue && !u.inReadyQueue then [this] else []
    {
      if isInReadyQueue {
        return;
      }
      var index := GetNextReadyCompleteElement(u, ms);
      if index.Some? {
        Announce(u, ms);
      }
    }

    /** ProcessJob: the element goes in process and its payload into a job. */
    method ProcessJob(p: nat, ghost u: Unit<ThresholdMetadata>, ghost ms: Store<ThresholdMetadata>)
      returns (job: ConflationJob)
      requires Mirrors(u, ms) && p < |elements| && elements[p].event.Some? && elements[p].metadata != null
      modifies this, elements[p]
      ensures Some(job.event) == u.slots[p].event && Some(job.metadata) == u.slots[p].metadata && job.reporter == this
      ensures Mirrors(WithSlot(u, p, u.slots[p].(inProcess := true)).(inReadyQueue := false), ms)
    {
      var e := elements[p];
      assert u.slots[p] == e.AsSlot();
      isInReadyQueue := false;
      e.isInProcess := true;
      job := ConflationJob(e.event.value, e.metadata, this);
    }

    /** GetNext: an error leaves the unit as it is, flag included. */
    method GetNext(ghost u: Unit<ThresholdMetadata>, ghost ms: Store<ThresholdMetadata>)
      returns (job: Option<ConflationJob>)
      requires WellFormed(u, ms) && Mirrors(u, ms)
      modifies this, elements
      ensures match ConflationModel.GetNext(u, ms)
              case NoneReady => job == None && Mirrors(u, ms)
              case Handed(_, event, metadata, unit) =>
                job == Some(ConflationJob(event, metadata, this)) && Mirrors(unit, ms)
    {
      var index := GetNextReadyCompleteElement(u, ms);
      if index.None? {
        return None;
      }
      assert u.slots[index.value] == elements[index.value].AsSlot();
      var handed := ProcessJob(index.value, u, ms);
      job := Some(handed);
    }

    /** One element changed, and at most took over the version cell of an event of its own type. */
    method FinishElement(p: nat, metadata: ThresholdMetadata, failed: bool, ghost u: Unit<ThresholdMetadata>,
                         ghost ms: Store<ThresholdMetadata>)
      requires Mirrors(u, ms) && p < |elements| && metadata in ms && metadata.eventType == elements[p].eventType
      requires elements[p].metadata != null ==> elements[p].metadata in ms
      requires elements[p].mode.CompleteState? ==> elements[p].metadata != null
      modifies elements[p]
      ensures u.slots[p].metadata.Some? ==> u.slots[p].metadata.value in ms
      ensures u.slots[p].IsComplete() ==> u.slots[p].metadata.Some?
      ensures Mirrors(WithSlot(u, p, ConflationModel.PostProcess(u.slots[p], ms, metadata, failed)), ms)
    {
      assert u.slots[p] == elements[p].AsSlot();
      elements[p].PostProcess(metadata, failed, ms);
      assert Apart(ms.Keys);
    }

    method ReportResult(metadata: ThresholdMetadata, failed: bool, ghost u: Unit<ThresholdMetadata>,
                        ghost ms: Store<ThresholdMetadata>)
      requires WellFormed(u, ms) && Mirrors(u, ms)
      requires metadata in ms && metadata.eventType in priority
      requires var s := u.slots[priority[metadata.eventType]]; s.IsComplete() ==> s.metadata.Some?
      modifies this, readyQueue, elements
      ensures ms[metadata].eventType == metadata.eventType
      ensures Mirrors(ConflationModel.ReportResult(u, ms, metadata, failed), ms)
    {
      assert ms[metadata] == metadata.Get();
      ReportResultIs(u, ms, metadata, failed);
      var p := PriorityOf(priority, metadata.eventType);
      assert u.slots[p] == elements[p].AsSlot() && SlotOk(u.slots[p], ms);
      FinishElement(p, metadata, failed, u, ms);
      if elements[p].mode.CompleteState? {
        AddCUToReadyQueueIfNeeded(WithSlot(u, p, ConflationModel.PostProcess(u.slots[p], ms, metadata, failed)), ms);
      }
    }

    ghost predicate Fresh(m: ThresholdMetadata, ms: Store<ThresholdMetadata>)
      reads elements
    {
      && m !in ms
      && (forall k :: k in ms ==> k.version != m.version)
      && (forall i :: 0 <= i < |elements| ==> elements[i].lastProcessedVersion != m.version)
    }

    /** Predicate's reset of element p. */
    method ResetElement(p: nat, ghost u: Unit<ThresholdMetadata>, ghost ms: Store<ThresholdMetadata>)
      requires Mirrors(u, ms) && p < |elements|
      modifies elements[p]
      ensures Mirrors(WithSlot(u, p, u.slots[p].(lastProcessed := ZERO)), ms)
      ensures elements[p].metadata == old(elements[p].metadata) && fresh(elements[p].lastProcessedVersion)
    {
      assert u.slots[p] == elements[p].AsSlot();
      elements[p].lastProcessedVersion := new Version(ZERO);
    }

    /** Predicate's reset, in place, of the version of what element p holds. */
    method ResetHeld(p: nat, ghost u: Unit<ThresholdMetadata>, ghost ms: Store<ThresholdMetadata>)
      requires Mirrors(u, ms) && p < |elements| && HeldApart(p, ms) && elements[p].metadata != null
      requires elements[p].lastProcessedVersion != elements[p].metadata.version
      modifies elements[p].metadata.version
      ensures Mirrors(u, ms[elements[p].metadata := ms[elements[p].metadata].(version := ZERO)])
    {
      var m: ThresholdMetadata := elements[p].metadata;
      m.version.Reset();
    }

    /** Predicate of element p on the version of m: the resets, then the comparisons. */
    method CheckVersion(p: nat, m: ThresholdMetadata, ghost u: Unit<ThresholdMetadata>,
                        ghost ms: Store<ThresholdMetadata>) returns (accepted: bool)
      requires Mirrors(u, ms) && p < |elements| && m in ms && HeldApart(p, ms) && elements[p].metadata != m
      modifies elements[p], elements[p].HeldVersion()
      ensures u.slots[p].metadata.Some? ==> u.slots[p].metadata.value in ms
      ensures accepted == Accepts(u.slots[p], ms, ms[m].version)
      ensures Mirrors(WithSlot(u, p, ResetBy(u.slots[p], ms[m].version)), StoreResetBy(u.slots[p], ms, ms[m].version))
    {
      ghost var s, v, u', ms' := u.slots[p], ms[m].version, u, ms;
      assert s == elements[p].AsSlot() && v == m.version.Get();
      if m.version.InitGen() {
        ResetElement(p, u, ms);
        u' := WithSlot(u, p, ResetBy(s, v));
        if elements[p].mode.CompleteState? && elements[p].metadata != null {
          ResetHeld(p, u', ms);
          ms' := StoreResetBy(s, ms, v);
        }
      }
      assert u' == WithSlot(u, p, ResetBy(s, v)) && ms' == StoreResetBy(s, ms, v);
      assert u'.slots[p] == elements[p].AsSlot() && ms'[m] == m.Get();
      accepted := elements[p].IsNew(m.version);
    }

    /** The version cell of what element p holds is no other element's and no other event's. */
    ghost predicate HeldApart(p: nat, ms: Store<ThresholdMetadata>)
      requires p < |elements|
      reads elements
    {
      elements[p].metadata != null ==>
        && elements[p].metadata in ms
        && (forall i :: 0 <= i < |elements| && i != p ==>
              elements[i].lastProcessedVersion != elements[p].metadata.version)
        && (forall k :: k in ms && k != elements[p].metadata ==> k.version != elements[p].metadata.version)
    }

    lemma HeldIsApart(p: nat, u: Unit<ThresholdMetadata>, ms: Store<ThresholdMetadata>)
      requires Mirrors(u, ms) && p < |elements| && SlotOk(u.slots[p], ms)
      ensures u.slots[p] == elements[p].AsSlot() && HeldApart(p, ms)
    {
      assert u.slots[p] == elements[p].AsSlot();
      if u.slots[p].metadata.Some? {
        var h := u.slots[p].metadata.value;
        assert ms[h] == h.Get();
      }
    }

    /** AddToReadyQueue, the payload part: the element takes up the event. */
    method TakeUp(p: nat, event: Event, m: ThresholdMetadata, ghost u: Unit<ThresholdMetadata>,
                  ghost ms: Store<ThresholdMetadata>)
      requires Mirrors(u, ms) && p < |elements| && m in ms
      modifies elements[p]
      ensures Mirrors(WithSlot(u, p,
                               if u.slots[p].IsComplete() then u.slots[p].(event := Some(event), metadata := Some(m))
                                     else u.slots[p].(metadata := Some(m))), ms)
    {
      assert u.slots[p] == elements[p].AsSlot();
      if elements[p].mode.CompleteState? {
        elements[p].event := Some(event);
      }
      elements[p].metadata := m;
    }

    /** A metadata object the unit has not seen joins the store. */
    lemma Joins(m: ThresholdMetadata, u: Unit<ThresholdMetadata>, ms: Store<ThresholdMetadata>)
      requires Mirrors(u, ms) && Fresh(m, ms)
      ensures Mirrors(u, ms[m := m.Get()])
    {
    }

    /** Version check and payload of an insert, before the ready queue. */
    method Offer(p: nat, event: Event, m: ThresholdMetadata, ghost u: Unit<ThresholdMetadata>,
                 ghost ms: Store<ThresholdMetadata>)
      returns (accepted: bool)
      requires Mirrors(u, ms) && p < |elements| && m in ms && SlotOk(u.slots[p], ms) && u.slots[p].metadata != Some(m)
      modifies elements[p], elements[p].HeldVersion()
      ensures accepted == Accepts(u.slots[p], ms, ms[m].version)
      ensures Mirrors(WithSlot(u, p, InsertedSlot(u.slots[p], ms, event, m)),
                      StoreResetBy(u.slots[p], ms, ms[m].version))
    {
      HeldIsApart(p, u, ms);
      accepted := CheckVersion(p, m, u, ms);
      if accepted {
        ghost var u' := WithSlot(u, p, ResetBy(u.slots[p], ms[m].version));
        TakeUp(p, event, m, u', StoreResetBy(u.slots[p], ms, ms[m].version));
        assert WithSlot(u', p, InsertedSlot(u.slots[p], ms, event, m)) ==
          WithSlot(u, p, InsertedSlot(u.slots[p], ms, event, m));
      }
    }

    /** An accepted event goes to the ready queue: through the unit for a complete element, as a job for a delta one. */
    method AddToReadyQueue(p: nat, event: Event, m: ThresholdMetadata, ghost u: Unit<ThresholdMetadata>,
                           ghost ms: Store<ThresholdMetadata>)
      requires WellFormed(u, ms) && Mirrors(u, ms) && p < |elements|
      modifies this, readyQueue
      ensures Mirrors(if u.slots[p].IsComplete() then Queue(u, ms) else u, ms)
      ensures readyQueue.deltaJobs == old(readyQueue.deltaJobs) + if u.slots[p].IsComplete() then []
              else [ConflationJob(event, m, this)]
    {
      assert u.slots[p] == elements[p].AsSlot();
      if elements[p].mode.CompleteState? {
        AddCUToReadyQueueIfNeeded(u, ms);
      } else {
        AddDeltaJob(ConflationJob(event, m, this), u, ms);
      }
    }

    method AddDeltaJob(job: ConflationJob, ghost u: Unit<ThresholdMetadata>, ghost ms: Store<ThresholdMetadata>)
      requires Mirrors(u, ms)
      modifies readyQueue
      ensures Mirrors(u, ms) && readyQueue.deltaJobs == old(readyQueue.deltaJobs) + [job]
    {
      readyQueue.deltaJobs := readyQueue.deltaJobs + [job];
    }

    /** insert, once the element is known. */
    method InsertAt(p: nat, event: Event, m: ThresholdMetadata, ghost u: Unit<ThresholdMetadata>,
                    ghost ms: Store<ThresholdMetadata>)
      returns (accepted: bool)
      requires Mirrors(u, ms) && p < |elements| && m in ms && SlotOk(u.slots[p], ms) && u.slots[p].metadata != Some(m)
      requires WellFormed(WithSlot(u, p, InsertedSlot(u.slots[p], ms, event, m)),
                          StoreResetBy(u.slots[p], ms, ms[m].version))
      modifies this, readyQueue, elements[p], elements[p].HeldVersion()
      ensures accepted == Accepts(u.slots[p], ms, ms[m].version)
      ensures var u', ms' :=
                WithSlot(u, p, InsertedSlot(u.slots[p], ms, event, m)), StoreResetBy(u.slots[p], ms, ms[m].version);
              Mirrors(if accepted && u.slots[p].IsComplete() then Queue(u', ms') else u', ms')
      ensures readyQueue.deltaJobs == old(readyQueue.deltaJobs) +
                if accepted && !u.slots[p].IsComplete() then [ConflationJob(event, m, this)] else []
    {
      accepted := Offer(p, event, m, u, ms);
      if accepted {
        AddToReadyQueue(p, event, m, WithSlot(u, p, InsertedSlot(u.slots[p], ms, event, m)),
                        StoreResetBy(u.slots[p], ms, ms[m].version));
      }
    }

    /** insert: `ms` is the store with the new metadata in it, as Joins provides it. */
    method Insert(event: Event, m: ThresholdMetadata, ghost u: Unit<ThresholdMetadata>,
                  ghost ms: Store<ThresholdMetadata>)
      requires WellFormed(u, ms) && Mirrors(u, ms) && Insertable(u, ms, event, m)
      modifies this, readyQueue, ElementSet(), set k | k in ms.Keys :: k.version
      ensures Mirrors(ConflationModel.Insert(u, ms, event, m).unit, ConflationModel.Insert(u, ms, event, m).store)
      ensures readyQueue.deltaJobs == old(readyQueue.deltaJobs) +
                if ConflationModel.Insert(u, ms, event, m).accepted
                  && !u.slots[u.priority[event.eventType]].IsComplete()
                then [ConflationJob(event, m, this)] else []
    {
      InsertIs(u, ms, event, m);
      var p := PriorityOf(priority, event.eventType);
      HeldIsApart(p, u, ms);
      var accepted := InsertAt(p, event, m, u, ms);
    }

    /** getMetadatas. */
    method GetMetadatas(ghost u: Unit<ThresholdMetadata>, ghost ms: Store<ThresholdMetadata>)
      returns (metadatas: seq<ThresholdMetadata>)
      requires Mirrors(u, ms)
      ensures metadatas == Metadatas(u.slots)
    {
      metadatas := [];
      var i := 0;
      while i < |elements|
        invariant 0 <= i <= |elements| && metadatas == Metadatas(u.slots[..i])
      {
        assert u.slots[i] == elements[i].AsSlot();
        assert u.slots[..i + 1][..i] == u.slots[..i];
        if elements[i].metadata != null {
          metadatas := metadatas + [elements[i].metadata];
        }
        i := i + 1;
      }
      assert u.slots[..|elements|] == u.slots;
    }
  }

  // ---------------------------------------------------------------- creating units

  datatype ConflationRegistration =
    ConflationRegistration(priority: nat, syncMode: SyncMode, eventType: string, dependency: Option<Dependency>)

  function PrioritiesOf(registrations: map<string, ConflationRegistration>): map<string, nat> {
    map t | t in registrations :: registrations[t].priority
  }

  ghost predicate Taken(registrations: map<string, ConflationRegistration>, priority: nat) {
    exists t :: t in registrations && registrations[t].priority == priority
  }

  /** Registered types carry the priorities 0..n-1, one each, and depend only on lower ones. */
  ghost predicate Consistent(registrations: map<string, ConflationRegistration>) {
    && registrations != map[]
    && (forall t :: t in registrations ==>
          registrations[t].eventType == t && registrations[t].priority < |registrations|)
    && (forall t, t' ::
          t in registrations && t' in registrations && registrations[t].priority == registrations[t'].priority ==>
            t == t')
    && (forall p :: 0 <= p < |registrations| ==> Taken(registrations, p))
    && (forall t ::
          t in registrations && registrations[t].syncMode == CompleteState && registrations[t].dependency.Some? ==>
            PriorityOf(PrioritiesOf(registrations), registrations[t].dependency.value.eventType) <
              registrations[t].priority)
  }

  ghost function EmptySlot(r: ConflationRegistration): Slot<ThresholdMetadata> {
    Slot(r.syncMode, r.eventType, r.dependency, false, ZERO, None, None)
  }

  /** Every slot is the empty slot of some registered type. */
  lemma SlotsAreTaken(registrations: map<string, ConflationRegistration>, slots: seq<Slot<ThresholdMetadata>>, p: nat)
    returns (t: string)
    requires Consistent(registrations) && |slots| == |registrations| && p < |slots|
    requires forall t :: t in registrations ==> slots[registrations[t].priority] == EmptySlot(registrations[t])
    ensures t in registrations && registrations[t].priority == p && slots[p] == EmptySlot(registrations[t])
  {
    assert Taken(registrations, p);
    t :| t in registrations && registrations[t].priority == p;
  }

  lemma NewUnitWellFormed(registrations: map<string, ConflationRegistration>, u: Unit<ThresholdMetadata>)
    requires Consistent(registrations) && |u.slots| == |registrations| && u.priority == PrioritiesOf(registrations)
    requires forall t :: t in registrations ==> u.slots[registrations[t].priority] == EmptySlot(registrations[t])
    ensures WellFormed(u, map[])
  {
    forall p | 0 <= p < |u.slots|
      ensures SlotOk(u.slots[p], map[])
      ensures u.slots[p].eventType in u.priority && u.priority[u.slots[p].eventType] == p
      ensures u.slots[p].IsComplete() && u.slots[p].dependency.Some? ==> DependencyIndex(u, p) < p
    {
      var t := SlotsAreTaken(registrations, u.slots, p);
    }
    assert Registered(u);
  }

  lemma TypesDiffer(registrations: map<string, ConflationRegistration>, slots: seq<Slot<ThresholdMetadata>>, i: nat,
                    j: nat)
    requires Consistent(registrations) && |slots| == |registrations| && i < j < |slots|
    requires forall t :: t in registrations ==> slots[registrations[t].priority] == EmptySlot(registrations[t])
    ensures slots[i].eventType != slots[j].eventType
  {
    var t := SlotsAreTaken(registrations, slots, i);
    var t' := SlotsAreTaken(registrations, slots, j);
  }

  /** newConflationUnit. */
  method NewConflationUnit(readyQueue: ReadyQueue, registrations: map<string, ConflationRegistration>)
    returns (cu: ConflationUnit, ghost u: Unit<ThresholdMetadata>)
    requires Consistent(registrations)
    ensures fresh(cu) && fresh(cu.elements) && cu.readyQueue == readyQueue
    ensures forall i :: 0 <= i < |cu.elements| ==> fresh(cu.elements[i].lastProcessedVersion)
    ensures |u.slots| == |registrations| && u.priority == PrioritiesOf(registrations) && !u.inReadyQueue
    ensures forall t :: t in registrations ==> u.slots[registrations[t].priority] == EmptySlot(registrations[t])
    ensures WellFormed(u, map[]) && cu.Mirrors(u, map[])
  {
    ghost var slots;
    var elements;
    elements, slots := FillElements(registrations);
    cu := new ConflationUnit(elements, PrioritiesOf(registrations), readyQueue);
    u := Unit(slots, PrioritiesOf(registrations), false, multiset(readyQueue.units)[cu]);
    NewUnitWellFormed(registrations, u);
    forall i, j | 0 <= i < j < |elements| ensures slots[i].eventType != slots[j].eventType {
      TypesDiffer(registrations, slots, i, j);
    }
  }

  /** A queue under construction: what is filled has the given slots and is all distinct. */
  ghost predicate Filled(queue: seq<Option<Element>>, slots: seq<Slot<ThresholdMetadata>>)
    reads set i | 0 <= i < |queue| && queue[i].Some? :: queue[i].value
    reads set i | 0 <= i < |queue| && queue[i].Some? :: queue[i].value.lastProcessedVersion
  {
    && |queue| == |slots|
    && (forall i :: 0 <= i < |queue| && queue[i].Some? ==> slots[i] == queue[i].value.AsSlot())
    && (forall i, j :: 0 <= i < j < |queue| && queue[i].Some? && queue[j].Some? ==>
          && queue[i].value != queue[j].value
          && queue[i].value.lastProcessedVersion != queue[j].value.lastProcessedVersion)
  }

  method Put(queue: seq<Option<Element>>, ghost slots: seq<Slot<ThresholdMetadata>>, r: ConflationRegistration)
    returns (element: Element)
    requires Filled(queue, slots) && r.priority < |queue|
    ensures fresh(element) && fresh(element.lastProcessedVersion)
    ensures Filled(queue[r.priority := Some(element)], slots[r.priority := EmptySlot(r)])
  {
    element := new Element(r.syncMode, r.eventType, r.dependency);
  }

  /** The slots are filled in whatever order the registrations come. */
  method FillElements(registrations: map<string, ConflationRegistration>)
    returns (elements: seq<Element>, ghost slots: seq<Slot<ThresholdMetadata>>)
    requires Consistent(registrations)
    ensures |elements| == |registrations| == |slots| && fresh(elements)
    ensures forall i :: 0 <= i < |elements| ==> fresh(elements[i].lastProcessedVersion)
    ensures forall t :: t in registrations ==> slots[registrations[t].priority] == EmptySlot(registrations[t])
    ensures forall i :: 0 <= i < |elements| ==> slots[i] == elements[i].AsSlot()
    ensures forall i, j :: 0 <= i < j < |elements| ==>
              elements[i] != elements[j] && elements[i].lastProcessedVersion != elements[j].lastProcessedVersion
  {
    var queue: seq<Option<Element>> := seq(|registrations|, _ => None);
    slots := seq(|registrations|, _ => Slot(CompleteState, "", None, false, ZERO, None, None));
    var types := registrations.Keys;
    while types != {}
      invariant types <= registrations.Keys && |queue| == |registrations| && Filled(queue, slots)
      invariant forall t :: t in registrations && t !in types ==>
                  queue[registrations[t].priority].Some?
                    && slots[registrations[t].priority] == EmptySlot(registrations[t])
      invariant forall i :: 0 <= i < |queue| && queue[i].Some? ==>
                  fresh(queue[i].value) && fresh(queue[i].value.lastProcessedVersion)
      decreases types
    {
      var t :| t in types;
      var r := registrations[t];
      assert r.priority < |queue|;
      var element := Put(queue, slots, r);
      queue := queue[r.priority := Some(element)];
      slots := slots[r.priority := EmptySlot(r)];
      types := types - {t};
    }
    forall i | 0 <= i < |queue| ensures queue[i].Some? {
      assert Taken(registrations, i);
    }
    elements := seq(|queue|, i requires 0 <= i < |queue| && queue[i].Some? => queue[i].value);
  }
}
