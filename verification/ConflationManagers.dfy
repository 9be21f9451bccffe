/** The conflation manager's map of units: find or create, and the metadata of all of them. */
module ConflationManagers {
  import opened Basics
  import opened Versions
  import opened ConflationModel
  import opened ConflationUnits

  predicate Readable(version: Option<string>, dependencyVersion: Option<string>) {
    && version.Some? && VersionFrom(version.value).Some?
    && (dependencyVersion.Some? ==> VersionFrom(dependencyVersion.value).Some?)
  }

  /** The metadata of an event with readable versions. */
  function MetaOf(event: Event, position: Position, version: Option<string>, dependencyVersion: Option<string>): Meta {
    var v := if version.Some? && VersionFrom(version.value).Some? then VersionFrom(version.value).value else ZERO;
    var needed := if dependencyVersion.Some? then VersionFrom(dependencyVersion.value) else None;
    Meta(event.eventType, position, v, needed, 0)
  }

  /** The metadata says of an event what its extensions do: the versions are what VersionFrom reads from the texts. */
  ghost predicate Describes(meta: Meta, event: Event, position: Position, version: Option<string>,
                            dependencyVersion: Option<string>)
  {
    && meta.eventType == event.eventType && meta.position == position && meta.count == 0
    && version.Some? && VersionFrom(version.value) == Some(meta.version)
    && match dependencyVersion
       case None => meta.dependency == None
       case Some(text) => meta.dependency.Some? && VersionFrom(text) == meta.dependency
  }

  /** An insert keeps the new event's metadata as it came. */
  lemma InsertedIsDescribed(u: Unit<ThresholdMetadata>, ms: Store<ThresholdMetadata>, event: Event,
                            m: ThresholdMetadata,
                            meta: Meta, u': Unit<ThresholdMetadata>, ms': Store<ThresholdMetadata>,
                            position: Position, version: Option<string>, dependencyVersion: Option<string>)
    requires Inserts(u, ms, event, m, meta, u', ms') && Describes(meta, event, position, version, dependencyVersion)
    ensures m in ms' && Describes(ms'[m], event, position, version, dependencyVersion)
  {
    InsertIs(u, ms[m := meta], event, m);
  }

  lemma MetaDescribes(event: Event, position: Position, version: Option<string>, dependencyVersion: Option<string>)
    requires Readable(version, dependencyVersion)
    ensures Describes(MetaOf(event, position, version, dependencyVersion), event, position, version, dependencyVersion)
  {
  }

  /** What an agent stamps is what the manager reads: any version and any dependency version, through their texts. */
  lemma StampsArrive(event: Event, position: Position, v: Stamp, dependency: Option<Stamp>, meta: Meta)
    ensures var text := match dependency case None => None case Some(d) => Some(d.ToText());
            Describes(meta, event, position, Some(v.ToText()), text) <==>
              meta == Meta(event.eventType, position, v, dependency, 0)
  {
    VersionTextRoundTrip(v);
    if dependency.Some? {
      VersionTextRoundTrip(dependency.value);
    }
  }

  predicate Dependent(r: ConflationRegistration) {
    r.syncMode == CompleteState && r.dependency.Some?
  }

  /** An event of a complete element with a dependency says which version of it it needs. */
  ghost predicate NamesDependency(registrations: map<string, ConflationRegistration>, event: Event,
                                  dependencyVersion: Option<string>) {
    event.eventType in registrations && Dependent(registrations[event.eventType]) ==> dependencyVersion.Some?
  }

  /** A unit with the elements the registrations ask for. */
  ghost predicate Serves(u: Unit<ThresholdMetadata>, registrations: map<string, ConflationRegistration>) {
    && |u.slots| == |registrations| && u.priority == PrioritiesOf(registrations)
    && forall t :: t in registrations && registrations[t].priority < |u.slots| ==>
         u.slots[registrations[t].priority].SameKind(EmptySlot(registrations[t]))
  }

  /** A unit as it is created. */
  ghost predicate IsEmpty(u: Unit<ThresholdMetadata>, registrations: map<string, ConflationRegistration>) {
    && WellFormed(u, map[]) && !u.inReadyQueue && Serves(u, registrations)
    && forall p :: 0 <= p < |u.slots| ==> u.slots[p].metadata.None? && u.slots[p].lastProcessed == ZERO
  }

  /** A unit's insert of an event whose metadata object m is new to it. */
  ghost predicate Inserts(u: Unit<ThresholdMetadata>, ms: Store<ThresholdMetadata>, event: Event, m: ThresholdMetadata,
                          meta: Meta,
                          u': Unit<ThresholdMetadata>, ms': Store<ThresholdMetadata>)
  {
    && m !in ms && WellFormed(u, ms[m := meta]) && Insertable(u, ms[m := meta], event, m)
    && var r := ConflationModel.Insert(u, ms[m := meta], event, m);
       u' == r.unit && ms' == r.store
  }

  lemma InsertableAt(registrations: map<string, ConflationRegistration>, event: Event, m: ThresholdMetadata,
                     u: Unit<ThresholdMetadata>, ms: Store<ThresholdMetadata>, meta: Meta)
    requires Consistent(registrations) && event.eventType in registrations && Serves(u, registrations)
    requires WellFormed(u, ms) && m !in ms && meta.eventType == event.eventType && meta.count == 0
    requires Dependent(registrations[event.eventType]) ==> meta.dependency.Some?
    ensures WellFormed(u, ms[m := meta]) && Insertable(u, ms[m := meta], event, m)
  {
    forall p | 0 <= p < |u.slots| ensures SlotOk(u.slots[p], ms[m := meta]) && u.slots[p].metadata != Some(m) {
      assert SlotOk(u.slots[p], ms);
    }
  }

  lemma CreatedIsEmpty(registrations: map<string, ConflationRegistration>, u: Unit<ThresholdMetadata>)
    requires Consistent(registrations) && WellFormed(u, map[]) && !u.inReadyQueue
    requires |u.slots| == |registrations| && u.priority == PrioritiesOf(registrations)
    requires forall t :: t in registrations ==> u.slots[registrations[t].priority] == EmptySlot(registrations[t])
    ensures IsEmpty(u, registrations)
  {
    forall p | 0 <= p < |u.slots| ensures u.slots[p].metadata.None? && u.slots[p].lastProcessed == ZERO {
      var t := SlotsAreTaken(registrations, u.slots, p);
    }
  }

  /** The unit's insert keeps its elements of the registered kinds. */
  lemma StillServes(registrations: map<string, ConflationRegistration>, u: Unit<ThresholdMetadata>,
                    ms: Store<ThresholdMetadata>,
                    event: Event, m: ThresholdMetadata)
    requires Serves(u, registrations) && WellFormed(u, ms) && Insertable(u, ms, event, m)
    ensures Serves(ConflationModel.Insert(u, ms, event, m).unit, registrations)
  {
  }

  class ConflationManager {
    const registrations: map<string, ConflationRegistration>
    const readyQueue: ReadyQueue
    var conflationUnits: map<string, ConflationUnit>

    constructor (registrations: map<string, ConflationRegistration>)
      ensures this.registrations == registrations && conflationUnits == map[] && fresh(readyQueue)
    {
      this.registrations := registrations;
      readyQueue := new ReadyQueue();
      conflationUnits := map[];
    }

    method CreateUnit() returns (cu: ConflationUnit, ghost created: Unit<ThresholdMetadata>)
      requires Consistent(registrations)
      ensures fresh(cu) && fresh(cu.elements) && cu.readyQueue == readyQueue
      ensures forall i :: 0 <= i < |cu.elements| ==> fresh(cu.elements[i].lastProcessedVersion)
      ensures IsEmpty(created, registrations) && cu.Mirrors(created, map[])
    {
      cu, created := NewConflationUnit(readyQueue, registrations);
      CreatedIsEmpty(registrations, created);
    }

    /** getConflationUnit: one unit per hub, created with empty elements when the hub is first heard of. */
    method GetConflationUnit(leafHubName: string)
      returns (cu: ConflationUnit, ghost created: Option<Unit<ThresholdMetadata>>)
      requires Consistent(registrations)
      modifies this`conflationUnits
      ensures conflationUnits == old(conflationUnits)[leafHubName := cu]
      ensures leafHubName in old(conflationUnits) ==> created == None && conflationUnits == old(conflationUnits)
      ensures leafHubName !in old(conflationUnits) ==>
                && created.Some? && IsEmpty(created.value, registrations)
                && fresh(cu) && fresh(cu.elements) && cu.readyQueue == readyQueue && cu.Mirrors(created.value, map[])
                && forall i :: 0 <= i < |cu.elements| ==> fresh(cu.elements[i].lastProcessedVersion)
    {
      if leafHubName in conflationUnits {
        return conflationUnits[leafHubName], None;
      }
      ghost var u;
      cu, u := AddUnit(leafHubName);
      created := Some(u);
    }

    method AddUnit(leafHubName: string) returns (cu: ConflationUnit, ghost created: Unit<ThresholdMetadata>)
      requires Consistent(registrations)
      modifies this`conflationUnits
      ensures conflationUnits == old(conflationUnits)[leafHubName := cu]
      ensures fresh(cu) && fresh(cu.elements) && cu.readyQueue == readyQueue
      ensures forall i :: 0 <= i < |cu.elements| ==> fresh(cu.elements[i].lastProcessedVersion)
      ensures IsEmpty(created, registrations) && cu.Mirrors(created, map[])
    {
      cu, created := CreateUnit();
      conflationUnits := conflationUnits[leafHubName := cu];
    }

    /** NewThresholdMetadata, when the versions can be read. */
    method NewMetadata(event: Event, position: Position, version: Option<string>, dependencyVersion: Option<string>)
      returns (m: ThresholdMetadata)
      requires Readable(version, dependencyVersion)
      ensures fresh(m) && fresh(m.version) && m.Get() == MetaOf(event, position, version, dependencyVersion)
      ensures Describes(m.Get(), event, position, version, dependencyVersion)
    {
      var needed := if dependencyVersion.Some? then VersionFrom(dependencyVersion.value) else None;
      m := new ThresholdMetadata(event.eventType, position, VersionFrom(version.value).value, needed);
    }

    /** New metadata is new to a unit, and the unit is as before. */
    method NewFor(cu: ConflationUnit, event: Event, position: Position, version: Option<string>,
                  dependencyVersion: Option<string>,
                  ghost u: Unit<ThresholdMetadata>, ghost ms: Store<ThresholdMetadata>)
      returns (m: ThresholdMetadata)
      requires Readable(version, dependencyVersion) && cu.Mirrors(u, ms)
      ensures fresh(m) && fresh(m.version) && m.Get() == MetaOf(event, position, version, dependencyVersion)
      ensures cu.Mirrors(u, ms) && cu.Fresh(m, ms)
    {
      m := NewMetadata(event, position, version, dependencyVersion);
    }

    lemma TouchedFirst(cu: ConflationUnit)
      ensures this !in cu.Touched(map[])
      ensures forall o :: o in cu.Touched(map[]) ==>
                o == cu || o == cu.readyQueue || exists e :: e in cu.elements && o == e
    {
    }

    /** The metadata joins the unit's, and the unit inserts the event. */
    method InsertInto(cu: ConflationUnit, event: Event, m: ThresholdMetadata,
                      ghost u: Unit<ThresholdMetadata>, ghost ms: Store<ThresholdMetadata>)
      returns (ghost u': Unit<ThresholdMetadata>, ghost ms': Store<ThresholdMetadata>)
      requires Consistent(registrations) && event.eventType in registrations && Serves(u, registrations)
      requires WellFormed(u, ms) && cu.Mirrors(u, ms) && cu.Fresh(m, ms)
      requires m.eventType == event.eventType && m.count == 0
      requires Dependent(registrations[event.eventType]) ==> m.dependencyVersion.Some?
      modifies cu.Touched(ms), m.version
      ensures Inserts(u, ms, event, m, old(m.Get()), u', ms') && Serves(u', registrations)
      ensures cu.Mirrors(u', ms') && WellFormed(u', ms')
    {
      cu.Joins(m, u, ms);
      ghost var joined := ms[m := m.Get()];
      InsertableAt(registrations, event, m, u, ms, m.Get());
      StillServes(registrations, u, joined, event, m);
      u', ms' := ConflationModel.Insert(u, joined, event, m).unit, ConflationModel.Insert(u, joined, event, m).store;
      cu.Insert(event, m, u, joined);
    }

    /** A readable event of a registered type goes into a unit, with metadata of its own. */
    method InsertEvent(cu: ConflationUnit, event: Event, position: Position, version: Option<string>,
                       dependencyVersion: Option<string>, ghost u: Unit<ThresholdMetadata>,
                         ghost ms: Store<ThresholdMetadata>)
      returns (ghost m: ThresholdMetadata, ghost u': Unit<ThresholdMetadata>, ghost ms': Store<ThresholdMetadata>)
      requires Consistent(registrations) && NamesDependency(registrations, event, dependencyVersion)
      requires event.eventType in registrations && Readable(version, dependencyVersion)
      requires cu.Mirrors(u, ms) && WellFormed(u, ms) && Serves(u, registrations)
      modifies cu.Touched(ms)
      ensures fresh(m) && Inserts(u, ms, event, m, MetaOf(event, position, version, dependencyVersion), u', ms')
      ensures cu.Mirrors(u', ms') && WellFormed(u', ms') && Serves(u', registrations)
    {
      var metadata := NewFor(cu, event, position, version, dependencyVersion, u, ms);
      m := metadata;
      u', ms' := InsertInto(cu, event, metadata, u, ms);
    }

    /**
      Insert: an event of an unregistered type or with unreadable versions is dropped; any other goes to its
      hub's unit, created for it if need be. `u` and `ms` are that unit's state and metadata before.
     */
    method Insert(leafHubName: string, event: Event, position: Position, version: Option<string>,
                  dependencyVersion: Option<string>,
                  ghost u: Unit<ThresholdMetadata>, ghost ms: Store<ThresholdMetadata>)
      returns (cu: ConflationUnit?, ghost m: ThresholdMetadata?, ghost before: Unit<ThresholdMetadata>,
               ghost u': Unit<ThresholdMetadata>, ghost ms': Store<ThresholdMetadata>)
      requires Consistent(registrations) && NamesDependency(registrations, event, dependencyVersion)
      requires leafHubName in conflationUnits ==>
                 conflationUnits[leafHubName].Mirrors(u, ms) && WellFormed(u, ms) && Serves(u, registrations)
      requires leafHubName !in conflationUnits ==> ms == map[]
      modifies if leafHubName in conflationUnits then conflationUnits[leafHubName].Touched(ms) else {this, readyQueue}
      ensures cu == null <==>
                || event.eventType !in registrations || version.None? || VersionFrom(version.value).None?
                || (dependencyVersion.Some? && VersionFrom(dependencyVersion.value).None?)
      ensures cu == null ==> conflationUnits == old(conflationUnits)
      ensures cu == null && leafHubName in conflationUnits ==> conflationUnits[leafHubName].Mirrors(u, ms)
      ensures cu != null ==>
                && m != null && fresh(m) && m in ms' && Describes(ms'[m], event, position, version, dependencyVersion)
                && (leafHubName in old(conflationUnits) ==> cu == old(conflationUnits)[leafHubName] && before == u)
                && (leafHubName !in old(conflationUnits) ==>
                      conflationUnits == old(conflationUnits)[leafHubName := cu] && fresh(cu)
                        && IsEmpty(before, registrations))
                && Inserts(before, ms, event, m, MetaOf(event, position, version, dependencyVersion), u', ms')
                && cu.Mirrors(u', ms') && WellFormed(u', ms') && Serves(u', registrations)
    {
      cu, m, before, u', ms' := null, null, u, u, ms;
      if event.eventType !in registrations {
        return;
      }
      if !Readable(version, dependencyVersion) {
        return;
      }
      cu, m, before, u', ms' := InsertReadable(leafHubName, event, position, version, dependencyVersion, u, ms);
      MetaDescribes(event, position, version, dependencyVersion);
      InsertedIsDescribed(before, ms, event, m, MetaOf(event, position, version, dependencyVersion), u', ms',
                          position, version, dependencyVersion);
    }

    method InsertReadable(leafHubName: string, event: Event, position: Position, version: Option<string>,
                          dependencyVersion: Option<string>, ghost u: Unit<ThresholdMetadata>,
                            ghost ms: Store<ThresholdMetadata>)
      returns (cu: ConflationUnit, ghost m: ThresholdMetadata, ghost before: Unit<ThresholdMetadata>,
               ghost u': Unit<ThresholdMetadata>, ghost ms': Store<ThresholdMetadata>)
      requires Consistent(registrations) && NamesDependency(registrations, event, dependencyVersion)
      requires event.eventType in registrations && Readable(version, dependencyVersion)
      requires leafHubName in conflationUnits ==>
                 conflationUnits[leafHubName].Mirrors(u, ms) && WellFormed(u, ms) && Serves(u, registrations)
      requires leafHubName !in conflationUnits ==> ms == map[]
      modifies if leafHubName in conflationUnits then conflationUnits[leafHubName].Touched(ms) else {this, readyQueue}
      ensures fresh(m)
      ensures leafHubName in old(conflationUnits) ==> cu == old(conflationUnits)[leafHubName] && before == u
      ensures leafHubName !in old(conflationUnits) ==>
                conflationUnits == old(conflationUnits)[leafHubName := cu] && fresh(cu)
                  && IsEmpty(before, registrations)
      ensures Inserts(before, ms, event, m, MetaOf(event, position, version, dependencyVersion), u', ms')
      ensures cu.Mirrors(u', ms') && WellFormed(u', ms') && Serves(u', registrations)
    {
      if leafHubName in conflationUnits {
        cu, before := conflationUnits[leafHubName], u;
        m, u', ms' := InsertEvent(cu, event, position, version, dependencyVersion, u, ms);
      } else {
        cu, m, before, u', ms' := InsertFirst(leafHubName, event, position, version, dependencyVersion);
      }
    }

    /** The first event of a hub. */
    method InsertFirst(leafHubName: string, event: Event, position: Position, version: Option<string>,
                       dependencyVersion: Option<string>)
      returns (cu: ConflationUnit, ghost m: ThresholdMetadata, ghost before: Unit<ThresholdMetadata>,
               ghost u': Unit<ThresholdMetadata>, ghost ms': Store<ThresholdMetadata>)
      requires Consistent(registrations) && NamesDependency(registrations, event, dependencyVersion)
      requires event.eventType in registrations && Readable(version, dependencyVersion)
      requires leafHubName !in conflationUnits
      modifies this`conflationUnits, readyQueue
      ensures conflationUnits == old(conflationUnits)[leafHubName := cu] && fresh(cu) && fresh(m)
      ensures IsEmpty(before, registrations)
      ensures Inserts(before, map[], event, m, MetaOf(event, position, version, dependencyVersion), u', ms')
      ensures cu.Mirrors(u', ms') && WellFormed(u', ms') && Serves(u', registrations)
    {
      ghost var created;
      cu, created := GetConflationUnit(leafHubName);
      before := created.value;
      TouchedFirst(cu);
      m, u', ms' := InsertEvent(cu, event, position, version, dependencyVersion, before, map[]);
    }

    /** Every unit is in the state and has the metadata store given for its hub. */
    ghost predicate Mirrors(units: map<string, Unit<ThresholdMetadata>>, stores: map<string, Store<ThresholdMetadata>>)
      reads *
    {
      && units.Keys == stores.Keys == conflationUnits.Keys
      && forall h :: h in conflationUnits ==> conflationUnits[h].Mirrors(units[h], stores[h])
    }

    ghost predicate HeldBy(u: Unit<ThresholdMetadata>, m: ThresholdMetadata) {
      exists p :: 0 <= p < |u.slots| && u.slots[p].metadata == Some(m)
    }

    method MetadatasOf(hub: string, ghost u: Unit<ThresholdMetadata>, ghost ms: Store<ThresholdMetadata>)
      returns (metadatas: seq<ThresholdMetadata>)
      requires hub in conflationUnits && conflationUnits[hub].Mirrors(u, ms)
      ensures forall m :: m in metadatas <==> HeldBy(u, m)
    {
      metadatas := conflationUnits[hub].GetMetadatas(u, ms);
      forall m ensures m in metadatas <==> HeldBy(u, m) {
        MetadatasAre(u.slots, m);
      }
    }

    /** GetMetadatas: what the slots of all units hold, in whatever order the units come. */
    method GetMetadatas(ghost units: map<string, Unit<ThresholdMetadata>>,
                        ghost stores: map<string, Store<ThresholdMetadata>>)
      returns (metadatas: seq<ThresholdMetadata>)
      requires Mirrors(units, stores)
      ensures forall m :: m in metadatas <==> exists h :: h in units && HeldBy(units[h], m)
    {
      metadatas := [];
      var hubs := conflationUnits.Keys;
      ghost var read: set<string> := {};
      while hubs != {}
        invariant hubs !! read && hubs + read == conflationUnits.Keys
        invariant forall m :: m in metadatas <==> exists h :: h in read && h in units && HeldBy(units[h], m)
        decreases hubs
      {
        var hub :| hub in hubs;
        var more := MetadatasOf(hub, units[hub], stores[hub]);
        hubs, read := hubs - {hub}, read + {hub};
        metadatas := metadatas + more;
      }
    }
  }
}
