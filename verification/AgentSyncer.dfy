/** The agent's handlers, emitters and syncer as objects; every method is tied to its function in AgentModel. */
module AgentSyncer {
  import opened Basics
  import opened Versions
  import opened AgentModel

  class GenericHandler {
    const options: Options
    var eventData: Bundle

    constructor (options: Options)
      ensures this.options == options && eventData == []
    {
      this.options, eventData := options, [];
    }

    method GetObjectIndexByUID(uid: string) returns (index: Option<nat>)
      ensures index == First(eventData, SameUID(uid))
    {
      index := None;
      var i := 0;
      while i < |eventData| && index.None?
        invariant 0 <= i <= |eventData|
        invariant index.None? ==> forall j :: 0 <= j < i ==> eventData[j].uid != uid
        invariant index.Some? ==> FirstWith(eventData, SameUID(uid), index)
      {
        if eventData[i].uid == uid {
          index := Some(i);
        }
        i := i + 1;
      }
      FirstIs(eventData, SameUID(uid), index);
    }

    method GetObjectIndexByObj(obj: Object) returns (index: Option<nat>)
      ensures index == First(eventData, Same(obj))
    {
      if |obj.uid| > 0 {
        index := GetObjectIndexByUID(obj.uid);
        FirstIs(eventData, Same(obj), index);
        return;
      }
      index := None;
      var i := 0;
      while i < |eventData| && index.None?
        invariant 0 <= i <= |eventData|
        invariant index.None? ==> forall j :: 0 <= j < i ==> !Same(obj)(eventData[j])
        invariant index.Some? ==> FirstWith(eventData, Same(obj), index)
      {
        if eventData[i].namespace == obj.namespace && eventData[i].name == obj.name {
          index := Some(i);
        }
        i := i + 1;
      }
      FirstIs(eventData, Same(obj), index);
    }

    method Update(obj: Object) returns (changed: bool)
      modifies this
      ensures changed <==> Updated(options, old(eventData), obj).Some?
      ensures eventData == if changed then Updated(options, old(eventData), obj).value else old(eventData)
      ensures changed <==> options.shouldUpdate(obj) && IsNews(options.isSpec, old(eventData), obj)
      ensures changed ==> TookUpdate(options, old(eventData), obj, eventData)
    {
      UpdateExactly(options, eventData, obj);
      if !options.shouldUpdate(obj) {
        return false;
      }
      var index := GetObjectIndexByUID(obj.uid);
      if index.None? {
        eventData := eventData + [obj];
        return true;
      }
      var old1 := eventData[index.value];
      if options.isSpec && old1.generation == obj.generation {
        return false;
      }
      if obj.resourceVersion == old1.resourceVersion {
        return false;
      }
      eventData := eventData[index.value := obj];
      eventData := eventData[index.value := options.tweak(obj)];
      changed := true;
    }

    method Delete(obj: Object) returns (changed: bool)
      modifies this
      ensures changed <==> Deleted(options, old(eventData), obj).Some?
      ensures eventData == if changed then Deleted(options, old(eventData), obj).value else old(eventData)
      ensures changed <==> options.shouldUpdate(obj) && exists i :: Deletes(old(eventData), obj, i)
      ensures changed ==> TookDelete(old(eventData), obj, eventData)
    {
      DeleteExactly(options, eventData, obj);
      if !options.shouldUpdate(obj) {
        return false;
      }
      var index := GetObjectIndexByObj(obj);
      if index.None? {
        return false;
      }
      eventData := eventData[..index.value] + eventData[index.value + 1..];
      changed := true;
    }
  }

  /** Versions travel as text. */
  datatype CloudEvent = CloudEvent(eventType: string, version: string, dependencyVersion: Option<string>,
                                   data: Option<Bundle>)

  /** The version cell may be known to others: as another emitter's dependency, or to the resync command. */
  class GenericEmitter {
    const eventType: string
    const currentVersion: Version
    const dependencyVersion: Version?
    var lastSentVersion: Stamp
    ghost var sent: seq<Send>

    constructor (eventType: string, currentVersion: Version, dependencyVersion: Version?)
      ensures this.eventType == eventType && this.currentVersion == currentVersion
      ensures this.dependencyVersion == dependencyVersion
      ensures lastSentVersion == currentVersion.Get() && sent == []
    {
      this.eventType, this.currentVersion, this.dependencyVersion := eventType, currentVersion, dependencyVersion;
      lastSentVersion := currentVersion.Get();
      sent := [];
    }

    predicate ShouldSend()
      reads this, currentVersion
    {
      currentVersion.Get().NewerThan(lastSentVersion)
    }

    method PostUpdate()
      modifies currentVersion
      ensures currentVersion.Get() == old(currentVersion.Get()).Incr()
    {
      currentVersion.Incr();
    }

    /** The manager reads back exactly the version the event was stamped with. */
    method ToCloudEvent(payload: Bundle, marshals: bool) returns (e: CloudEvent)
      ensures e.eventType == eventType && VersionFrom(e.version) == Some(currentVersion.Get())
      ensures e.version == currentVersion.Get().ToText()
      ensures dependencyVersion == null <==> e.dependencyVersion.None?
      ensures dependencyVersion != null ==> VersionFrom(e.dependencyVersion.value) == Some(dependencyVersion.Get())
      ensures e.data == if marshals then Some(payload) else None
    {
      VersionTextRoundTrip(currentVersion.Get());
      var dependency := None;
      if dependencyVersion != null {
        VersionTextRoundTrip(dependencyVersion.Get());
        dependency := Some(dependencyVersion.Get().ToText());
      }
      e := CloudEvent(eventType, currentVersion.Get().ToText(), dependency, if marshals then Some(payload) else None);
    }
  }

  ghost predicate StampedWith(e: CloudEvent, dependency: Stamp) {
    e.dependencyVersion.Some? && VersionFrom(e.dependencyVersion.value) == Some(dependency)
  }

  class EmitterHandler {
    const emitter: GenericEmitter
    const handler: GenericHandler

    constructor (emitter: GenericEmitter, handler: GenericHandler)
      ensures this.emitter == emitter && this.handler == handler
    {
      this.emitter, this.handler := emitter, handler;
    }

    ghost function Footprint(): set<object> {
      {emitter, handler, emitter.currentVersion}
    }

    ghost function Value(): Agent
      reads Footprint()
    {
      Agent(handler.eventData, emitter.currentVersion.Get(), emitter.lastSentVersion, emitter.sent)
    }

    method UpdateObject(obj: Object)
      modifies Footprint()
      ensures Value() == Apply(handler.options, old(Value()), Update(obj))
    {
      var changed := handler.Update(obj);
      if changed {
        emitter.PostUpdate();
      }
    }

    method DeleteObject(obj: Object)
      modifies Footprint()
      ensures Value() == Apply(handler.options, old(Value()), Delete(obj))
    {
      var changed := handler.Delete(obj);
      if changed {
        emitter.PostUpdate();
      }
    }

    /** PostSend: the hook works on the handler's bundle. */
    method PostSend(ghost data: Option<Bundle>)
      modifies Footprint()
      ensures Value() ==
                Agent(handler.options.postSend(old(handler.eventData)), old(emitter.currentVersion.Get()).Next(),
                               old(emitter.currentVersion.Get()).Next(),
                               old(emitter.sent) + [Send(old(emitter.currentVersion.Get()), data)])
    {
      emitter.sent := emitter.sent + [Send(emitter.currentVersion.Get(), data)];
      handler.eventData := handler.options.postSend(handler.eventData);
      emitter.currentVersion.Next();
      emitter.lastSentVersion := emitter.currentVersion.Get();
    }

    /** One turn of syncEvents. */
    method SyncEvent(marshals: bool, delivered: bool) returns (attempted: Option<CloudEvent>)
      modifies Footprint()
      ensures Value() == Apply(handler.options, old(Value()), Sync(marshals, delivered))
      ensures attempted.Some? <==> ShouldSend(old(Value()))
      ensures attempted.Some? ==> VersionFrom(attempted.value.version) == Some(old(Value()).current)
      ensures attempted.Some? ==> attempted.value.data == if marshals then Some(old(Value()).bundle) else None
      ensures attempted.Some? && emitter.dependencyVersion != null ==>
                StampedWith(attempted.value, old(emitter.dependencyVersion.Get()))
    {
      if !emitter.ShouldSend() {
        return None;
      }
      var evt := emitter.ToCloudEvent(handler.eventData, marshals);
      attempted := Some(evt);
      if !delivered {
        return;
      }
      PostSend(evt.data);
    }
  }

  class MultiEventSyncer {
    const eventEmitters: seq<EmitterHandler>

    constructor (eventEmitters: seq<EmitterHandler>)
      ensures this.eventEmitters == eventEmitters
    {
      this.eventEmitters := eventEmitters;
    }

    /** No two emitters share a handler or a current version. */
    ghost predicate Apart() {
      forall i, j :: 0 <= i < j < |eventEmitters| ==> eventEmitters[i].Footprint() !! eventEmitters[j].Footprint()
    }

    /** Emitter j stamps its events with the version of emitter i. */
    ghost predicate DependsOn(j: nat, i: nat)
      requires i < |eventEmitters| && j < |eventEmitters|
    {
      eventEmitters[j].emitter.dependencyVersion == eventEmitters[i].emitter.currentVersion
    }

    ghost function Footprint(): set<object> {
      set i, o | 0 <= i < |eventEmitters| && o in eventEmitters[i].Footprint() :: o
    }

    method UpdateObject(obj: Object)
      requires Apart()
      modifies Footprint()
      ensures forall i :: 0 <= i < |eventEmitters| ==>
                eventEmitters[i].Value() ==
                  Apply(eventEmitters[i].handler.options, old(eventEmitters[i].Value()), Update(obj))
    {
      for k := 0 to |eventEmitters|
        invariant forall i :: 0 <= i < |eventEmitters| ==>
                    eventEmitters[i].Value() ==
                      if i < k then Apply(eventEmitters[i].handler.options, old(eventEmitters[i].Value()), Update(obj))
                      else old(eventEmitters[i].Value())
      {
        eventEmitters[k].UpdateObject(obj);
      }
    }

    method DeleteObject(obj: Object)
      requires Apart()
      modifies Footprint()
      ensures forall i :: 0 <= i < |eventEmitters| ==>
                eventEmitters[i].Value() ==
                  Apply(eventEmitters[i].handler.options, old(eventEmitters[i].Value()), Delete(obj))
    {
      for k := 0 to |eventEmitters|
        invariant forall i :: 0 <= i < |eventEmitters| ==>
                    eventEmitters[i].Value() ==
                      if i < k then Apply(eventEmitters[i].handler.options, old(eventEmitters[i].Value()), Delete(obj))
                      else old(eventEmitters[i].Value())
      {
        eventEmitters[k].DeleteObject(obj);
      }
    }

    /** Emitter k's turn leaves all other emitters alone. */
    method SyncOne(k: nat, marshals: bool, delivered: bool) returns (event: Option<CloudEvent>)
      requires Apart() && k < |eventEmitters|
      modifies eventEmitters[k].Footprint()
      ensures eventEmitters[k].Value() ==
                Apply(eventEmitters[k].handler.options, old(eventEmitters[k].Value()), Sync(marshals, delivered))
      ensures forall i :: 0 <= i < |eventEmitters| && i != k ==>
                eventEmitters[i].Value() == old(eventEmitters[i].Value())
      ensures event.Some? <==> ShouldSend(old(eventEmitters[k].Value()))
      ensures forall i :: 0 <= i < |eventEmitters| && i != k && DependsOn(k, i) && event.Some? ==>
                StampedWith(event.value, eventEmitters[i].Value().current)
    {
      event := eventEmitters[k].SyncEvent(marshals, delivered);
    }

    /**
      `marshals` and `delivered` say how each emitter's event fares; a failed send does not stop the loop.
      A dependent emitter stamps the version its dependency has after its own turn.
     */
    method SyncEvents(marshals: seq<bool>, delivered: seq<bool>) returns (events: seq<Option<CloudEvent>>)
      requires Apart() && |marshals| == |delivered| == |eventEmitters|
      modifies Footprint()
      ensures |events| == |eventEmitters|
      ensures forall i :: 0 <= i < |eventEmitters| ==>
                eventEmitters[i].Value() ==
                  Apply(eventEmitters[i].handler.options, old(eventEmitters[i].Value()),
                        Sync(marshals[i], delivered[i]))
      ensures forall i :: 0 <= i < |eventEmitters| ==> (events[i].Some? <==> ShouldSend(old(eventEmitters[i].Value())))
      ensures forall i, j :: 0 <= i < j < |events| && DependsOn(j, i) && events[j].Some? ==>
                StampedWith(events[j].value, eventEmitters[i].Value().current)
    {
      events := [];
      for k := 0 to |eventEmitters|
        invariant |events| == k
        invariant forall i :: 0 <= i < k ==> (events[i].Some? <==> ShouldSend(old(eventEmitters[i].Value())))
        invariant forall i, j :: 0 <= i < j < k && DependsOn(j, i) && events[j].Some? ==>
                    StampedWith(events[j].value, eventEmitters[i].Value().current)
        invariant forall i :: 0 <= i < |eventEmitters| ==>
                    eventEmitters[i].Value() ==
                      if i < k
                        then Apply(eventEmitters[i].handler.options, old(eventEmitters[i].Value()),
                                   Sync(marshals[i], delivered[i]))
                      else old(eventEmitters[i].Value())
      {
        var event := SyncOne(k, marshals[k], delivered[k]);
        events := events + [event];
      }
    }
  }
}
