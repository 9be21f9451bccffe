/** An emitter's event on its way into the manager: the versions stamped are the versions inserted. */
module Stamping {
  import opened Basics
  import opened Versions
  import opened ConflationModel
  import opened ConflationUnits
  import opened ConflationManagers
  import AgentModel
  import AgentSyncer

  /**
    The event an emitter makes of a payload, given to the manager. If its type is registered it is inserted with the
    emitter's version, and with the version its dependency has then, if the emitter has a dependency.
   */
  method StampAndInsert(emitter: AgentSyncer.GenericEmitter, payload: AgentModel.Bundle, text: string,
                        manager: ConflationManager, leafHubName: string, position: Position,
                        ghost u: Unit<ThresholdMetadata>, ghost ms: Store<ThresholdMetadata>)
    returns (inserted: bool, ghost m: ThresholdMetadata?, ghost ms': Store<ThresholdMetadata>)
    requires Consistent(manager.registrations)
    requires emitter.eventType in manager.registrations && Dependent(manager.registrations[emitter.eventType]) ==>
               emitter.dependencyVersion != null
    requires leafHubName in manager.conflationUnits ==>
               && manager.conflationUnits[leafHubName].Mirrors(u, ms) && WellFormed(u, ms)
               && Serves(u, manager.registrations)
    requires leafHubName !in manager.conflationUnits ==> ms == map[]
    modifies if leafHubName in manager.conflationUnits then manager.conflationUnits[leafHubName].Touched(ms)
             else {manager, manager.readyQueue}
    ensures inserted <==> emitter.eventType in manager.registrations
    ensures inserted ==>
              && m != null && m in ms'
              && ms'[m] == Meta(emitter.eventType, position, old(emitter.currentVersion.Get()),
                                if emitter.dependencyVersion == null then None
                                else Some(old(emitter.dependencyVersion.Get())), 0)
  {
    var e := emitter.ToCloudEvent(payload, true);
    var cu;
    ghost var before, u';
    cu, m, before, u', ms' :=
      manager.Insert(leafHubName, Event(e.eventType, text), position, Some(e.version), e.dependencyVersion, u, ms);
    inserted := cu != null;
  }
}
