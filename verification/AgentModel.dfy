/** One emitter of an agent with its handler, as values: the bundle, the version counter, what was sent. */
module AgentModel {
  import opened Basics
  import opened Versions

  datatype Object = Object(uid: string, namespace: string, name: string, generation: int, resourceVersion: string,
                           payload: string)

  type Bundle = seq<Object>

  /** A handler's options, and what a postSend hook makes of the bundle; defaults are false, the identity and always. */
  datatype Options = Options(isSpec: bool, tweak: Object -> Object, shouldUpdate: Object -> bool,
                             postSend: Bundle -> Bundle)

  // ---------------------------------------------------------------- the handler

  ghost predicate FirstWith(objects: Bundle, matches: Object -> bool, index: Option<nat>) {
    match index
    case Some(i) => i < |objects| && matches(objects[i]) && forall j :: 0 <= j < i ==> !matches(objects[j])
    case None => forall j :: 0 <= j < |objects| ==> !matches(objects[j])
  }

  function SameUID(uid: string): Object -> bool {
    (o: Object) => o.uid == uid
  }

  /** The test of getObjectIndexByObj: by UID, or by namespace and name when there is no UID. */
  function Same(obj: Object): Object -> bool {
    (o: Object) => if obj.uid != "" then o.uid == obj.uid else o.namespace == obj.namespace && o.name == obj.name
  }

  function First(objects: Bundle, matches: Object -> bool, from: nat := 0): (index: Option<nat>)
    requires from <= |objects| && forall j :: 0 <= j < from ==> !matches(objects[j])
    ensures FirstWith(objects, matches, index)
    decreases |objects| - from
  {
    if from == |objects| then None
    else if matches(objects[from]) then Some(from)
    else First(objects, matches, from + 1)
  }

  lemma FirstIs(objects: Bundle, matches: Object -> bool, index: Option<nat>)
    requires FirstWith(objects, matches, index)
    ensures First(objects, matches) == index
  {
  }

  /** The bundle after an update, or None when the handler reports no change. */
  function Updated(options: Options, bundle: Bundle, obj: Object): Option<Bundle> {
    if !options.shouldUpdate(obj) then None
    else
      match First(bundle, SameUID(obj.uid))
      case None => Some(bundle + [obj])
      case Some(i) =>
        if options.isSpec && bundle[i].generation == obj.generation then None
        else if bundle[i].resourceVersion == obj.resourceVersion then None
        else Some(bundle[i := options.tweak(obj)])
  }

  function Deleted(options: Options, bundle: Bundle, obj: Object): Option<Bundle> {
    if !options.shouldUpdate(obj) then None
    else
      match First(bundle, Same(obj))
      case None => None
      case Some(i) => Some(bundle[..i] + bundle[i + 1..])
  }

  // ---------------------------------------------------------------- what a handler reports and does

  ghost predicate FirstOfUID(bundle: Bundle, uid: string, i: int) {
    0 <= i < |bundle| && bundle[i].uid == uid && forall j :: 0 <= j < i ==> bundle[j].uid != uid
  }

  ghost predicate FirstOfName(bundle: Bundle, namespace: string, name: string, i: int) {
    && 0 <= i < |bundle| && bundle[i].namespace == namespace && bundle[i].name == name
    && forall j :: 0 <= j < i ==> bundle[j].namespace != namespace || bundle[j].name != name
  }

  /** The object that the object to delete stands for: the first of its UID if it has one, of its name otherwise. */
  ghost predicate Deletes(bundle: Bundle, obj: Object, i: int) {
    if obj.uid != "" then FirstOfUID(bundle, obj.uid, i) else FirstOfName(bundle, obj.namespace, obj.name, i)
  }

  /** An update is news unless the object is known and its resource version, or a spec's generation, is the old one. */
  ghost predicate IsNews(isSpec: bool, bundle: Bundle, obj: Object) {
    forall i :: FirstOfUID(bundle, obj.uid, i) ==>
      bundle[i].resourceVersion != obj.resourceVersion && (isSpec ==> bundle[i].generation != obj.generation)
  }

  /** Unknown objects join at the end as they are, known ones are replaced by what the tweak makes of the new one. */
  ghost predicate TookUpdate(options: Options, bundle: Bundle, obj: Object, after: Bundle) {
    && ((forall i :: 0 <= i < |bundle| ==> bundle[i].uid != obj.uid) ==> after == bundle + [obj])
    && forall i :: FirstOfUID(bundle, obj.uid, i) ==>
         && |after| == |bundle| && after[i] == options.tweak(obj)
         && forall j :: 0 <= j < |bundle| && j != i ==> after[j] == bundle[j]
  }

  ghost predicate TookDelete(bundle: Bundle, obj: Object, after: Bundle) {
    forall i :: Deletes(bundle, obj, i) ==> after == bundle[..i] + bundle[i + 1..]
  }

  /** A change is reported exactly for news that the handler should take. */
  lemma UpdateExactly(options: Options, bundle: Bundle, obj: Object)
    ensures Updated(options, bundle, obj).Some? <==> options.shouldUpdate(obj) && IsNews(options.isSpec, bundle, obj)
    ensures Updated(options, bundle, obj).Some? ==>
              TookUpdate(options, bundle, obj, Updated(options, bundle, obj).value)
  {
    match First(bundle, SameUID(obj.uid)) {
      case None =>
      case Some(i) =>
        assert FirstOfUID(bundle, obj.uid, i) && forall k :: FirstOfUID(bundle, obj.uid, k) ==> k == i;
    }
  }

  /** A deletion is reported exactly when the handler should take it and there is an object to delete. */
  lemma DeleteExactly(options: Options, bundle: Bundle, obj: Object)
    ensures Deleted(options, bundle, obj).Some? <==> options.shouldUpdate(obj) && exists i :: Deletes(bundle, obj, i)
    ensures Deleted(options, bundle, obj).Some? ==> TookDelete(bundle, obj, Deleted(options, bundle, obj).value)
  {
    match First(bundle, Same(obj)) {
      case None =>
      case Some(i) =>
        assert Deletes(bundle, obj, i) && forall k :: Deletes(bundle, obj, k) ==> k == i;
    }
  }

  ghost predicate UniqueUIDs(bundle: Bundle) {
    forall i, j :: 0 <= i < j < |bundle| ==> bundle[i].uid != bundle[j].uid
  }

  ghost predicate KeepsUID(options: Options) {
    forall o: Object :: options.tweak(o).uid == o.uid
  }

  /** What the bundle has for a UID. */
  ghost function Lookup(bundle: Bundle, uid: string): Option<Object> {
    if exists i :: 0 <= i < |bundle| && bundle[i].uid == uid
    then
      var i :| 0 <= i < |bundle| && bundle[i].uid == uid;
      Some(bundle[i])
    else None
  }

  /** A changed bundle has the new object in place of the old one of its UID, and is otherwise as it was. */
  lemma UpdateMeans(options: Options, bundle: Bundle, obj: Object, uid: string)
    requires UniqueUIDs(bundle) && KeepsUID(options) && Updated(options, bundle, obj).Some?
    ensures var after := Updated(options, bundle, obj).value;
            && UniqueUIDs(after)
            && Lookup(after, uid) == if uid != obj.uid then Lookup(bundle, uid)
                                     else Some(if Lookup(bundle, uid).None? then obj else options.tweak(obj))
  {
    var after := Updated(options, bundle, obj).value;
    match First(bundle, SameUID(obj.uid)) {
      case None =>
        assert after[|bundle|] == obj;
        LookupIs(after, |bundle|);
      case Some(i) =>
        LookupIs(after, i);
        LookupIs(bundle, i);
    }
    if uid != obj.uid {
      if k :| 0 <= k < |bundle| && bundle[k].uid == uid {
        LookupIs(bundle, k);
        assert after[k] == bundle[k];
        LookupIs(after, k);
      }
    }
  }

  lemma LookupIs(bundle: Bundle, i: nat)
    requires UniqueUIDs(bundle) && i < |bundle|
    ensures Lookup(bundle, bundle[i].uid) == Some(bundle[i])
  {
  }

  lemma WithoutOne(bundle: Bundle, i: nat, uid: string)
    requires UniqueUIDs(bundle) && i < |bundle|
    ensures var after := bundle[..i] + bundle[i + 1..];
            UniqueUIDs(after) && Lookup(after, uid) == if uid == bundle[i].uid then None else Lookup(bundle, uid)
  {
    var after := bundle[..i] + bundle[i + 1..];
    assert forall k :: 0 <= k < |after| ==> after[k] == bundle[if k < i then k else k + 1];
    if k :| 0 <= k < |bundle| && bundle[k].uid == uid && k != i {
      assert after[if k < i then k else k - 1] == bundle[k];
      LookupIs(after, if k < i then k else k - 1);
      LookupIs(bundle, k);
    }
  }

  /** A delete takes out the one object it finds and nothing else. */
  lemma DeleteMeans(options: Options, bundle: Bundle, obj: Object, uid: string)
    requires UniqueUIDs(bundle) && Deleted(options, bundle, obj).Some?
    ensures var after := Deleted(options, bundle, obj).value;
            && UniqueUIDs(after)
            && (exists i :: Deletes(bundle, obj, i))
            && forall i :: Deletes(bundle, obj, i) ==>
                 Lookup(after, uid) == if uid == bundle[i].uid then None else Lookup(bundle, uid)
    ensures obj.uid != "" ==> Lookup(Deleted(options, bundle, obj).value, obj.uid) == None
  {
    DeleteExactly(options, bundle, obj);
    forall i | Deletes(bundle, obj, i)
      ensures var after := Deleted(options, bundle, obj).value;
              && UniqueUIDs(after)
              && Lookup(after, uid) == (if uid == bundle[i].uid then None else Lookup(bundle, uid))
              && (obj.uid != "" ==> Lookup(after, obj.uid) == None)
    {
      WithoutOne(bundle, i, uid);
      WithoutOne(bundle, i, obj.uid);
    }
  }

  // ---------------------------------------------------------------- the emitter

  /** An event as sent: stamped with the version, without data when the payload did not marshal. */
  datatype Send = Send(version: Stamp, data: Option<Bundle>)

  datatype Agent = Agent(bundle: Bundle, current: Stamp, lastSent: Stamp, sent: seq<Send>)

  const NEW_AGENT := Agent([], ZERO, ZERO, [])

  datatype Action =
    | Update(obj: Object)
    | Delete(obj: Object)
    | Resync
    | Sync(marshals: bool, delivered: bool)

  function Changed(a: Agent, after: Option<Bundle>): Agent {
    match after
    case None => a
    case Some(bundle) => a.(bundle := bundle, current := a.current.Incr())
  }

  predicate ShouldSend(a: Agent) {
    a.current.NewerThan(a.lastSent)
  }

  /** One emitter's turn of syncEvents: a send that fails leaves everything for the next turn. */
  function Synced(options: Options, a: Agent, marshals: bool, delivered: bool): Agent {
    if !ShouldSend(a) || !delivered then a
    else
      Agent(options.postSend(a.bundle), a.current.Next(), a.current.Next(),
            a.sent + [Send(a.current, if marshals then Some(a.bundle) else None)])
  }

  function Apply(options: Options, a: Agent, action: Action): Agent {
    match action
    case Update(obj) => Changed(a, Updated(options, a.bundle, obj))
    case Delete(obj) => Changed(a, Deleted(options, a.bundle, obj))
    case Resync => a.(current := a.current.Incr())
    case Sync(marshals, delivered) => Synced(options, a, marshals, delivered)
  }

  function After(options: Options, actions: seq<Action>): Agent {
    if actions == [] then NEW_AGENT
      else Apply(options, After(options, actions[..|actions| - 1]), actions[|actions| - 1])
  }

  // ---------------------------------------------------------------- every run

  /** Generations count the sends, and values grow from one send to the next. */
  ghost predicate SendLog(sent: seq<Send>) {
    && (forall i :: 0 <= i < |sent| ==> sent[i].version.generation == i && sent[i].version.value > 0)
    && (forall i, j :: 0 <= i < j < |sent| ==> sent[i].version.value < sent[j].version.value)
  }

  /** What was sent last, and what the hook left of it. */
  function LastBundle(options: Options, sent: seq<Send>): Option<Bundle> {
    if sent == [] then Some([])
    else
      match sent[|sent| - 1].data
      case None => None
      case Some(data) => Some(options.postSend(data))
  }

  ghost predicate KeepsUnique(options: Options) {
    KeepsUID(options) && forall b: Bundle :: UniqueUIDs(b) ==> UniqueUIDs(options.postSend(b))
  }

  ghost predicate Inv(options: Options, a: Agent, steps: nat) {
    && SendLog(a.sent)
    && a.current.generation == a.lastSent.generation == |a.sent|
    && a.lastSent.value == (if a.sent == [] then 0 else a.sent[|a.sent| - 1].version.value)
    && a.lastSent.value <= a.current.value
    && a.current.value + a.current.generation <= steps
    && (KeepsUnique(options) ==> UniqueUIDs(a.bundle))
    && (a.current == a.lastSent && LastBundle(options, a.sent).Some? ==> LastBundle(options, a.sent) == Some(a.bundle))
  }

  lemma ChangedInv(options: Options, a: Agent, after: Option<Bundle>, steps: nat)
    requires Inv(options, a, steps) && steps + 1 < TWO_TO_64
    requires KeepsUnique(options) && after.Some? ==> UniqueUIDs(after.value)
    ensures Inv(options, Changed(a, after), steps + 1)
  {
  }

  lemma SyncedInv(options: Options, a: Agent, marshals: bool, delivered: bool, steps: nat)
    requires Inv(options, a, steps) && steps + 1 < TWO_TO_64
    ensures Inv(options, Synced(options, a, marshals, delivered), steps + 1)
  {
    var a' := Synced(options, a, marshals, delivered);
    if a' != a {
      assert a'.sent[..|a.sent|] == a.sent;
      assert a.current.value > a.lastSent.value;
    }
  }

  lemma StepInv(options: Options, a: Agent, action: Action, steps: nat)
    requires Inv(options, a, steps) && steps + 1 < TWO_TO_64
    ensures Inv(options, Apply(options, a, action), steps + 1)
  {
    match action {
      case Update(obj) =>
        if KeepsUnique(options) && Updated(options, a.bundle, obj).Some? {
          UpdateMeans(options, a.bundle, obj, obj.uid);
        }
        ChangedInv(options, a, Updated(options, a.bundle, obj), steps);
      case Delete(obj) =>
        if KeepsUnique(options) && Deleted(options, a.bundle, obj).Some? {
          DeleteMeans(options, a.bundle, obj, obj.uid);
        }
        ChangedInv(options, a, Deleted(options, a.bundle, obj), steps);
      case Resync =>
        ChangedInv(options, a, Some(a.bundle), steps);
      case Sync(marshals, delivered) =>
        SyncedInv(options, a, marshals, delivered, steps);
    }
  }

  lemma {:induction false} RunInv(options: Options, actions: seq<Action>)
    requires |actions| < TWO_TO_64
    ensures Inv(options, After(options, actions), |actions|)
  {
    if actions != [] {
      RunInv(options, actions[..|actions| - 1]);
      StepInv(options, After(options, actions[..|actions| - 1]), actions[|actions| - 1], |actions| - 1);
    }
  }

  /**
    No unsent change: in fewer than 2^64 steps of any kind, whenever the emitter has nothing to send, the bundle
    is what the last event carried (after the hook, if there is one), or the empty bundle before the first send,
    if and only if that event had its data. The bundle never has two objects of one UID.
   */
  lemma NoUnsentChange(options: Options, actions: seq<Action>)
    requires |actions| < TWO_TO_64
    ensures var a := After(options, actions);
            && (KeepsUnique(options) ==> UniqueUIDs(a.bundle))
            && (!ShouldSend(a) ==> (LastBundle(options, a.sent) == Some(a.bundle) <==> !LastWithoutData(a)))
  {
    RunInv(options, actions);
  }

  ghost predicate LastWithoutData(a: Agent) {
    a.sent != [] && a.sent[|a.sent| - 1].data.None?
  }

  /** The other half: after a change the handler reports, the next sync that goes through sends the new bundle. */
  lemma ChangeIsSent(options: Options, actions: seq<Action>, after: Bundle)
    requires |actions| + 1 < TWO_TO_64
    ensures var a := After(options, actions);
            var a' := Changed(a, Some(after));
            && ShouldSend(a')
            && Synced(options, a', true, true).sent == a.sent + [Send(a'.current, Some(after))]
  {
    RunInv(options, actions);
    var a := After(options, actions);
    assert a.current.Incr() == Stamp(a.current.generation, a.current.value + 1);
  }

  /** A resync makes the next sync that goes through send the bundle again, changed or not, and only once. */
  lemma ResyncIsSent(options: Options, actions: seq<Action>)
    requires |actions| + 1 < TWO_TO_64
    ensures var a := After(options, actions);
            var resynced := Apply(options, a, Resync);
            var synced := Apply(options, resynced, Sync(true, true));
            && resynced.bundle == a.bundle && resynced.sent == a.sent
            && synced.sent == a.sent + [Send(resynced.current, Some(a.bundle))]
            && synced.bundle == options.postSend(a.bundle) && !ShouldSend(synced)
  {
    ChangeIsSent(options, actions, After(options, actions).bundle);
  }

  /**
    Unless its send has just failed, an emitter leaves its turn with the Value of the last event it sent: a
    dependent event stamped then asks the manager for a Value that was really sent.
   */
  lemma TurnLeavesSentValue(options: Options, actions: seq<Action>, marshals: bool, delivered: bool)
    requires |actions| < TWO_TO_64
    ensures var a := After(options, actions);
            var a' := Synced(options, a, marshals, delivered);
            (a'.current.value == if a'.sent == [] then 0 else a'.sent[|a'.sent| - 1].version.value) <==>
              !ShouldSend(a) || delivered
  {
    RunInv(options, actions);
  }

  /** Generations 0, 1, 2, … with growing positive values: what every emitter sends. */
  lemma SendsAreOrdered(options: Options, actions: seq<Action>)
    requires |actions| < TWO_TO_64
    ensures SendLog(After(options, actions).sent)
  {
    RunInv(options, actions);
  }

  // ---------------------------------------------------------------- the two exceptions

  ghost predicate OnlySyncs(actions: seq<Action>) {
    forall k :: 0 <= k < |actions| ==> actions[k].Sync?
  }

  /**
    The complement: when a run's pending payload does not marshal in the sync that sends it, the event goes out
    without data, the emitter has nothing to send, and no number of further syncs sends the bundle.
   */
  lemma {:induction false} UnmarshalledChangeIsNotResent(options: Options, actions: seq<Action>, syncs: seq<Action>)
    requires |actions| + 1 < TWO_TO_64 && ShouldSend(After(options, actions)) && OnlySyncs(syncs)
    ensures var before, a := After(options, actions), After(options, actions + [Sync(false, true)] + syncs);
            && !ShouldSend(a) && LastWithoutData(a) && LastBundle(options, a.sent) != Some(a.bundle)
            && a.sent == before.sent + [Send(before.current, None)] && a.bundle == options.postSend(before.bundle)
  {
    var run := actions + [Sync(false, true)];
    if syncs == [] {
      assert run + syncs == run && run[..|run| - 1] == actions;
    } else {
      var n := |syncs| - 1;
      UnmarshalledChangeIsNotResent(options, actions, syncs[..n]);
      assert (run + syncs)[..|run| + n] == run + syncs[..n];
    }
  }

  /**
    Incrementing makes the emitter send unless the value just sent is the largest one, when the counter wraps to
    zero.
   */
  lemma WrapHidesChange(a: Agent)
    requires a.current == a.lastSent
    ensures ShouldSend(a.(current := a.current.Incr())) <==> a.current.value < TWO_TO_64 - 1
  {
  }
}
