/**
  An agent's emitter and the manager's element of its type, end to end: what the emitter sends, delivered
  in order to a fresh element, is accepted event by event, gaps and restarts included, and redeliveries are
  dropped.
 */
module Protocol {
  import opened Basics
  import opened Versions
  import opened ConflationRuns
  import opened ConflationOrder
  import AgentModel

  /** The versions an emitter stamps: generations count from zero, values are positive and grow. */
  ghost predicate Versioned(sends: seq<Stamp>) {
    && (forall i :: 0 <= i < |sends| ==> sends[i].generation == i && sends[i].value > 0)
    && (forall i, j :: 0 <= i < j < |sends| ==> sends[i].value < sends[j].value)
  }

  ghost function Stamps(sent: seq<AgentModel.Send>): seq<Stamp> {
    seq(|sent|, i requires 0 <= i < |sent| => sent[i].version)
  }

  /** Later sends are newer, and only the first one resets the manager's element. */
  lemma LaterIsNewer(sends: seq<Stamp>, i: nat, j: nat)
    requires Versioned(sends) && i < |sends| && j < |sends|
    ensures sends[i].NewerThan(sends[j]) <==> i > j
    ensures sends[i].InitGen() <==> i == 0
    ensures sends[i].NewerThan(ZERO)
  {
  }

  ghost predicate ArrivesAt<M>(s: System<M>, a: Action<M>, p: nat) {
    a.Arrive? && p < |s.unit.slots| && a.event.eventType == s.unit.slots[p].eventType
  }

  ghost predicate AcceptedBy<M>(s: System<M>, a: Action<M>, s': System<M>, p: nat) {
    a.Arrive? && p < |s.accepted| && s'.accepted == s.accepted[p := s.accepted[p] + [a.id]]
  }

  /** Element p is in order and holds an event of the given version, or none yet. */
  ghost predicate Holding<M>(s: System<M>, p: nat, held: Option<Stamp>) {
    && p < |s.unit.slots| && s.unit.slots[p].IsComplete() && SlotOrdered(s, p)
    && match held
       case None => s.unit.slots[p].metadata.None?
       case Some(v) =>
         && s.unit.slots[p].metadata.Some? && s.unit.slots[p].metadata.value in s.store
         && s.store[s.unit.slots[p].metadata.value].version == v
  }

  ghost predicate Taken(held: Option<Stamp>, v: Stamp) {
    held.None? || v.InitGen() || v.NewerThan(held.value)
  }

  /**
    An element in order accepts an event exactly when it is the first, of a first generation, or newer than what it
    holds.
   */
  lemma ArrivalDecided<M>(s: System<M>, a: Action<M>, p: nat, held: Option<Stamp>)
    requires Inv(s) && Enabled(s, a) && ArrivesAt(s, a, p) && Holding(s, p, held)
    ensures AcceptedBy(s, a, Apply(s, a), p) <==> Taken(held, a.meta.version)
    ensures !Taken(held, a.meta.version) ==> Apply(s, a).accepted == s.accepted
  {
    ArrivalAt(s, a, p);
    assert s.accepted[p] + [a.id] != s.accepted[p];
    assert s.accepted[p := s.accepted[p] + [a.id]][p] != s.accepted[p];
  }

  lemma NoJobsBeforeFirst<M>(s: System<M>, a: Action<M>, p: nat)
    requires Inv(s) && p < |s.unit.slots| && s.unit.slots[p].metadata.None?
    ensures Orderly(s, a, p)
  {
    assert HistoryOk(s, p);
    forall j | j in s.jobs ensures s.jobs[j].slot != p {
      assert JobOk(s, j);
    }
  }

  /** An orderly arrival leaves the element in order, holding the event if it was taken. */
  lemma ArrivalKeepsOrder<M>(s: System<M>, a: Action<M>, p: nat, held: Option<Stamp>)
    requires Inv(s) && Enabled(s, a) && ArrivesAt(s, a, p) && Holding(s, p, held) && Orderly(s, a, p)
    ensures Holding(Apply(s, a), p, if Taken(held, a.meta.version) then Some(a.meta.version) else held)
  {
    StepOrder(s, a, p);
    ArrivalAt(s, a, p);
  }

  /** Element p is as registered and holds what it held, at the same version. */
  ghost predicate HoldsSame<M>(s: System<M>, s': System<M>, p: nat) {
    && p < |s.unit.slots| == |s'.unit.slots| && s'.unit.slots[p].SameKind(s.unit.slots[p])
    && s'.unit.slots[p].metadata == s.unit.slots[p].metadata
    && (s.unit.slots[p].metadata.Some? ==>
          var h := s.unit.slots[p].metadata.value;
          h in s.store ==> h in s'.store && s'.store[h].version == s.store[h].version)
  }

  lemma DispatchHolds<M>(s: System<M>, p: nat)
    requires Inv(s) && Enabled(s, Dispatch) && p < |s.unit.slots|
    ensures HoldsSame(s, Dispatched(s), p)
  {
    DispatchedRel(s);
  }

  lemma AttemptHolds<M>(s: System<M>, j: nat, ok: bool, p: nat)
    requires Inv(s) && Enabled(s, Attempt(j, ok)) && p < |s.unit.slots|
    ensures JobOk(s, j) && HoldsSame(s, Attempted(s, j, ok), p)
  {
    JobsKnown(s, j);
    assert JobOk(s, j);
  }

  lemma ReportHolds<M>(s: System<M>, j: nat, p: nat)
    requires Inv(s) && Enabled(s, Report(j)) && p < |s.unit.slots|
    ensures JobOk(s, j) && HoldsSame(s, Reported(s, j), p)
  {
    ReportAt(s, j);
    ReportedRel(s, j);
  }

  /** Only an arrival of its own type changes what an element holds. */
  lemma WorkHolds<M>(s: System<M>, a: Action<M>, p: nat)
    requires Inv(s) && Enabled(s, a) && !ArrivesAt(s, a, p) && p < |s.unit.slots|
    ensures HoldsSame(s, Apply(s, a), p)
  {
    match a
    case Arrive(_, _, _) => ArrivalAt(s, a, p);
    case Dispatch => DispatchHolds(s, p);
    case Attempt(j, ok) => AttemptHolds(s, j, ok, p);
    case Report(j) => ReportHolds(s, j, p);
  }

  /** Everything else the unit does leaves the element in order, too. */
  lemma WorkKeepsOrder<M>(s: System<M>, a: Action<M>, p: nat, held: Option<Stamp>)
    requires Inv(s) && Enabled(s, a) && !ArrivesAt(s, a, p) && Holding(s, p, held)
    ensures Holding(Apply(s, a), p, held)
  {
    StepOrder(s, a, p);
    WorkHolds(s, a, p);
  }

  lemma StepKeepsOrder<M>(s: System<M>, a: Action<M>, s': System<M>, p: nat, held: Option<Stamp>)
    requires Step(s, a, s') && Holding(s, p, held) && (ArrivesAt(s, a, p) ==> Orderly(s, a, p))
    ensures Holding(s', p, if ArrivesAt(s, a, p) && Taken(held, a.meta.version) then Some(a.meta.version) else held)
  {
    if ArrivesAt(s, a, p) {
      ArrivalKeepsOrder(s, a, p, held);
    } else {
      WorkKeepsOrder(s, a, p, held);
    }
  }

  // ---------------------------------------------------------------- over runs

  /** The delivery of send `send` of the agent's incarnation `life`. */
  datatype Delivery = Delivery(life: nat, send: nat)

  /** A send not delivered before: the first of an incarnation, or a later one than any before, perhaps after a gap. */
  predicate IsNew(last: Option<Delivery>, d: Delivery) {
    last.None? || d.life != last.value.life || d.send > last.value.send
  }

  /**
    An incarnation begins with its first send, which is not repeated later; what comes first of all may be any send.
   */
  predicate InTurn(last: Option<Delivery>, d: Delivery) {
    last.Some? ==> (d.life == last.value.life <==> d.send > 0)
  }

  /** The newest send delivered to element p before action n. */
  ghost function Last<M>(tr: seq<System<M>>, actions: seq<Action<M>>, p: nat, deliveries: seq<Delivery>,
                         n: nat): Option<Delivery>
    requires |tr| == |actions| + 1 && |deliveries| == |actions| && n <= |actions|
  {
    if n == 0 then None
    else
      var last := Last(tr, actions, p, deliveries, n - 1);
      if ArrivesAt(tr[n - 1], actions[n - 1], p) && IsNew(last, deliveries[n - 1]) then Some(deliveries[n - 1])
        else last
  }

  /** The versions each incarnation of the agent sent. */
  ghost predicate AllVersioned(lives: seq<seq<Stamp>>) {
    forall c :: 0 <= c < |lives| ==> Versioned(lives[c])
  }

  ghost predicate IsSend(lives: seq<seq<Stamp>>, d: Delivery) {
    d.life < |lives| && d.send < |lives[d.life]|
  }

  ghost function VersionOf(lives: seq<seq<Stamp>>, last: Option<Delivery>): Option<Stamp>
    requires last.Some? ==> IsSend(lives, last.value)
  {
    match last
    case None => None
    case Some(d) => Some(lives[d.life][d.send])
  }

  /**
    Every arrival at p is a send in its turn or the repetition of an earlier one that is not the first, and a
    restarted agent's first send meets no superseded job at least as new as it.
   */
  ghost predicate DeliversInOrder<M>(tr: seq<System<M>>, actions: seq<Action<M>>, p: nat,
                                     lives: seq<seq<Stamp>>, deliveries: seq<Delivery>)
  {
    && Run(tr, actions) && |deliveries| == |actions|
    && forall n :: 0 <= n < |actions| && ArrivesAt(tr[n], actions[n], p) ==>
         var last, d := Last(tr, actions, p, deliveries, n), deliveries[n];
         && IsSend(lives, d) && actions[n].meta.version == lives[d.life][d.send]
         && InTurn(last, d) && (last.Some? && d.send == 0 ==> Orderly(tr[n], actions[n], p))
  }

  /** A delivery in its turn is taken exactly when it is new. */
  lemma TakenIsNew(lives: seq<seq<Stamp>>, last: Option<Delivery>, d: Delivery)
    requires AllVersioned(lives) && IsSend(lives, d) && InTurn(last, d) && (last.Some? ==> IsSend(lives, last.value))
    ensures Taken(VersionOf(lives, last), lives[d.life][d.send]) <==> IsNew(last, d)
  {
    LaterIsNewer(lives[d.life], d.send, d.send);
    if last.Some? && last.value.life == d.life {
      LaterIsNewer(lives[d.life], d.send, last.value.send);
    }
  }

  ghost predicate InOrderAt<M>(tr: seq<System<M>>, actions: seq<Action<M>>, p: nat,
                               lives: seq<seq<Stamp>>, deliveries: seq<Delivery>, n: nat)
    requires |tr| == |actions| + 1 && |deliveries| == |actions| && n <= |actions|
  {
    var last := Last(tr, actions, p, deliveries, n);
    (last.Some? ==> IsSend(lives, last.value)) && Holding(tr[n], p, VersionOf(lives, last))
  }

  lemma OrderlyInTurn<M>(s: System<M>, a: Action<M>, p: nat, lives: seq<seq<Stamp>>, last: Option<Delivery>,
                         d: Delivery)
    requires Inv(s) && ArrivesAt(s, a, p) && AllVersioned(lives) && IsSend(lives, d)
    requires a.meta.version == lives[d.life][d.send]
    requires last.Some? ==> IsSend(lives, last.value)
    requires Holding(s, p, VersionOf(lives, last)) && (last.Some? && d.send == 0 ==> Orderly(s, a, p))
    ensures Orderly(s, a, p)
  {
    LaterIsNewer(lives[d.life], d.send, d.send);
    if last.None? {
      NoJobsBeforeFirst(s, a, p);
    }
  }

  lemma AdvanceOne<M>(tr: seq<System<M>>, actions: seq<Action<M>>, p: nat,
                      lives: seq<seq<Stamp>>, deliveries: seq<Delivery>, n: nat)
    requires DeliversInOrder(tr, actions, p, lives, deliveries) && AllVersioned(lives) && n < |actions|
    requires InOrderAt(tr, actions, p, lives, deliveries, n)
    ensures InOrderAt(tr, actions, p, lives, deliveries, n + 1)
  {
    var last, d := Last(tr, actions, p, deliveries, n), deliveries[n];
    assert Step(tr[n], actions[n], tr[n + 1]);
    if ArrivesAt(tr[n], actions[n], p) {
      OrderlyInTurn(tr[n], actions[n], p, lives, last, d);
      TakenIsNew(lives, last, d);
    }
    StepKeepsOrder(tr[n], actions[n], tr[n + 1], p, VersionOf(lives, last));
  }

  lemma RunInOrder<M>(tr: seq<System<M>>, actions: seq<Action<M>>, p: nat,
                      lives: seq<seq<Stamp>>, deliveries: seq<Delivery>, n: nat)
    requires DeliversInOrder(tr, actions, p, lives, deliveries) && AllVersioned(lives)
    requires n <= |actions| && p < |tr[0].unit.slots| && tr[0].unit.slots[p].IsComplete()
    ensures InOrderAt(tr, actions, p, lives, deliveries, n)
  {
    for k := 0 to n
      invariant InOrderAt(tr, actions, p, lives, deliveries, k)
    {
      AdvanceOne(tr, actions, p, lives, deliveries, k);
    }
  }

  /** What the incarnations of an agent sent in their runs. */
  ghost function Sent(options: AgentModel.Options, lives: seq<seq<AgentModel.Action>>): (sent: seq<seq<Stamp>>)
    ensures |sent| == |lives|
  {
    seq(|lives|, c requires 0 <= c < |lives| => Stamps(AgentModel.After(options, lives[c]).sent))
  }

  lemma SentIsVersioned(options: AgentModel.Options, lives: seq<seq<AgentModel.Action>>)
    requires forall c :: 0 <= c < |lives| ==> |lives[c]| < TWO_TO_64
    ensures AllVersioned(Sent(options, lives))
  {
    forall c | 0 <= c < |lives| ensures Versioned(Sent(options, lives)[c]) {
      AgentModel.SendsAreOrdered(options, lives[c]);
    }
  }

  /**
    Agent to manager: take any runs of an emitter, one for each time its agent was started, and any run of the
    manager's unit in which the sends reach a fresh complete element in their turn, some perhaps never,
    and some again, but for the first of an incarnation. Then a delivery is accepted exactly when it is new,
    and a repetition changes nothing of what was accepted.
   */
  lemma AgentToManager<M>(options: AgentModel.Options, lives: seq<seq<AgentModel.Action>>,
                          tr: seq<System<M>>, actions: seq<Action<M>>, p: nat, deliveries: seq<Delivery>, n: nat)
    requires forall c :: 0 <= c < |lives| ==> |lives[c]| < TWO_TO_64
    requires DeliversInOrder(tr, actions, p, Sent(options, lives), deliveries)
    requires p < |tr[0].unit.slots| && tr[0].unit.slots[p].IsComplete()
    requires n < |actions| && ArrivesAt(tr[n], actions[n], p)
    ensures var last := Last(tr, actions, p, deliveries, n);
            && (AcceptedBy(tr[n], actions[n], tr[n + 1], p) <==> IsNew(last, deliveries[n]))
            && (!IsNew(last, deliveries[n]) ==> tr[n + 1].accepted == tr[n].accepted)
  {
    var sent, last := Sent(options, lives), Last(tr, actions, p, deliveries, n);
    SentIsVersioned(options, lives);
    RunInOrder(tr, actions, p, sent, deliveries, n);
    assert Step(tr[n], actions[n], tr[n + 1]);
    ArrivalDecided(tr[n], actions[n], p, VersionOf(sent, last));
    TakenIsNew(sent, last, deliveries[n]);
  }
}
