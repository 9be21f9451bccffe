/** Without further inserts a unit hands out finitely many jobs, and never more than three for one event. */
module ConflationDraining {
  import opened Basics
  import opened ConflationModel
  import opened ConflationRuns
  import opened ConflationOrder

  /** Attempts the threshold still allows. */
  function Remaining(meta: Meta): nat {
    if meta.Processed() || meta.count < 0 then 0 else MAX_RETRY - meta.count
  }

  /** Hand-outs slot p can still cause: what its held event has left, less the attempt a fresh job has yet to make. */
  ghost function Budget<M>(s: System<M>, p: nat): nat
    requires p < |s.unit.slots|
  {
    var slot := s.unit.slots[p];
    if !slot.IsComplete() || slot.event.None? || slot.metadata.None? || slot.metadata.value !in s.store then 0
    else
      var left := Remaining(s.store[slot.metadata.value]);
      if left > 0 && Untried(s, slot.metadata.value) then left - 1 else left
  }

  ghost function Potential<M>(s: System<M>, n: nat): nat
    requires n <= |s.unit.slots|
  {
    if n == 0 then 0 else Potential(s, n - 1) + Budget(s, n - 1)
  }

  lemma {:induction false} PotentialFalls<M>(s: System<M>, s': System<M>, n: nat)
    requires n <= |s.unit.slots| && n <= |s'.unit.slots|
    requires forall p :: 0 <= p < n ==> Budget(s', p) <= Budget(s, p)
    ensures Potential(s', n) <= Potential(s, n)
    ensures forall p :: 0 <= p < n && Budget(s', p) < Budget(s, p) ==> Potential(s', n) < Potential(s, n)
  {
    if n > 0 {
      PotentialFalls(s, s', n - 1);
    }
  }

  lemma {:induction false} PotentialBound<M>(s: System<M>, n: nat)
    requires n <= |s.unit.slots|
    ensures Potential(s, n) <= MAX_RETRY * n
  {
    if n > 0 {
      PotentialBound(s, n - 1);
    }
  }

  lemma HandedBudget<M>(s: System<M>, s': System<M>, q: nat, p: nat)
    requires Inv(s) && HandRel(s, s', q) && p < |s.unit.slots|
    ensures Budget(s', p) <= Budget(s, p)
    ensures p == q ==> Budget(s', p) < Budget(s, p)
  {
    forall j | j in s.jobs ensures j != s.nextJob && s.jobs[j].slot != q {
      assert JobOk(s, j);
    }
    if p == q {
      var m := s.unit.slots[q].metadata.value;
      assert SlotOk(s.unit.slots[q], s.store);
      forall j | j in s.jobs && s.jobs[j].metadata == m ensures s.jobs[j].slot == q {
        JobsKnown(s, j);
      }
      assert !Untried(s, m);
      assert s'.jobs[s.nextJob].metadata == m && !s'.jobs[s.nextJob].tried;
      assert Untried(s', m);
    } else if s.unit.slots[p].metadata.Some? {
      KeepsUntried(s, s', s.unit.slots[p].metadata.value);
    }
  }

  lemma KeepsUntried<M>(s: System<M>, s': System<M>, m: M)
    requires forall j :: j in s.jobs ==> j in s'.jobs && s'.jobs[j] == s.jobs[j]
    ensures Untried(s, m) ==> Untried(s', m)
  {
    if Untried(s, m) {
      var j :| j in s.jobs && s.jobs[j].metadata == m && !s.jobs[j].tried;
      assert s'.jobs[j].metadata == m;
    }
  }

  lemma AttemptBudget<M>(s: System<M>, j: nat, ok: bool, p: nat)
    requires Inv(s) && Enabled(s, Attempt(j, ok)) && p < |s.unit.slots|
    ensures JobOk(s, j) && Budget(Attempted(s, j, ok), p) <= Budget(s, p)
  {
    JobsKnown(s, j);
    assert JobOk(s, j);
    var s' := Attempted(s, j, ok);
    var slot := s.unit.slots[p];
    if slot.metadata.Some? {
      var m := slot.metadata.value;
      if m != s.jobs[j].metadata && Untried(s, m) {
        var i :| i in s.jobs && s.jobs[i].metadata == m && !s.jobs[i].tried;
        assert s'.jobs[i].metadata == m && !s'.jobs[i].tried;
      }
    }
  }

  /** A slot that holds the same event, or none any more, can cause no more hand-outs. */
  lemma BudgetKept<M>(s: System<M>, s': System<M>, p: nat)
    requires p < |s.unit.slots| && p < |s'.unit.slots| && s'.store == s.store
    requires s'.unit.slots[p].mode == s.unit.slots[p].mode && s'.unit.slots[p].metadata == s.unit.slots[p].metadata
    requires s'.unit.slots[p].event.Some? ==> s.unit.slots[p].event.Some?
    requires s.unit.slots[p].metadata.Some? && Untried(s, s.unit.slots[p].metadata.value) ==>
               Untried(s', s.unit.slots[p].metadata.value)
    ensures Budget(s', p) <= Budget(s, p)
  {
  }

  /** A report takes away only a job that was tried. */
  lemma ReportKeepsUntried<M>(s: System<M>, s': System<M>, j: nat, m: M)
    requires j in s.jobs && s.jobs[j].tried && s'.jobs == s.jobs - {j}
    ensures Untried(s, m) ==> Untried(s', m)
  {
    if Untried(s, m) {
      var i :| i in s.jobs && s.jobs[i].metadata == m && !s.jobs[i].tried;
      assert s'.jobs[i].metadata == m && !s'.jobs[i].tried;
    }
  }

  lemma ReportBudget<M>(s: System<M>, j: nat, p: nat)
    requires Inv(s) && Enabled(s, Report(j)) && p < |s.unit.slots|
    ensures JobOk(s, j) && p < |Reported(s, j).unit.slots| && Budget(Reported(s, j), p) <= Budget(s, p)
  {
    ReportAt(s, j);
    ReportedRel(s, j);
    var s' := Reported(s, j);
    if s.unit.slots[p].metadata.Some? {
      ReportKeepsUntried(s, s', j, s.unit.slots[p].metadata.value);
    }
    BudgetKept(s, s', p);
  }

  /** The potential has not risen, and every hand-out has lowered it. */
  ghost predicate Falls<M>(s: System<M>, s': System<M>) {
    && |s'.unit.slots| == |s.unit.slots|
    && Potential(s', |s.unit.slots|) + |s'.handouts| <= Potential(s, |s.unit.slots|) + |s.handouts|
  }

  lemma HandedFalls<M>(s: System<M>, s': System<M>, q: nat)
    requires Inv(s) && HandRel(s, s', q)
    ensures Falls(s, s')
  {
    forall p | 0 <= p < |s.unit.slots| ensures Budget(s', p) <= Budget(s, p) {
      HandedBudget(s, s', q, p);
    }
    HandedBudget(s, s', q, q);
    PotentialFalls(s, s', |s.unit.slots|);
  }

  lemma NothingHandedFalls<M>(s: System<M>, s': System<M>)
    requires s'.unit.slots == s.unit.slots && s'.store == s.store && s'.jobs == s.jobs && s'.handouts == s.handouts
    ensures Falls(s, s')
  {
    forall p | 0 <= p < |s.unit.slots| ensures Budget(s', p) <= Budget(s, p) {
      if s.unit.slots[p].metadata.Some? {
        KeepsUntried(s, s', s.unit.slots[p].metadata.value);
      }
      BudgetKept(s, s', p);
    }
    PotentialFalls(s, s', |s.unit.slots|);
  }

  lemma DispatchFalls<M>(s: System<M>)
    requires Inv(s) && Enabled(s, Dispatch)
    ensures Falls(s, Dispatched(s))
  {
    DispatchedRel(s);
    if SomeReady(s.unit, s.store) {
      HandedFalls(s, Dispatched(s), NextReady(s.unit, s.store).value);
    } else {
      NothingHandedFalls(s, Dispatched(s));
    }
  }

  lemma AttemptFalls<M>(s: System<M>, j: nat, ok: bool)
    requires Inv(s) && Enabled(s, Attempt(j, ok))
    ensures JobOk(s, j) && Falls(s, Attempted(s, j, ok))
  {
    assert JobOk(s, j);
    var s' := Attempted(s, j, ok);
    forall p | 0 <= p < |s.unit.slots| ensures Budget(s', p) <= Budget(s, p) {
      AttemptBudget(s, j, ok, p);
    }
    PotentialFalls(s, s', |s.unit.slots|);
  }

  lemma ReportFalls<M>(s: System<M>, j: nat)
    requires Inv(s) && Enabled(s, Report(j))
    ensures JobOk(s, j) && Falls(s, Reported(s, j))
  {
    ReportAt(s, j);
    var s' := Reported(s, j);
    forall p | 0 <= p < |s.unit.slots| ensures Budget(s', p) <= Budget(s, p) {
      ReportBudget(s, j, p);
    }
    PotentialFalls(s, s', |s.unit.slots|);
  }

  /** No step but an insert raises the potential, and every hand-out lowers it. */
  lemma StepPotential<M>(s: System<M>, a: Action<M>, s': System<M>)
    requires Step(s, a, s') && !a.Arrive?
    ensures Falls(s, s')
  {
    match a
    case Dispatch => DispatchFalls(s);
    case Attempt(j, ok) => AttemptFalls(s, j, ok);
    case Report(j) => ReportFalls(s, j);
  }

  /** From any point of any run on, draining hands out at most three jobs for each slot. */
  lemma DrainingEnds<M>(tr: seq<System<M>>, actions: seq<Action<M>>, i: nat, k: nat)
    requires Run(tr, actions) && i <= k < |tr|
    requires forall n :: i <= n < k ==> !actions[n].Arrive?
    ensures |tr[k].unit.slots| == |tr[i].unit.slots|
    ensures Potential(tr[k], |tr[i].unit.slots|) + |tr[k].handouts| <= Potential(tr[i], |tr[i].unit.slots|) +
              |tr[i].handouts|
    ensures |tr[k].handouts| - |tr[i].handouts| <= MAX_RETRY * |tr[i].unit.slots|
  {
    forall n | i <= n < k ensures Falls(tr[n], tr[n + 1]) {
      assert Step(tr[n], actions[n], tr[n + 1]);
      StepPotential(tr[n], actions[n], tr[n + 1]);
    }
    FallingAdds(tr, i, k);
    PotentialBound(tr[i], |tr[i].unit.slots|);
  }

  lemma {:induction false} FallingAdds<M>(tr: seq<System<M>>, i: nat, k: nat)
    requires i <= k < |tr| && forall n :: i <= n < k ==> Falls(tr[n], tr[n + 1])
    ensures Falls(tr[i], tr[k])
    decreases k
  {
    if i < k {
      FallingAdds(tr, i, k - 1);
      assert Falls(tr[k - 1], tr[k - 1 + 1]);
    }
  }

  // ---------------------------------------------------------------- at most three hand-outs per event

  /** Each hand-out was followed by an attempt, except the one still waiting for its first. */
  ghost predicate HandoutsBounded<M>(s: System<M>, m: M) {
    && s.handouts[m] <= MAX_RETRY
    && (m !in s.store ==> s.handouts[m] == 0)
    && (m in s.store && s.store[m].count >= 0 ==> s.handouts[m] <= s.store[m].count + if Untried(s, m) then 1 else 0)
  }

  lemma StepHandouts<M>(s: System<M>, a: Action<M>, m: M)
    requires Inv(s) && Enabled(s, a) && HandoutsBounded(s, m)
    ensures HandoutsBounded(Apply(s, a), m)
  {
    var s' := Apply(s, a);
    match a {
      case Arrive(e, id, meta) => ArrivedHandouts(s, e, id, meta, m);
      case Dispatch =>
        DispatchedRel(s);
        if SomeReady(s.unit, s.store) {
          HandedHandouts(s, s', NextReady(s.unit, s.store).value, m);
        } else {
          KeepsUntried(s, s', m);
        }
      case Attempt(j, ok) => AttemptedHandouts(s, j, ok, m);
      case Report(j) => ReportedHandouts(s, j, m);
    }
  }

  lemma ArrivedHandouts<M>(s: System<M>, e: Event, id: M, meta: Meta, m: M)
    requires Inv(s) && Enabled(s, Arrive(e, id, meta)) && HandoutsBounded(s, m)
    ensures HandoutsBounded(Arrived(s, e, id, meta), m)
  {
    ArrivedRel(s, e, id, meta);
    assert s.nextJob in s.jobs ==> JobOk(s, s.nextJob);
    KeptHandouts(s, Arrived(s, e, id, meta), s.unit.priority[e.eventType], e, id, m);
  }

  lemma KeptHandouts<M>(s: System<M>, s': System<M>, p: nat, e: Event, id: M, m: M)
    requires HandoutsBounded(s, m) && s.nextJob !in s.jobs
    requires AcceptRel(s, s', p, e, id) || RejectRel(s, s', p, e, id)
    ensures HandoutsBounded(s', m)
  {
    KeepsUntried(s, s', m);
  }

  lemma HandedHandouts<M>(s: System<M>, s': System<M>, q: nat, m: M)
    requires Inv(s) && HandRel(s, s', q) && HandoutsBounded(s, m)
    ensures HandoutsBounded(s', m)
  {
    forall j | j in s.jobs
      ensures j != s.nextJob && s.jobs[j].slot != q && s.jobs[j].metadata != s.unit.slots[q].metadata.value {
      assert JobOk(s, j);
      JobsKnown(s, j);
      assert SlotOk(s.unit.slots[q], s.store);
    }
    KeepsUntried(s, s', m);
    if s.unit.slots[q].metadata == Some(m) {
      assert !Untried(s, m);
      assert s'.jobs[s.nextJob].metadata == m && !s'.jobs[s.nextJob].tried;
      assert Untried(s', m);
    }
  }

  lemma AttemptedHandouts<M>(s: System<M>, j: nat, ok: bool, m: M)
    requires Inv(s) && Enabled(s, Attempt(j, ok)) && HandoutsBounded(s, m)
    ensures JobOk(s, j) && HandoutsBounded(Attempted(s, j, ok), m)
  {
    JobsKnown(s, j);
    assert JobOk(s, j);
    var s' := Attempted(s, j, ok);
    if m != s.jobs[j].metadata && Untried(s, m) {
      var i :| i in s.jobs && s.jobs[i].metadata == m && !s.jobs[i].tried;
      assert s'.jobs[i].metadata == m && !s'.jobs[i].tried;
    }
  }

  lemma ReportedHandouts<M>(s: System<M>, j: nat, m: M)
    requires Inv(s) && Enabled(s, Report(j)) && HandoutsBounded(s, m)
    ensures JobOk(s, j) && HandoutsBounded(Reported(s, j), m)
  {
    ReportAt(s, j);
    var s' := Reported(s, j);
    if Untried(s, m) {
      var i :| i in s.jobs && s.jobs[i].metadata == m && !s.jobs[i].tried;
      assert s'.jobs[i].metadata == m && !s'.jobs[i].tried;
    }
  }

  lemma HandoutsOn<M>(tr: seq<System<M>>, actions: seq<Action<M>>, n: nat, m: M)
    requires Run(tr, actions) && n < |actions| && HandoutsBounded(tr[n], m)
    ensures HandoutsBounded(tr[n + 1], m)
  {
    assert Step(tr[n], actions[n], tr[n + 1]);
    StepHandouts(tr[n], actions[n], m);
  }

  lemma AtMostThreeHandouts<M>(tr: seq<System<M>>, actions: seq<Action<M>>, i: nat, m: M)
    requires Run(tr, actions) && i < |tr|
    ensures HandoutsBounded(tr[i], m)
  {
    for n := 0 to i
      invariant HandoutsBounded(tr[n], m)
    {
      HandoutsOn(tr, actions, n, m);
    }
  }
}
