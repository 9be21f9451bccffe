/**
  Patchers and trimmers working on one label row, each in its own pace: read the row, compute, write on
  condition that the version is still the one read, retry.
 */
module LabelRuns {
  import opened LabelModel

  datatype Row = Row(change: Change, version: nat)

  /** A committed write. */
  datatype Entry = Patched(patcher: nat, patch: Change) | Trimmed(observed: set<string>)

  const RETRY_ATTEMPTS := 5

  datatype Patcher = Reading(attempts: nat) | Writing(attempts: nat, read: Row) | Done(ok: bool)

  /** patches[p] is what patcher p has folded from its request; `log` holds the committed writes, oldest first. */
  datatype System = System(row: Row, patchers: map<nat, Patcher>, trimmers: map<nat, Row>, log: seq<Entry>)

  datatype Action =
    | PatchRead(patcher: nat)
    | PatchWrite(patcher: nat)
    | PatchError(patcher: nat)
    | TrimRead(trimmer: nat)
    | TrimWrite(trimmer: nat, observed: set<string>)

  function Starting(row: Row, patches: map<nat, Change>): System {
    System(row, map p | p in patches :: Reading(RETRY_ATTEMPTS), map[], [])
  }

  /** The row of the write is the one that was read; a zero version drops out of the patcher's condition. */
  predicate PatchMatches(read: Row, row: Row) {
    read.version == 0 || read.version == row.version
  }

  function Retried(attempts: nat): Patcher {
    if attempts <= 1 then Done(false) else Reading(attempts - 1)
  }

  /** One step; an action its process is not ready for changes nothing. */
  function Apply(s: System, patches: map<nat, Change>, a: Action): System {
    match a
    case PatchRead(p) =>
      if p in s.patchers && p in patches && s.patchers[p].Reading? then
        s.(patchers := s.patchers[p := if patches[p].Empty() then Done(true)
                                    else Writing(s.patchers[p].attempts, s.row)])
      else s
    case PatchWrite(p) =>
      if p in s.patchers && p in patches && s.patchers[p].Writing? then
        var Writing(attempts, read) := s.patchers[p];
        if PatchMatches(read, s.row) then
          System(Row(read.change.Merge(patches[p]), read.version + 1), s.patchers[p := Done(true)], s.trimmers,
                 s.log + [Patched(p, patches[p])])
        else s.(patchers := s.patchers[p := Retried(attempts)])
      else s
    case PatchError(p) =>
      if p in s.patchers && !s.patchers[p].Done? then s.(patchers := s.patchers[p := Retried(s.patchers[p].attempts)])
        else s
    case TrimRead(t) => s.(trimmers := s.trimmers[t := s.row])
    case TrimWrite(t, observed) =>
      if t in s.trimmers then
        var read, idle := s.trimmers[t], s.trimmers - {t};
        if read.change.deleted <= observed || read.version != s.row.version then s.(trimmers := idle)
        else
          var trimmed := s.row.change.(deleted := read.change.Trim(observed).deleted);
          System(Row(trimmed, read.version + 1), s.patchers, idle, s.log + [Trimmed(observed)])
      else s
  }

  function After(s: System, patches: map<nat, Change>, actions: seq<Action>): System {
    if actions == [] then s else Apply(After(s, patches, actions[..|actions| - 1]), patches, actions[|actions| - 1])
  }

  // ---------------------------------------------------------------- the reference: committed writes in order

  function ApplyEntry(c: Change, e: Entry): Change {
    match e
    case Patched(_, patch) => c.Merge(patch)
    case Trimmed(observed) => c.Trim(observed)
  }

  function Fold(c: Change, log: seq<Entry>): Change {
    if log == [] then c else ApplyEntry(Fold(c, log[..|log| - 1]), log[|log| - 1])
  }

  /** A row that was there once: the fold of as many writes as its version counts. */
  ghost predicate Was(first: Row, log: seq<Entry>, row: Row) {
    && first.version <= row.version <= first.version + |log|
    && row.change == Fold(first.change, log[..row.version - first.version])
  }

  /** Every write has its own version, the row is their fold, and whatever is being worked on is an earlier fold. */
  ghost predicate Faithful(first: Row, s: System) {
    && s.row.version == first.version + |s.log|
    && Was(first, s.log, s.row)
    && (forall p :: p in s.patchers && s.patchers[p].Writing? ==> Was(first, s.log, s.patchers[p].read))
    && (forall t :: t in s.trimmers ==> Was(first, s.log, s.trimmers[t]))
  }

  /** A write whose condition lost its zero version, on a row that has moved on. */
  predicate StaleZeroWrite(s: System, patches: map<nat, Change>, a: Action) {
    && a.PatchWrite? && a.patcher in s.patchers && a.patcher in patches
    && s.patchers[a.patcher].Writing? && s.patchers[a.patcher].read.version == 0 && s.row.version != 0
  }

  lemma StillWas(first: Row, log: seq<Entry>, e: Entry, row: Row)
    requires Was(first, log, row)
    ensures Was(first, log + [e], row)
  {
    assert (log + [e])[..row.version - first.version] == log[..row.version - first.version];
  }

  lemma CurrentWas(first: Row, log: seq<Entry>, row: Row, e: Entry)
    requires Was(first, log, row) && row.version == first.version + |log|
    ensures Was(first, log + [e], Row(ApplyEntry(row.change, e), row.version + 1))
  {
    assert log[..|log|] == log;
    assert (log + [e])[..|log| + 1] == log + [e] && (log + [e])[..|log|] == log;
  }

  /** Committing on the current row, whoever does it, keeps the run faithful. */
  lemma CommitKeepsFaithful(first: Row, s: System, s': System, read: Row, e: Entry)
    requires Faithful(first, s) && Was(first, s.log, read) && read.version == s.row.version
    requires s'.row == Row(ApplyEntry(read.change, e), read.version + 1) && s'.log == s.log + [e]
    requires forall p :: p in s'.patchers && s'.patchers[p].Writing? ==>
               p in s.patchers && s'.patchers[p] == s.patchers[p]
    requires forall t :: t in s'.trimmers ==> t in s.trimmers && s'.trimmers[t] == s.trimmers[t]
    ensures Faithful(first, s')
  {
    assert read == s.row;
    CurrentWas(first, s.log, read, e);
    forall p | p in s'.patchers && s'.patchers[p].Writing? ensures Was(first, s'.log, s'.patchers[p].read) {
      StillWas(first, s.log, e, s.patchers[p].read);
    }
    forall t | t in s'.trimmers ensures Was(first, s'.log, s'.trimmers[t]) {
      StillWas(first, s.log, e, s.trimmers[t]);
    }
  }

  /** A step keeps a faithful run faithful exactly when it is not a stale write at version zero. */
  lemma StepFaithful(first: Row, s: System, patches: map<nat, Change>, a: Action)
    requires Faithful(first, s)
    ensures Faithful(first, Apply(s, patches, a)) <==> !StaleZeroWrite(s, patches, a)
  {
    var s' := Apply(s, patches, a);
    if s'.log != s.log && !StaleZeroWrite(s, patches, a) {
      if a.PatchWrite? {
        CommitKeepsFaithful(first, s, s', s.patchers[a.patcher].read, Patched(a.patcher, patches[a.patcher]));
      } else {
        assert s.trimmers[a.trimmer] == s.row;
        CommitKeepsFaithful(first, s, s', s.trimmers[a.trimmer], Trimmed(a.observed));
      }
    }
  }

  ghost predicate NoStaleZeroWrite(first: Row, patches: map<nat, Change>, actions: seq<Action>) {
    forall n :: 0 <= n < |actions| ==>
      !StaleZeroWrite(After(Starting(first, patches), patches, actions[..n]), patches, actions[n])
  }

  lemma {:induction false} RunFaithful(first: Row, patches: map<nat, Change>, actions: seq<Action>)
    requires NoStaleZeroWrite(first, patches, actions)
    ensures Faithful(first, After(Starting(first, patches), patches, actions))
  {
    if actions != [] {
      var n := |actions| - 1;
      var before := After(Starting(first, patches), patches, actions[..n]);
      assert forall k :: 0 <= k < n ==> actions[..n][..k] == actions[..k] && actions[..n][k] == actions[k];
      RunFaithful(first, patches, actions[..n]);
      StepFaithful(first, before, patches, actions[n]);
    }
  }

  /** From version one on no write is stale: versions only grow. */
  lemma {:induction false} PositiveVersionsNeverStale(first: Row, patches: map<nat, Change>, actions: seq<Action>)
    requires first.version >= 1
    ensures NoStaleZeroWrite(first, patches, actions)
  {
    forall n | 0 <= n < |actions|
      ensures !StaleZeroWrite(After(Starting(first, patches), patches, actions[..n]), patches, actions[n])
    {
      PositiveVersionsNeverStale(first, patches, actions[..n]);
      RunFaithful(first, patches, actions[..n]);
    }
  }

  // ---------------------------------------------------------------- what gets through

  /**
    A patcher that wants to write and has the current row commits: its patch is the newest write, and it is done.
    From version one on, with a row that has moved on it writes nothing.
   */
  lemma PatchWriteMeans(s: System, patches: map<nat, Change>, p: nat)
    requires p in s.patchers && p in patches && s.patchers[p].Writing?
    ensures var s' := Apply(s, patches, PatchWrite(p));
            && (s.patchers[p].read == s.row ==>
                  && s'.log == s.log + [Patched(p, patches[p])] && s'.patchers == s.patchers[p := Done(true)]
                  && s'.row.version == s.row.version + 1
                  && forall m :: s'.row.change.On(m) == patches[p].On(s.row.change.On(m)))
            && (1 <= s.patchers[p].read.version != s.row.version ==>
                  && s'.row == s.row && s'.log == s.log && s'.patchers[p] != Done(true))
  {
    if s.patchers[p].read == s.row {
      forall m ensures s.row.change.Merge(patches[p]).On(m) == patches[p].On(s.row.change.On(m)) {
        MergeIsComposition(s.row.change, patches[p], m);
      }
    }
  }

  /**
    A trimmer with the current row commits exactly when some deleted key is no longer observed, and drops just
    those keys. With a row that has moved on it writes nothing.
   */
  lemma TrimWriteMeans(s: System, patches: map<nat, Change>, t: nat, observed: set<string>)
    requires t in s.trimmers
    ensures var s' := Apply(s, patches, TrimWrite(t, observed));
            && t !in s'.trimmers
            && (s.trimmers[t].version != s.row.version ==> s'.row == s.row && s'.log == s.log)
            && (s.trimmers[t] == s.row ==>
                  if exists key :: key in s.row.change.deleted && key !in observed
                  then
                    && s'.log == s.log + [Trimmed(observed)] && s'.row.version == s.row.version + 1
                    && s'.row.change.labels == s.row.change.labels
                    && forall key :: key in s'.row.change.deleted <==> key in s.row.change.deleted && key in observed
                  else s'.row == s.row && s'.log == s.log)
  {
    assert (exists key :: key in s.row.change.deleted && key !in observed) <==> !(s.row.change.deleted <= observed);
  }

  /** How many of a patcher's tries have failed. */
  ghost function Failures(first: Row, patches: map<nat, Change>, actions: seq<Action>, p: nat): nat {
    if actions == [] then 0
    else
      var n := |actions| - 1;
      var s := After(Starting(first, patches), patches, actions[..n]);
      Failures(first, patches, actions[..n], p) + if Fails(s, patches, actions[n], p) then 1 else 0
  }

  /** A try of patcher p fails: a database error, or a write whose version is not the row's. */
  ghost predicate Fails(s: System, patches: map<nat, Change>, a: Action, p: nat) {
    && p in s.patchers && p in patches && !s.patchers[p].Done?
    && (a == PatchError(p)
        || (a == PatchWrite(p) && s.patchers[p].Writing? && s.patchers[p].read.version != 0
            && s.patchers[p].read.version != s.row.version))
  }

  /** A patcher gives up after exactly five failed tries, and is still at it after fewer, unless it succeeded. */
  lemma {:induction false} FiveTries(first: Row, patches: map<nat, Change>, actions: seq<Action>, p: nat)
    requires p in patches
    ensures var s, failures := After(Starting(first, patches), patches, actions), Failures(first, patches, actions, p);
            && s.patchers.Keys == patches.Keys && failures <= 5
            && (s.patchers[p] == Done(false) <==> failures == 5)
            && (!s.patchers[p].Done? ==> s.patchers[p].attempts == 5 - failures)
  {
    if actions != [] {
      FiveTries(first, patches, actions[..|actions| - 1], p);
    }
  }

  // ---------------------------------------------------------------- no lost label update

  ghost function Commits(log: seq<Entry>, p: nat): nat {
    if log == [] then 0
    else Commits(log[..|log| - 1], p) + if log[|log| - 1].Patched? && log[|log| - 1].patcher == p then 1 else 0
  }

  /** A patcher has committed once if it reports success with something to write, and not at all otherwise. */
  ghost predicate OnceEach(s: System, patches: map<nat, Change>) {
    && s.patchers.Keys == patches.Keys
    && (forall p :: p in s.patchers ==>
          Commits(s.log, p) == if s.patchers[p] == Done(true) && !patches[p].Empty() then 1 else 0)
    && (forall p :: p in s.patchers && s.patchers[p].Writing? ==> !patches[p].Empty())
    && (forall n :: 0 <= n < |s.log| && s.log[n].Patched? ==>
          s.log[n].patcher in patches && s.log[n].patch == patches[s.log[n].patcher])
  }

  lemma CommitsAppend(log: seq<Entry>, e: Entry, p: nat)
    ensures Commits(log + [e], p) == Commits(log, p) + if e.Patched? && e.patcher == p then 1 else 0
  {
    assert (log + [e])[..|log|] == log;
  }

  /** How a step relates the two states, as far as commits are concerned. */
  ghost predicate StepRel(s: System, s': System, patches: map<nat, Change>) {
    && s'.patchers.Keys == s.patchers.Keys == patches.Keys
    && (forall p :: p in s'.patchers && s'.patchers[p].Writing? && s'.patchers[p] != s.patchers[p] ==>
          !patches[p].Empty())
    && (forall p :: p in s.patchers && s.patchers[p].Done? ==> s'.patchers[p] == s.patchers[p])
    && (s'.log == s.log ==>
          forall p :: p in s'.patchers && s'.patchers[p] == Done(true) && !patches[p].Empty() ==>
            s.patchers[p] == Done(true))
    && (s'.log != s.log ==>
          && |s'.log| == |s.log| + 1 && s'.log[..|s.log|] == s.log
          && match s'.log[|s.log|]
             case Trimmed(_) => s'.patchers == s.patchers
             case Patched(p, patch) =>
               && p in s.patchers && s.patchers[p].Writing? && patch == patches[p]
               && s'.patchers == s.patchers[p := Done(true)])
  }

  lemma StepRelHolds(s: System, patches: map<nat, Change>, a: Action)
    requires s.patchers.Keys == patches.Keys
    ensures StepRel(s, Apply(s, patches, a), patches)
  {
  }

  lemma StepOnceEach(s: System, s': System, patches: map<nat, Change>)
    requires OnceEach(s, patches) && StepRel(s, s', patches)
    ensures OnceEach(s', patches)
  {
    if s'.log != s.log {
      var e := s'.log[|s.log|];
      assert s'.log == s.log + [e];
      forall p | p in s'.patchers
        ensures Commits(s'.log, p) == if s'.patchers[p] == Done(true) && !patches[p].Empty() then 1 else 0 {
        CommitsAppend(s.log, e, p);
      }
    }
  }

  lemma {:induction false} RunOnceEach(first: Row, patches: map<nat, Change>, actions: seq<Action>)
    ensures OnceEach(After(Starting(first, patches), patches, actions), patches)
  {
    if actions != [] {
      RunOnceEach(first, patches, actions[..|actions| - 1]);
      var before := After(Starting(first, patches), patches, actions[..|actions| - 1]);
      StepRelHolds(before, patches, actions[|actions| - 1]);
      StepOnceEach(before, Apply(before, patches, actions[|actions| - 1]), patches);
    }
  }

  /**
    No lost label update: for a row at version one or more, any interleaving of any patchers and trimmers
    leaves the fold of the committed writes in version order, and a patch is among them exactly once when
    its patcher succeeded with something to write and never otherwise.
   */
  lemma NoLostLabelUpdate(first: Row, patches: map<nat, Change>, actions: seq<Action>)
    requires first.version >= 1
    ensures var s := After(Starting(first, patches), patches, actions);
            && s.row == Row(Fold(first.change, s.log), first.version + |s.log|)
            && s.patchers.Keys == patches.Keys
            && (forall p :: p in patches ==>
                  Commits(s.log, p) == if s.patchers[p] == Done(true) && !patches[p].Empty() then 1 else 0)
  {
    PositiveVersionsNeverStale(first, patches, actions);
    RunFaithful(first, patches, actions);
    RunOnceEach(first, patches, actions);
    var s := After(Starting(first, patches), patches, actions);
    assert s.log[..|s.log|] == s.log;
  }

  // ---------------------------------------------------------------- what the final row does

  function Patches(log: seq<Entry>, m: Labels): Labels {
    if log == [] then m
    else
      var earlier := Patches(log[..|log| - 1], m);
      match log[|log| - 1]
      case Patched(_, patch) => patch.On(earlier)
      case Trimmed(_) => earlier
  }

  ghost predicate DisjointPatches(log: seq<Entry>) {
    forall n :: 0 <= n < |log| && log[n].Patched? ==> log[n].patch.Disjoint()
  }

  /**
    Whatever trims come between, the row stays disjoint and sets what the patches in order set; it does to
    a label map what the first row and then the patches do, but for deletions some trim has dropped.
   */
  lemma {:induction false} RowMeansPatchesInOrder(first: Change, log: seq<Entry>, m: Labels, key: string)
    requires first.Disjoint() && DisjointPatches(log)
    ensures Fold(first, log).Disjoint()
    ensures var l, r := Fold(first, log).On(m), Patches(log, first.On(m));
            if key in r then key in l && l[key] == r[key]
            else key in l ==> key in m && l[key] == m[key] && Dropped(first, log, key)
  {
    if log != [] {
      var n := |log| - 1;
      assert DisjointPatches(log[..n]);
      RowMeansPatchesInOrder(first, log[..n], m, key);
      var row := Fold(first, log[..n]);
      match log[n] {
        case Patched(_, patch) => MergeIsComposition(row, patch, m);
        case Trimmed(observed) =>
          if key in row.deleted && key !in observed {
            assert Dropped(first, log, key);
          } else {
            assert key in row.Trim(observed).deleted <==> key in row.deleted;
          }
      }
    }
  }

  /** Some trim found the key marked as deleted and gone from the labels it observed. */
  ghost predicate Dropped(first: Change, log: seq<Entry>, key: string) {
    log != [] &&
    var n := |log| - 1;
    || Dropped(first, log[..n], key)
    || (log[n].Trimmed? && key in Fold(first, log[..n]).deleted && key !in log[n].observed)
  }

  // ---------------------------------------------------------------- a row still at version zero

  lemma ReadStep(s: System, patches: map<nat, Change>, p: nat)
    requires p in s.patchers && p in patches && s.patchers[p] == Reading(RETRY_ATTEMPTS) && !patches[p].Empty()
    ensures Apply(s, patches, PatchRead(p)) == s.(patchers := s.patchers[p := Writing(RETRY_ATTEMPTS, s.row)])
  {
  }

  /** A write from version zero goes through on any row, and puts version one on it. */
  lemma ZeroWriteStep(s: System, patches: map<nat, Change>, p: nat, read: Change)
    requires p in s.patchers && p in patches && s.patchers[p] == Writing(RETRY_ATTEMPTS, Row(read, 0))
    ensures Apply(s, patches, PatchWrite(p)) ==
              System(Row(read.Merge(patches[p]), 1), s.patchers[p := Done(true)], s.trimmers,
                     s.log + [Patched(p, patches[p])])
  {
  }

  lemma FoldTwo(first: Change, p: nat, q: nat, a: Change, b: Change)
    ensures Fold(first, [Patched(p, a), Patched(q, b)]) == first.Merge(a).Merge(b)
  {
    var log := [Patched(p, a), Patched(q, b)];
    assert log[..1] == [Patched(p, a)];
    assert Fold(first, log[..1]) == first.Merge(a);
  }

  /** Neither the row nor the patch says anything about the label. */
  predicate Untouched(first: Change, patch: Change, key: string) {
    key !in patch.labels && key !in patch.deleted && key !in first.labels
  }

  /**
    At version zero any two patchers that both read before they write report success, and whatever only
    the first one set is gone.
   */
  lemma {:induction false} VersionZeroLosesUpdate(first: Change, patches: map<nat, Change>, p: nat, q: nat)
    requires p != q && p in patches && q in patches && !patches[p].Empty() && !patches[q].Empty()
    ensures var s := After(Starting(Row(first, 0), patches), patches,
                           [PatchRead(p), PatchRead(q), PatchWrite(p), PatchWrite(q)]);
            && p in s.patchers && s.patchers[p] == Done(true) && q in s.patchers && s.patchers[q] == Done(true)
            && s.log == [Patched(p, patches[p]), Patched(q, patches[q])]
            && s.row == Row(first.Merge(patches[q]), 1)
            && forall key :: key in patches[p].labels && Untouched(first, patches[q], key) ==>
                 key in Fold(first, s.log).labels && key !in s.row.change.labels
  {
    ZeroRun(first, patches, p, q);
    FoldTwo(first, p, q, patches[p], patches[q]);
  }

  lemma {:induction false} ZeroRun(first: Change, patches: map<nat, Change>, p: nat, q: nat)
    requires p != q && p in patches && q in patches && !patches[p].Empty() && !patches[q].Empty()
    ensures var s0, writing := Starting(Row(first, 0), patches), Writing(RETRY_ATTEMPTS, Row(first, 0));
            After(s0, patches, [PatchRead(p), PatchRead(q), PatchWrite(p), PatchWrite(q)]) ==
              System(Row(first.Merge(patches[q]), 1),
                     s0.patchers[p := writing][q := writing][p := Done(true)][q := Done(true)], map[],
                     [Patched(p, patches[p]), Patched(q, patches[q])])
  {
    var s0, writing := Starting(Row(first, 0), patches), Writing(RETRY_ATTEMPTS, Row(first, 0));
    var s1 := s0.(patchers := s0.patchers[p := writing]);
    var s2 := s1.(patchers := s1.patchers[q := writing]);
    var s3 := System(Row(first.Merge(patches[p]), 1), s2.patchers[p := Done(true)], map[], [Patched(p, patches[p])]);
    var actions := [PatchRead(p), PatchRead(q), PatchWrite(p), PatchWrite(q)];
    ReadStep(s0, patches, p);
    RunTo(s0, patches, actions, 0, s0, s1);
    ReadStep(s1, patches, q);
    RunTo(s0, patches, actions, 1, s1, s2);
    ZeroWriteStep(s2, patches, p, first);
    assert s2.log + [Patched(p, patches[p])] == s3.log;
    RunTo(s0, patches, actions, 2, s2, s3);
    ZeroWriteStep(s3, patches, q, first);
    RunTo(s0, patches, actions, 3, s3, Apply(s3, patches, actions[3]));
    assert actions[..4] == actions;
  }

  lemma {:induction false} RunTo(s: System, patches: map<nat, Change>, actions: seq<Action>, n: nat, before: System,
                                 after: System)
    requires n < |actions| && (n == 0 ==> before == s) && (n > 0 ==> After(s, patches, actions[..n]) == before)
    requires Apply(before, patches, actions[n]) == after
    ensures After(s, patches, actions[..n + 1]) == after
  {
    assert actions[..n + 1][..n] == actions[..n];
  }
}
