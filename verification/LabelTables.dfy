/** The label code as it runs: loops over patches, keys and maps, and conditional writes to the label table. */
module LabelTables {
  import opened Basics
  import opened LabelModel
  import LabelRuns

  // ---------------------------------------------------------------- the request

  datatype Patch = Patch(op: string, path: string, value: string)

  datatype PatchError = OnlyPatchOfLabelsIsImplemented | OnlyAddOrRemoveAreImplemented

  datatype Result<+T> = Ok(value: T) | Err(error: PatchError)

  function OpOf(p: Patch): Result<Op> {
    if !(LABELS_PATH <= p.path) then Err(OnlyPatchOfLabelsIsImplemented)
    else
      var key := ReplaceFirst(p.path[|LABELS_PATH|..]);
      if p.op == "add" then Ok(Add(key, p.value))
      else if p.op == "remove" then Ok(Remove(key))
      else Err(OnlyAddOrRemoveAreImplemented)
  }

  /** The operations of a request, or the error of the first patch that is not one. */
  function OpsOf(patches: seq<Patch>): Result<seq<Op>> {
    if patches == [] then Ok([])
    else
      match OpsOf(patches[..|patches| - 1])
      case Err(e) => Err(e)
      case Ok(ops) =>
        match OpOf(patches[|patches| - 1])
        case Err(e) => Err(e)
        case Ok(op) => Ok(ops + [op])
  }

  /** A bad patch decides, whatever follows it. */
  lemma {:induction false} FirstErrorDecides(patches: seq<Patch>, i: nat)
    requires i <= |patches| && OpsOf(patches[..i]).Err?
    ensures OpsOf(patches) == OpsOf(patches[..i])
    decreases |patches| - i
  {
    if i == |patches| {
      assert patches[..i] == patches;
    } else {
      assert patches[..i + 1][..i] == patches[..i];
      FirstErrorDecides(patches, i + 1);
    }
  }

  lemma OpsStep(patches: seq<Patch>, i: nat, ops: seq<Op>)
    requires i < |patches| && OpsOf(patches[..i]) == Ok(ops)
    ensures OpsOf(patches[..i + 1]) ==
              match OpOf(patches[i])
              case Err(e) => Err(e)
              case Ok(op) => Ok(ops + [op])
  {
    assert patches[..i + 1][..i] == patches[..i];
  }

  // ---------------------------------------------------------------- what a request asks for

  ghost predicate IsLabelPath(path: string) {
    "/metadata/labels/" <= path
  }

  /** The label a path names, as RFC 6901 reads it; where LabelKeyExact says that the code differs, as the code does. */
  ghost function LabelOf(path: string): string
    requires IsLabelPath(path)
  {
    var raw := path[|"/metadata/labels/"|..];
    if WellEscaped(raw) && Escapes(raw, '0') == 0 && Escapes(raw, '1') <= 1 then Unescape(raw) else ReplaceFirst(raw)
  }

  /** One patch on a label map. */
  ghost function PatchOn(p: Patch, m: Labels): Result<Labels> {
    if !IsLabelPath(p.path) then Err(OnlyPatchOfLabelsIsImplemented)
    else if p.op == "add" then Ok(m[LabelOf(p.path) := p.value])
    else if p.op == "remove" then Ok(m - {LabelOf(p.path)})
    else Err(OnlyAddOrRemoveAreImplemented)
  }

  /** The patches of a request one after the other on a label map; the first error ends it. */
  ghost function PatchesOn(patches: seq<Patch>, m: Labels): Result<Labels> {
    if patches == [] then Ok(m)
    else
      match PatchOn(patches[0], m)
      case Err(e) => Err(e)
      case Ok(m') => PatchesOn(patches[1..], m')
  }

  /**
    An add sets the label its path names to its value, a remove takes it away, anything else is an error of its own.
   */
  lemma PatchMeans(raw: string, op: string, path: string, value: string, m: Labels)
    requires WellEscaped(raw) && Escapes(raw, '0') == 0 && Escapes(raw, '1') <= 1
    ensures PatchOn(Patch("add", "/metadata/labels/" + raw, value), m) == Ok(m[Unescape(raw) := value])
    ensures PatchOn(Patch("remove", "/metadata/labels/" + raw, value), m) == Ok(m - {Unescape(raw)})
    ensures !("/metadata/labels/" <= path) ==> PatchOn(Patch(op, path, value), m) == Err(OnlyPatchOfLabelsIsImplemented)
    ensures "/metadata/labels/" <= path && op != "add" && op != "remove" ==>
              PatchOn(Patch(op, path, value), m) == Err(OnlyAddOrRemoveAreImplemented)
  {
    var prefix := "/metadata/labels/";
    assert prefix <= prefix + raw && (prefix + raw)[|prefix|..] == raw;
  }

  lemma OpIsPatch(p: Patch, m: Labels)
    ensures PatchOn(p, m) == match OpOf(p)
                             case Err(e) => Err(e)
                             case Ok(op) => Ok(ApplyOp(op, m))
  {
    if IsLabelPath(p.path) {
      var raw := p.path[|LABELS_PATH|..];
      if WellEscaped(raw) {
        LabelKeyExact(raw);
      }
    }
  }

  lemma {:induction false} PatchesAppend(patches: seq<Patch>, p: Patch, m: Labels)
    ensures PatchesOn(patches + [p], m) == match PatchesOn(patches, m)
                                           case Err(e) => Err(e)
                                           case Ok(m') => PatchOn(p, m')
  {
    if patches == [] {
      assert (patches + [p])[1..] == [];
    } else {
      assert (patches + [p])[1..] == patches[1..] + [p];
      match PatchOn(patches[0], m)
      case Err(_) =>
      case Ok(m') => PatchesAppend(patches[1..], p, m');
    }
  }

  /** The operations of a request do what its patches do. */
  lemma {:induction false} OpsArePatches(patches: seq<Patch>, m: Labels)
    ensures PatchesOn(patches, m) == match OpsOf(patches)
                                     case Err(e) => Err(e)
                                     case Ok(ops) => Ok(ApplyAll(ops, m))
  {
    if patches != [] {
      var n := |patches| - 1;
      assert patches == patches[..n] + [patches[n]];
      OpsArePatches(patches[..n], m);
      PatchesAppend(patches[..n], patches[n], m);
      match OpsOf(patches[..n])
      case Err(_) =>
      case Ok(ops) =>
        OpIsPatch(patches[n], ApplyAll(ops, m));
        if OpOf(patches[n]).Ok? {
          assert (ops + [OpOf(patches[n]).value])[..|ops|] == ops;
        }
    }
  }

  /** The pair stands for the whole request on every label map; an error is the first bad patch's, on every map. */
  method GetLabels(patches: seq<Patch>) returns (r: Result<Change>)
    ensures r.Ok? ==> r.value.Disjoint()
    ensures forall m: Labels :: PatchesOn(patches, m) == if r.Ok? then Ok(r.value.On(m)) else Err(r.error)
  {
    r := FoldPatches(patches);
    forall m: Labels ensures PatchesOn(patches, m) == if r.Ok? then Ok(r.value.On(m)) else Err(r.error) {
      OpsArePatches(patches, m);
      if OpsOf(patches).Ok? {
        FoldIsFaithful(OpsOf(patches).value, m);
      }
    }
  }

  /** The loop of getLabels. */
  method FoldPatches(patches: seq<Patch>) returns (r: Result<Change>)
    ensures match OpsOf(patches)
            case Err(e) => r == Err(e)
            case Ok(ops) => r.Ok? && r.value.Disjoint() && r.value == FoldOps(ops)
  {
    var labelsToAdd: map<string, string>, labelsToRemove: set<string> := map[], {};
    ghost var ops := [];
    for i := 0 to |patches|
      invariant OpsOf(patches[..i]) == Ok(ops) && Change(labelsToAdd, labelsToRemove) == FoldOps(ops)
    {
      OpsStep(patches, i, ops);
      var p := patches[i];
      if !(LABELS_PATH <= p.path) {
        FirstErrorDecides(patches, i + 1);
        return Err(OnlyPatchOfLabelsIsImplemented);
      }
      var key := ReplaceFirst(p.path[|LABELS_PATH|..]);
      if p.op == "add" {
        labelsToRemove := labelsToRemove - {key};
        labelsToAdd := labelsToAdd[key := p.value];
        assert (ops + [Add(key, p.value)])[..|ops|] == ops;
        ops := ops + [Add(key, p.value)];
      } else if p.op == "remove" {
        labelsToAdd := labelsToAdd - {key};
        labelsToRemove := labelsToRemove + {key};
        assert (ops + [Remove(key)])[..|ops|] == ops;
        ops := ops + [Remove(key)];
      } else {
        FirstErrorDecides(patches, i + 1);
        return Err(OnlyAddOrRemoveAreImplemented);
      }
    }
    assert patches[..|patches|] == patches;
    FoldIsFaithful(ops, map[]);
    r := Ok(Change(labelsToAdd, labelsToRemove));
  }

  // ---------------------------------------------------------------- the table

  /** A row as stored: the deleted keys are a list, in whatever order it was written. */
  datatype StoredRow = StoredRow(labels: Labels, deletedLabelKeys: seq<string>, version: nat) {
    ghost function Row(): LabelRuns.Row {
      LabelRuns.Row(Change(labels, KeySet(deletedLabelKeys)), version)
    }
  }

  ghost function KeySet(keys: seq<string>): set<string> {
    set k | k in keys
  }

  method GetMap(keys: seq<string>) returns (m: set<string>)
    ensures m == KeySet(keys)
  {
    m := {};
    for i := 0 to |keys|
      invariant m == KeySet(keys[..i])
    {
      assert keys[..i + 1] == keys[..i] + [keys[i]];
      m := m + {keys[i]};
    }
    assert keys[..|keys|] == keys;
  }

  /** The keys in some order, each once. */
  method GetKeys(m: set<string>) returns (keys: seq<string>)
    ensures KeySet(keys) == m && |keys| == |m|
  {
    keys := [];
    var rest := m;
    while rest != {}
      invariant rest <= m && KeySet(keys) == m - rest && |keys| == |m| - |rest|
      decreases rest
    {
      var key :| key in rest;
      assert KeySet(keys + [key]) == KeySet(keys) + {key};
      rest := rest - {key};
      keys := keys + [key];
    }
  }

  /** The keys of a list that the labels have, in order: shorter exactly when some key is gone. */
  method StillInStatus(deletedLabelKeys: seq<string>, labelsStatus: Labels) returns (kept: seq<string>)
    ensures KeySet(kept) == KeySet(deletedLabelKeys) * labelsStatus.Keys
    ensures |kept| == |deletedLabelKeys| <==> KeySet(deletedLabelKeys) <= labelsStatus.Keys
  {
    kept := [];
    for i := 0 to |deletedLabelKeys|
      invariant KeySet(kept) == KeySet(deletedLabelKeys[..i]) * labelsStatus.Keys
      invariant |kept| <= i && (|kept| == i <==> KeySet(deletedLabelKeys[..i]) <= labelsStatus.Keys)
    {
      var key := deletedLabelKeys[i];
      assert deletedLabelKeys[..i + 1] == deletedLabelKeys[..i] + [key];
      assert KeySet(deletedLabelKeys[..i + 1]) == KeySet(deletedLabelKeys[..i]) + {key};
      assert KeySet(kept + [key]) == KeySet(kept) + {key};
      if key in labelsStatus {
        kept := kept + [key];
      }
    }
    assert deletedLabelKeys[..|deletedLabelKeys|] == deletedLabelKeys;
  }

  datatype Failure = Nowhere | BeforeRead | AtWrite

  /** Whether a write computed from the row as read goes through on the row as it is. */
  ghost predicate Writable(read: Option<StoredRow>, current: Option<StoredRow>) {
    match read
    case None => current.None?
    case Some(r) => current.Some? && LabelRuns.PatchMatches(r.Row(), current.value.Row())
  }

  ghost function RowAfter(read: Option<StoredRow>, patch: Change): LabelRuns.Row {
    match read
    case None => LabelRuns.Row(patch, 0)
    case Some(r) => LabelRuns.Row(r.Row().change.Merge(patch), r.version + 1)
  }

  /** The row of one cluster in spec.managed_clusters_labels. */
  class LabelTable {
    var row: Option<StoredRow>

    /** updateRow: `read` is the row as it was read, and may no longer be the one in the table. */
    method UpdateRow(patch: Change, read: StoredRow) returns (ok: bool)
      modifies this
      ensures ok <==> old(row).Some? && LabelRuns.PatchMatches(read.Row(), old(row).value.Row())
      ensures if ok then row.Some? && row.value.Row() == LabelRuns.Row(read.Row().change.Merge(patch), read.version + 1)
              else row == old(row)
    {
      var existLabelsToRemove := GetMap(read.deletedLabelKeys);
      var newLabelsToRemove := RemovedAfter(patch, existLabelsToRemove);
      var newLabelsToAdd := AddedAfter(patch, read.labels);
      assert Change(newLabelsToAdd, newLabelsToRemove) == Change(read.labels, existLabelsToRemove).Merge(patch);
      var keys := GetKeys(newLabelsToRemove);
      ok := row.Some? && (read.version == 0 || row.value.version == read.version);
      if ok {
        row := Some(StoredRow(newLabelsToAdd, keys, read.version + 1));
      }
    }

    /**
      updateLabels. `meanwhile` is what other writers leave in the table between the read and the write, if
      they write; `failure` is where the database fails, if it does.
     */
    method UpdateLabels(patch: Change, meanwhile: Option<Option<StoredRow>>, failure: Failure) returns (ok: bool)
      modifies this
      ensures patch.Empty() ==> ok && row == old(row)
      ensures !patch.Empty() && failure == BeforeRead ==> !ok && row == old(row)
      ensures !patch.Empty() && failure != BeforeRead ==>
                var read, current := old(row), if meanwhile.Some? then meanwhile.value else old(row);
                && (ok <==> failure == Nowhere && Writable(read, current))
                && if ok then row.Some? && row.value.Row() == RowAfter(read, patch) else row == current
    {
      if |patch.labels| == 0 && |patch.deleted| == 0 {
        return true;
      }
      if failure == BeforeRead {
        return false;
      }
      var read := row;
      if meanwhile.Some? {
        row := meanwhile.value;
      }
      if failure == AtWrite {
        return false;
      }
      ok := Write(patch, read);
    }

    method Write(patch: Change, read: Option<StoredRow>) returns (ok: bool)
      modifies this
      ensures ok <==> Writable(read, old(row))
      ensures if ok then row.Some? && row.value.Row() == RowAfter(read, patch) else row == old(row)
    {
      if read.None? {
        ok := CreateRow(patch);
      } else {
        ok := UpdateRow(patch, read.value);
      }
    }

    /** The first row of a cluster, at version 0; a second one breaks the primary key. */
    method CreateRow(patch: Change) returns (ok: bool)
      modifies this
      ensures ok <==> old(row).None?
      ensures if ok then row.Some? && row.value.Row() == LabelRuns.Row(patch, 0) else row == old(row)
    {
      var keys := GetKeys(patch.deleted);
      ok := row.None?;
      if ok {
        row := Some(StoredRow(patch.labels, keys, 0));
      }
    }

    /** One cluster of updateDeletedLabelsByManagedCluster: nothing to do, or a conditional write of the keys only. */
    method TrimRow(read: StoredRow, labelsStatus: Labels) returns (ok: bool)
      modifies this
      ensures read.Row().change.deleted <= labelsStatus.Keys ==> ok && row == old(row)
      ensures !(read.Row().change.deleted <= labelsStatus.Keys) ==>
                && (ok <==> old(row).Some? && old(row).value.version == read.version)
                && if ok
                   then
                     && row.Some?
                     && var change := old(row).value.Row().change;
                        row.value.Row() ==
                          LabelRuns.Row(change.(deleted := read.Row().change.Trim(labelsStatus.Keys).deleted),
                                                         read.version + 1)
                   else row == old(row)
    {
      var kept := StillInStatus(read.deletedLabelKeys, labelsStatus);
      if |kept| == |read.deletedLabelKeys| {
        return true;
      }
      ok := row.Some? && row.value.version == read.version;
      if ok {
        row := Some(StoredRow(row.value.labels, kept, read.version + 1));
      }
    }
  }

  /** updateRow's first two loops. */
  method RemovedAfter(patch: Change, existLabelsToRemove: set<string>) returns (removed: set<string>)
    ensures removed == (existLabelsToRemove - patch.labels.Keys) + patch.deleted
  {
    removed := {};
    var rest := existLabelsToRemove;
    while rest != {}
      invariant rest <= existLabelsToRemove && removed == existLabelsToRemove - rest - patch.labels.Keys
      decreases rest
    {
      var key :| key in rest;
      rest := rest - {key};
      if key !in patch.labels {
        removed := removed + {key};
      }
    }
    rest := patch.deleted;
    while rest != {}
      invariant rest <= patch.deleted
      invariant removed == (existLabelsToRemove - patch.labels.Keys) + (patch.deleted - rest)
      decreases rest
    {
      var key :| key in rest;
      rest := rest - {key};
      removed := removed + {key};
    }
  }

  /** updateRow's last two loops. */
  method AddedAfter(patch: Change, existLabelsToAdd: Labels) returns (added: Labels)
    ensures added == existLabelsToAdd - patch.deleted + patch.labels
  {
    added := map[];
    var rest := existLabelsToAdd.Keys;
    while rest != {}
      invariant rest <= existLabelsToAdd.Keys && added == existLabelsToAdd - rest - patch.deleted
      decreases rest
    {
      var key :| key in rest;
      rest := rest - {key};
      if key !in patch.deleted {
        added := added[key := existLabelsToAdd[key]];
      }
    }
    assert added == existLabelsToAdd - patch.deleted;
    added := SetAll(added, patch.labels);
  }

  method SetAll(before: Labels, labels: Labels) returns (after: Labels)
    ensures after == before + labels
  {
    after := before;
    var rest := labels.Keys;
    while rest != {}
      invariant rest <= labels.Keys && after == before + (labels - rest)
      decreases rest
    {
      var key :| key in rest;
      rest := rest - {key};
      after := after[key := labels[key]];
    }
  }

  // ---------------------------------------------------------------- the agent

  class ManagedCluster {
    var labels: Labels

    /** The received row enforced on the cluster: set, then delete key by key. */
    method Enforce(specLabels: Labels, deletedLabelKeys: seq<string>)
      modifies this
      ensures labels == Change(specLabels, KeySet(deletedLabelKeys)).On(old(labels))
    {
      labels := SetAll(labels, specLabels);
      ghost var set1 := labels;
      for i := 0 to |deletedLabelKeys|
        invariant labels == set1 - KeySet(deletedLabelKeys[..i])
      {
        assert deletedLabelKeys[..i + 1] == deletedLabelKeys[..i] + [deletedLabelKeys[i]];
        labels := labels - {deletedLabelKeys[i]};
      }
      assert deletedLabelKeys[..|deletedLabelKeys|] == deletedLabelKeys;
    }
  }
}
