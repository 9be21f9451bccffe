/** Label patches, label rows and what they do to a cluster's labels. */
module LabelModel {

  type Labels = map<string, string>

  datatype Op = Add(key: string, value: string) | Remove(key: string)

  /** What a cluster's labels become: keys to set, then keys to delete. */
  datatype Change = Change(labels: Labels, deleted: set<string>) {
    /** The agent's order: set, then delete. */
    function On(m: Labels): Labels {
      m + labels - deleted
    }

    ghost predicate Disjoint() {
      labels.Keys !! deleted
    }

    /** updateRow's merge of this change, the stored one, with a patch. */
    function Merge(patch: Change): Change {
      Change(labels - patch.deleted + patch.labels, (deleted - patch.labels.Keys) + patch.deleted)
    }

    /** The trimmer keeps the deleted keys that the observed labels still have. */
    function Trim(observed: set<string>): Change {
      Change(labels, deleted * observed)
    }

    predicate Empty() {
      labels == map[] && deleted == {}
    }
  }

  const NOTHING := Change(map[], {})

  // ---------------------------------------------------------------- patches

  /** One operation of a patch document on a label map; removing an absent label changes nothing. */
  function ApplyOp(op: Op, m: Labels): Labels {
    match op
    case Add(key, value) => m[key := value]
    case Remove(key) => m - {key}
  }

  /** The operations one after the other, as section 3 of RFC 6902 has it. */
  function ApplyAll(ops: seq<Op>, m: Labels): Labels {
    if ops == [] then m else ApplyOp(ops[|ops| - 1], ApplyAll(ops[..|ops| - 1], m))
  }

  /** getLabels' treatment of one operation. */
  function FoldOp(c: Change, op: Op): Change {
    match op
    case Add(key, value) => Change(c.labels[key := value], c.deleted - {key})
    case Remove(key) => Change(c.labels - {key}, c.deleted + {key})
  }

  lemma FoldOpIsOp(c: Change, op: Op, m: Labels)
    requires c.Disjoint()
    ensures FoldOp(c, op).Disjoint() && FoldOp(c, op).On(m) == ApplyOp(op, c.On(m))
  {
  }

  /** What getLabels has after the operations. */
  function FoldOps(ops: seq<Op>): Change {
    if ops == [] then NOTHING else FoldOp(FoldOps(ops[..|ops| - 1]), ops[|ops| - 1])
  }

  /** Folding is faithful: the pair is disjoint and does to every label map what the operations do in order. */
  lemma {:induction false} FoldIsFaithful(ops: seq<Op>, m: Labels)
    ensures FoldOps(ops).Disjoint()
    ensures FoldOps(ops).On(m) == ApplyAll(ops, m)
  {
    if ops != [] {
      FoldIsFaithful(ops[..|ops| - 1], m);
      FoldOpIsOp(FoldOps(ops[..|ops| - 1]), ops[|ops| - 1], m);
    }
  }

  /** A change deletes its deleted keys, sets its other keys, and leaves every other key as it was. */
  lemma ChangeMeans(c: Change, m: Labels, key: string)
    ensures key in c.On(m) <==> key !in c.deleted && (key in c.labels || key in m)
    ensures key in c.On(m) ==> c.On(m)[key] == if key in c.labels then c.labels[key] else m[key]
  {
  }

  /** A disjoint pair is determined by its effect. */
  lemma EffectDetermines(a: Change, b: Change)
    requires a.Disjoint() && b.Disjoint() && forall m: Labels :: a.On(m) == b.On(m)
    ensures a == b
  {
    var none: Labels, all: Labels := map[], map k | k in a.deleted + b.deleted :: "";
    assert a.On(none) == b.On(none) && a.On(none) == a.labels && b.On(none) == b.labels;
    assert a.On(all) == b.On(all);
    assert forall k :: k in a.deleted + b.deleted ==>
      (k in a.deleted <==> k !in a.On(all)) && (k in b.deleted <==> k !in b.On(all));
    assert forall k :: k in a.deleted <==> k in b.deleted;
  }

  // ---------------------------------------------------------------- rows

  /** Merging composes, for every label map and every row, and keeps the two key sets apart. */
  lemma MergeIsComposition(row: Change, patch: Change, m: Labels)
    ensures row.Merge(patch).On(m) == patch.On(row.On(m))
    ensures row.Disjoint() && patch.Disjoint() ==> row.Merge(patch).Disjoint()
  {
    var l, r := row.Merge(patch).On(m), patch.On(row.On(m));
    assert l.Keys == r.Keys;
  }

  /** A trim leaves the effect on the labels it observed exactly when no trimmed key is also set. */
  lemma TrimKeepsEffect(row: Change, m: Labels)
    ensures row.Trim(m.Keys).On(m) == row.On(m) <==> (row.deleted - m.Keys) !! row.labels.Keys
    ensures row.Disjoint() ==> row.Trim(m.Keys).Disjoint() && row.Trim(m.Keys).On(m) == row.On(m)
  {
    var l, r := row.Trim(m.Keys).On(m), row.On(m);
    if k :| k in row.deleted - m.Keys && k in row.labels.Keys {
      assert k in l.Keys && k !in r.Keys;
    }
    if (row.deleted - m.Keys) !! row.labels.Keys {
      assert l.Keys == r.Keys;
      assert l == r;
    }
  }

  /** An empty patch is the identity, so skipping its write loses nothing. */
  lemma EmptyPatchIsIdentity(row: Change, patch: Change)
    requires patch.Empty()
    ensures row.Merge(patch) == row
  {
  }

  // ---------------------------------------------------------------- label keys in patch paths

  const LABELS_PATH := "/metadata/labels/"

  /** strings.Replace(raw, "~1", "/", 1). */
  function ReplaceFirst(raw: string): string {
    if |raw| < 2 then raw
    else if raw[0] == '~' && raw[1] == '1' then "/" + raw[2..]
    else [raw[0]] + ReplaceFirst(raw[1..])
  }

  /** Every tilde begins ~0 or ~1 (section 3 of RFC 6901). */
  predicate WellEscaped(raw: string) {
    forall i :: 0 <= i < |raw| && raw[i] == '~' ==> i + 1 < |raw| && (raw[i + 1] == '0' || raw[i + 1] == '1')
  }

  /** Section 4 of RFC 6901: ~1 stands for a slash, ~0 for a tilde. */
  function Unescape(raw: string): string
    requires WellEscaped(raw)
  {
    if raw == "" then ""
    else if raw[0] == '~' then (if raw[1] == '1' then "/" else "~") + Unescape(raw[2..])
    else [raw[0]] + Unescape(raw[1..])
  }

  /** How often ~`digit` occurs. */
  function Escapes(raw: string, digit: char): nat {
    if |raw| < 2 then 0
    else (if raw[0] == '~' && raw[1] == digit then 1 else 0) + Escapes(raw[1..], digit)
  }

  lemma {:induction false} UnescapedLength(raw: string)
    requires WellEscaped(raw)
    ensures |Unescape(raw)| == |raw| - Escapes(raw, '0') - Escapes(raw, '1')
    ensures Escapes(raw, '0') + Escapes(raw, '1') == 0 ==> Unescape(raw) == raw
  {
    if raw != "" {
      if raw[0] == '~' {
        UnescapedLength(raw[2..]);
        assert raw[1..][1..] == raw[2..];
        assert raw[1..][0] != '~';
      } else {
        UnescapedLength(raw[1..]);
      }
    }
  }

  lemma {:induction false} ReplacedLength(raw: string)
    ensures |ReplaceFirst(raw)| == |raw| - if Escapes(raw, '1') > 0 then 1 else 0
  {
    if |raw| >= 2 && !(raw[0] == '~' && raw[1] == '1') {
      ReplacedLength(raw[1..]);
    }
  }

  /** The label key is read as RFC 6901 reads it exactly when it has no ~0 and at most one ~1. */
  lemma {:induction false} LabelKeyExact(raw: string)
    requires WellEscaped(raw)
    ensures ReplaceFirst(raw) == Unescape(raw) <==> Escapes(raw, '0') == 0 && Escapes(raw, '1') <= 1
  {
    UnescapedLength(raw);
    ReplacedLength(raw);
    if Escapes(raw, '0') == 0 && Escapes(raw, '1') <= 1 {
      SingleEscape(raw);
    }
  }

  lemma {:induction false} SingleEscape(raw: string)
    requires WellEscaped(raw) && Escapes(raw, '0') == 0 && Escapes(raw, '1') <= 1
    ensures ReplaceFirst(raw) == Unescape(raw)
  {
    if |raw| >= 2 {
      if raw[0] == '~' {
        assert raw[1..][1..] == raw[2..];
        assert raw[1..][0] != '~';
        UnescapedLength(raw[2..]);
      } else {
        SingleEscape(raw[1..]);
      }
    }
  }
}
