/** The offset committer: from the metadata of all units to one restart offset per topic partition. */
module Committer {
  import opened Basics
  import opened ConflationModel

  datatype Partition = Partition(topic: string, partition: int)

  function PartitionOf(position: Position): Partition {
    Partition(position.topic, position.partition)
  }

  ghost predicate On(m: Meta, k: Partition) {
    PartitionOf(m.position) == k
  }

  ghost predicate PendingOn(m: Meta, k: Partition) {
    On(m, k) && !m.Processed()
  }

  /**
    The restart offset of partition k for a set of metadata: the lowest pending offset, or, when nothing
    is pending, one past the highest processed offset.
   */
  ghost predicate RestartAt(ms: set<Meta>, k: Partition, offset: int) {
    if exists m :: m in ms && PendingOn(m, k) then
      && (exists m :: m in ms && PendingOn(m, k) && m.position.offset == offset)
      && (forall m :: m in ms && PendingOn(m, k) ==> offset <= m.position.offset)
    else
      && (exists m :: m in ms && On(m, k) && m.position.offset + 1 == offset)
      && (forall m :: m in ms && On(m, k) ==> m.position.offset + 1 <= offset)
  }

  lemma RestartUnique(ms: set<Meta>, k: Partition, o: int, o': int)
    requires RestartAt(ms, k, o) && RestartAt(ms, k, o')
    ensures o == o'
  {
  }

  lemma {:induction false} RestartExists(ms: set<Meta>, k: Partition, m: Meta) returns (offset: int)
    requires m in ms && On(m, k)
    ensures RestartAt(ms, k, offset)
    decreases ms
  {
    var rest := ms - {m};
    if other :| other in rest && On(other, k) {
      var o := RestartExists(rest, k, other);
      assert forall x :: x in ms <==> x in rest || x == m;
      if exists x :: x in rest && PendingOn(x, k) {
        offset := if m.Processed() || m.position.offset >= o then o else m.position.offset;
      } else {
        offset := if !m.Processed() then m.position.offset else if m.position.offset + 1 <= o then o
          else m.position.offset + 1;
      }
    } else {
      offset := if m.Processed() then m.position.offset + 1 else m.position.offset;
      assert forall x :: x in ms && On(x, k) ==> x == m;
    }
  }

  /**
    A position computed for partition k is that of some metadata of k, as it stands if the metadata is pending;
    with nothing pending, only its offset is one higher.
   */
  ghost predicate PositionOf(ms: set<Meta>, k: Partition, position: Position) {
    if exists m :: m in ms && PendingOn(m, k)
    then exists m :: m in ms && PendingOn(m, k) && position == m.position
    else exists m :: m in ms && On(m, k) && position == m.position.(offset := m.position.offset + 1)
  }

  ghost function Members(ms: seq<Option<Meta>>): set<Meta> {
    set i | 0 <= i < |ms| && ms[i].Some? :: ms[i].value
  }

  ghost predicate LowestPending(ms: set<Meta>, pending: map<Partition, Position>) {
    && (forall k :: k in pending ==> exists m :: m in ms && PendingOn(m, k) && m.position == pending[k])
    && (forall m :: m in ms && !m.Processed() ==>
          PartitionOf(m.position) in pending && pending[PartitionOf(m.position)].offset <= m.position.offset)
  }

  ghost predicate HighestProcessed(ms: set<Meta>, processed: map<Partition, Position>) {
    && (forall k :: k in processed ==> exists m :: m in ms && On(m, k) && m.Processed() && m.position == processed[k])
    && (forall m :: m in ms && m.Processed() ==>
          PartitionOf(m.position) in processed && m.position.offset <= processed[PartitionOf(m.position)].offset)
  }

  lemma LowestPendingStep(ms: set<Meta>, pending: map<Partition, Position>, m: Meta)
    requires LowestPending(ms, pending) && !m.Processed()
    ensures var key := PartitionOf(m.position);
            LowestPending(ms + {m}, if key in pending && m.position.offset >= pending[key].offset then pending
                            else pending[key := m.position])
  {
    var key := PartitionOf(m.position);
    var pending' := if key in pending && m.position.offset >= pending[key].offset then pending
      else pending[key := m.position];
    forall k | k in pending' ensures exists x :: x in ms + {m} && PendingOn(x, k) && x.position == pending'[k] {
      if pending'[k] == m.position && k == key {
        assert PendingOn(m, k);
      } else {
        var x :| x in ms && PendingOn(x, k) && x.position == pending[k];
        assert x in ms + {m};
      }
    }
  }

  lemma HighestProcessedStep(ms: set<Meta>, processed: map<Partition, Position>, m: Meta)
    requires HighestProcessed(ms, processed) && m.Processed()
    ensures var key := PartitionOf(m.position);
            HighestProcessed(ms + {m}, if key in processed && m.position.offset <= processed[key].offset then processed
                               else processed[key := m.position])
  {
    var key := PartitionOf(m.position);
    var processed' := if key in processed && m.position.offset <= processed[key].offset then processed
      else processed[key := m.position];
    forall k | k in processed'
      ensures exists x :: x in ms + {m} && On(x, k) && x.Processed() && x.position == processed'[k] {
      if processed'[k] == m.position && k == key {
        assert On(m, k);
      } else {
        var x :| x in ms && On(x, k) && x.Processed() && x.position == processed[k];
        assert x in ms + {m};
      }
    }
  }

  /** A metadata of the other kind does not touch a table. */
  lemma OtherKind(ms: set<Meta>, pending: map<Partition, Position>, processed: map<Partition, Position>, m: Meta)
    ensures LowestPending(ms, pending) && m.Processed() ==> LowestPending(ms + {m}, pending)
    ensures HighestProcessed(ms, processed) && !m.Processed() ==> HighestProcessed(ms + {m}, processed)
  {
    if LowestPending(ms, pending) && m.Processed() {
      forall k | k in pending ensures exists x :: x in ms + {m} && PendingOn(x, k) && x.position == pending[k] {
        var x :| x in ms && PendingOn(x, k) && x.position == pending[k];
        assert x in ms + {m};
      }
    }
    if HighestProcessed(ms, processed) && !m.Processed() {
      forall k | k in processed
        ensures exists x :: x in ms + {m} && On(x, k) && x.Processed() && x.position == processed[k] {
        var x :| x in ms && On(x, k) && x.Processed() && x.position == processed[k];
        assert x in ms + {m};
      }
    }
  }

  lemma TablesGiveRestart(ms: set<Meta>, pending: map<Partition, Position>, processed: map<Partition, Position>,
                          k: Partition)
    requires LowestPending(ms, pending) && HighestProcessed(ms, processed)
    ensures k in pending || k in processed <==> exists m :: m in ms && On(m, k)
    ensures k in pending ==>
              PartitionOf(pending[k]) == k && RestartAt(ms, k, pending[k].offset) && PositionOf(ms, k, pending[k])
    ensures k in processed && k !in pending ==>
              && PartitionOf(processed[k]) == k && RestartAt(ms, k, processed[k].offset + 1)
              && PositionOf(ms, k, processed[k].(offset := processed[k].offset + 1))
  {
    if k in pending {
      var m :| m in ms && PendingOn(m, k) && m.position == pending[k];
      assert On(m, k);
    } else if k in processed {
      var m :| m in ms && On(m, k) && m.Processed() && m.position == processed[k];
      assert On(m, k);
      assert forall x :: x in ms && On(x, k) ==> x.Processed();
    }
    if m :| m in ms && On(m, k) {
      assert k in pending || k in processed;
    }
  }

  /** metadataToCommit: the answer does not depend on the order in which the metadata come. */
  method MetadataToCommit(ms: seq<Option<Meta>>) returns (result: map<Partition, Position>)
    ensures forall k :: k in result <==> exists m :: m in Members(ms) && On(m, k)
    ensures forall k :: k in result ==>
              && PartitionOf(result[k]) == k && RestartAt(Members(ms), k, result[k].offset)
              && PositionOf(Members(ms), k, result[k])
  {
    var pending, processed := FillTables(ms);
    result := Patched(pending, processed);
    PatchedIsRestart(Members(ms), pending, processed, result);
  }

  /** The first loop: the lowest pending and the highest processed position of each partition. */
  method FillTables(ms: seq<Option<Meta>>)
    returns (pending: map<Partition, Position>, processed: map<Partition, Position>)
    ensures LowestPending(Members(ms), pending) && HighestProcessed(Members(ms), processed)
  {
    pending, processed := map[], map[];
    for i := 0 to |ms|
      invariant LowestPending(Members(ms[..i]), pending)
      invariant HighestProcessed(Members(ms[..i]), processed)
    {
      MembersGrow(ms, i);
      if ms[i].Some? {
        var m := ms[i].value;
        var key := PartitionOf(m.position);
        OtherKind(Members(ms[..i]), pending, processed, m);
        if !m.Processed() {
          LowestPendingStep(Members(ms[..i]), pending, m);
          if !(key in pending && m.position.offset >= pending[key].offset) {
            pending := pending[key := m.position];
          }
        } else {
          HighestProcessedStep(Members(ms[..i]), processed, m);
          if !(key in processed && m.position.offset <= processed[key].offset) {
            processed := processed[key := m.position];
          }
        }
      }
    }
    assert ms[..|ms|] == ms;
  }

  lemma PatchedIsRestart(ms: set<Meta>, pending: map<Partition, Position>, processed: map<Partition, Position>,
                         result: map<Partition, Position>)
    requires LowestPending(ms, pending) && HighestProcessed(ms, processed)
    requires result.Keys == pending.Keys + processed.Keys
    requires forall k :: k in pending ==> result[k] == pending[k]
    requires forall k :: k in processed && k !in pending ==>
               result[k] == processed[k].(offset := processed[k].offset + 1)
    ensures forall k :: k in result <==> exists m :: m in ms && On(m, k)
    ensures forall k :: k in result ==>
              && PartitionOf(result[k]) == k && RestartAt(ms, k, result[k].offset)
              && PositionOf(ms, k, result[k])
  {
    forall k ensures k in result <==> exists m :: m in ms && On(m, k) {
      TablesGiveRestart(ms, pending, processed, k);
    }
    forall k | k in result
      ensures PartitionOf(result[k]) == k && RestartAt(ms, k, result[k].offset) && PositionOf(ms, k, result[k])
    {
      TablesGiveRestart(ms, pending, processed, k);
    }
  }

  /** The last two loops: processed offsets move one past, then pending offsets overwrite them. */
  method Patched(pending: map<Partition, Position>, processed: map<Partition, Position>)
    returns (result: map<Partition, Position>)
    ensures result.Keys == pending.Keys + processed.Keys
    ensures forall k :: k in pending ==> result[k] == pending[k]
    ensures forall k :: k in processed && k !in pending ==>
              result[k] == processed[k].(offset := processed[k].offset + 1)
  {
    result := processed;
    var keys := processed.Keys;
    while keys != {}
      invariant keys <= processed.Keys == result.Keys
      invariant forall k :: k in keys ==> result[k] == processed[k]
      invariant forall k :: k in processed && k !in keys ==>
                  result[k] == processed[k].(offset := processed[k].offset + 1)
      decreases keys
    {
      var k :| k in keys;
      result := result[k := result[k].(offset := result[k].offset + 1)];
      keys := keys - {k};
    }
    ghost var incremented := result;
    keys := pending.Keys;
    while keys != {}
      invariant keys <= pending.Keys
      invariant result.Keys == processed.Keys + (pending.Keys - keys)
      invariant forall k :: k in pending && k !in keys ==> result[k] == pending[k]
      invariant forall k :: k in processed && (k !in pending || k in keys) ==> result[k] == incremented[k]
      decreases keys
    {
      var k :| k in keys;
      result := result[k := pending[k]];
      keys := keys - {k};
    }
  }

  lemma MembersGrow(ms: seq<Option<Meta>>, i: nat)
    requires i < |ms|
    ensures Members(ms[..i + 1]) == Members(ms[..i]) + (if ms[i].Some? then {ms[i].value} else {})
  {
    var before, after := ms[..i], ms[..i + 1];
    assert after == before + [ms[i]];
    forall m: Meta
      ensures m in Members(after) ==> m in Members(before) + (if ms[i].Some? then {ms[i].value} else {})
      ensures m in Members(before) ==> m in Members(after)
    {
      if m in Members(after) {
        var j :| 0 <= j < |after| && after[j].Some? && after[j].value == m;
        assert j < i ==> before[j] == after[j];
      }
      if m in Members(before) {
        var j :| 0 <= j < |before| && before[j].Some? && before[j].value == m;
        assert after[j] == before[j];
      }
    }
    if ms[i].Some? {
      assert after[i] == ms[i];
    }
  }

  // ---------------------------------------------------------------- commit

  /** The offset of k among the written rows, latest first. */
  ghost predicate Increasing(written: seq<Position>) {
    forall i, j :: 0 <= i < j < |written| && PartitionOf(written[i]) == PartitionOf(written[j]) ==>
      written[i].offset < written[j].offset
  }

  /** Each written row is covered by what is remembered as committed. */
  ghost predicate Covered(written: seq<Position>, committed: map<Partition, int>) {
    forall i :: 0 <= i < |written| ==>
      PartitionOf(written[i]) in committed && written[i].offset <= committed[PartitionOf(written[i])]
  }

  /** Rows that advance past everything remembered keep the log increasing. */
  lemma RowsAdvance(written: seq<Position>, rows: seq<Position>, before: map<Partition, int>,
                    committed: map<Partition, int>)
    requires Increasing(written) && Covered(written, before)
    requires forall k :: k in before ==> k in committed && before[k] <= committed[k]
    requires forall i, j :: 0 <= i < j < |rows| ==> PartitionOf(rows[i]) != PartitionOf(rows[j])
    requires forall i :: 0 <= i < |rows| ==>
               var k := PartitionOf(rows[i]);
               k in committed && committed[k] == rows[i].offset && (k in before ==> before[k] < rows[i].offset)
    ensures Increasing(written + rows) && Covered(written + rows, committed) && Covered(written, committed)
  {
  }

  ghost predicate Has(rows: seq<Position>, k: Partition, offset: int) {
    exists i :: 0 <= i < |rows| && PartitionOf(rows[i]) == k && rows[i].offset == offset
  }

  /** The restart offset of k is past what is remembered for it. */
  ghost predicate IsNew(committed: map<Partition, int>, ms: set<Meta>, k: Partition, offset: int) {
    RestartAt(ms, k, offset) && (k in committed ==> committed[k] < offset)
  }

  /**
    The rows of a commit: each partition whose restart offset is new, once, at that offset, and nothing else; the
    owner is that of the metadata the offset comes from.
   */
  ghost predicate RowsOf(rows: seq<Position>, committed: map<Partition, int>, ms: set<Meta>) {
    && (forall i :: 0 <= i < |rows| ==> PositionOf(ms, PartitionOf(rows[i]), rows[i]))
    && (forall k, o :: Has(rows, k, o) <==> IsNew(committed, ms, k, o))
    && (forall i, j :: 0 <= i < j < |rows| ==> PartitionOf(rows[i]) != PartitionOf(rows[j]))
  }

  /** Every remembered position is among the rows the database took. */
  ghost predicate AllWritten(written: seq<Position>, committed: map<Partition, int>) {
    forall k :: k in committed ==> Has(written, k, committed[k])
  }

  ghost predicate NothingNew(committed: map<Partition, int>, ms: set<Meta>) {
    forall k, o :: !IsNew(committed, ms, k, o)
  }

  lemma HasAppended(written: seq<Position>, rows: seq<Position>, k: Partition, o: int)
    ensures Has(written + rows, k, o) <==> Has(written, k, o) || Has(rows, k, o)
  {
    var all := written + rows;
    if i :| 0 <= i < |written| && PartitionOf(written[i]) == k && written[i].offset == o {
      assert all[i] == written[i];
    }
    if i :| 0 <= i < |rows| && PartitionOf(rows[i]) == k && rows[i].offset == o {
      assert all[|written| + i] == rows[i];
    }
  }

  lemma HasGrows(rows: seq<Position>, row: Position)
    ensures forall k, o :: Has(rows, k, o) ==> Has(rows + [row], k, o)
    ensures Has(rows + [row], PartitionOf(row), row.offset)
  {
    assert (rows + [row])[|rows|] == row;
    forall k, o | Has(rows, k, o) ensures Has(rows + [row], k, o) {
      HasAppended(rows, [row], k, o);
    }
  }

  ghost predicate Past(before: map<Partition, int>, position: Position) {
    PartitionOf(position) in before ==> before[PartitionOf(position)] < position.offset
  }

  /** The loop over computed positions, with the partitions `keys` still to come. */
  ghost predicate AdvancedBut(keys: set<Partition>, before: map<Partition, int>, positions: map<Partition, Position>,
                              committed: map<Partition, int>, rows: seq<Position>)
  {
    && keys <= positions.Keys && committed.Keys == before.Keys + (positions.Keys - keys)
    && (forall k :: k in committed ==>
          if k in positions && k !in keys && Past(before, positions[k]) then committed[k] == positions[k].offset
          else k in before && committed[k] == before[k])
    && (forall i :: 0 <= i < |rows| ==>
          var k := PartitionOf(rows[i]);
          k in positions && k !in keys && rows[i] == positions[k] && Past(before, positions[k]))
    && (forall k :: k in positions && k !in keys && Past(before, positions[k]) ==> Has(rows, k, positions[k].offset))
    && (forall i, j :: 0 <= i < j < |rows| ==> PartitionOf(rows[i]) != PartitionOf(rows[j]))
  }

  lemma TakeRow(keys: set<Partition>, k: Partition, before: map<Partition, int>, positions: map<Partition, Position>,
                committed: map<Partition, int>, rows: seq<Position>)
    requires forall p :: p in positions ==> PartitionOf(positions[p]) == p
    requires k !in keys && k in positions && AdvancedBut(keys + {k}, before, positions, committed, rows)
    requires !(k in committed && committed[k] >= positions[k].offset)
    ensures AdvancedBut(keys, before, positions, committed[k := positions[k].offset], rows + [positions[k]])
  {
    HasGrows(rows, positions[k]);
  }

  /** What commit remembers is what it remembered, or the restart offset where that is new. */
  ghost predicate Remembers(before: map<Partition, int>, committed: map<Partition, int>, ms: set<Meta>) {
    && (forall k :: k in before ==> k in committed)
    && (forall k, o :: IsNew(before, ms, k, o) ==> k in committed && committed[k] == o)
    && (forall k :: k in committed ==> (k in before && committed[k] == before[k]) || IsNew(before, ms, k, committed[k]))
  }

  /** After a commit there is nothing new in the same metadata, whether or not its rows were stored. */
  lemma NothingNewTwice(before: map<Partition, int>, committed: map<Partition, int>, ms: set<Meta>)
    requires Remembers(before, committed, ms)
    ensures NothingNew(committed, ms)
  {
    forall k, o ensures !IsNew(committed, ms, k, o) {
      assert IsNew(before, ms, k, o) ==> k in committed && committed[k] == o;
      if RestartAt(ms, k, o) && k in committed && IsNew(before, ms, k, committed[k]) {
        RestartUnique(ms, k, o, committed[k]);
      }
    }
  }

  /** A commit keeps every remembered position written if and only if its rows are stored or it has none. */
  lemma WrittenExactly(written: seq<Position>, rows: seq<Position>, before: map<Partition, int>,
                       committed: map<Partition, int>,
                       ms: set<Meta>, stored: bool)
    requires Covered(written, before) && AllWritten(written, before)
    requires Remembers(before, committed, ms) && RowsOf(rows, before, ms)
    ensures AllWritten(if stored then written + rows else written, committed) <==> stored || NothingNew(before, ms)
  {
    forall k, o ensures Has(written + rows, k, o) <==> Has(written, k, o) || Has(rows, k, o) {
      HasAppended(written, rows, k, o);
    }
    if !stored && !NothingNew(before, ms) {
      var k, o :| IsNew(before, ms, k, o);
      assert k in committed && committed[k] == o;
      assert !Has(written, k, o);
    }
  }

  // ---------------------------------------------------------------- the table, whose key is the topic

  const BATCH := 100

  /** PostgreSQL refuses an upsert that names a key twice in one statement; a statement has up to BATCH rows. */
  ghost predicate Upsertable(rows: seq<Position>) {
    forall i, j :: 0 <= i < j < |rows| && i / BATCH == j / BATCH ==> rows[i].topic != rows[j].topic
  }

  ghost function Upserted(table: map<string, Position>, rows: seq<Position>): map<string, Position> {
    if rows == [] then table
    else
      var last := rows[|rows| - 1];
      Upserted(table, rows[..|rows| - 1])[last.topic := last]
  }

  /** The row of a topic is one that was written. */
  ghost predicate TableOf(table: map<string, Position>, written: seq<Position>) {
    forall t :: t in table ==> table[t].topic == t && Has(written, PartitionOf(table[t]), table[t].offset)
  }

  ghost predicate InTable(table: map<string, Position>, k: Partition, offset: int) {
    k.topic in table && PartitionOf(table[k.topic]) == k && table[k.topic].offset == offset
  }

  /** Every remembered position can be read back from the table. */
  ghost predicate AllInTable(table: map<string, Position>, committed: map<Partition, int>) {
    forall k :: k in committed ==> InTable(table, k, committed[k])
  }

  ghost predicate OnePartitionPerTopic(committed: map<Partition, int>) {
    forall k, k' :: k in committed && k' in committed && k.topic == k'.topic ==> k == k'
  }

  /** What the table has for a topic: the last of the rows with that topic, or what it had. */
  lemma {:induction false} UpsertedAt(table: map<string, Position>, rows: seq<Position>, t: string)
    ensures (forall i :: 0 <= i < |rows| ==> rows[i].topic != t) ==>
              (t in Upserted(table, rows) <==> t in table) && (t in table ==> Upserted(table, rows)[t] == table[t])
    ensures (exists i :: 0 <= i < |rows| && rows[i].topic == t) ==>
              && t in Upserted(table, rows)
              && exists i :: 0 <= i < |rows| && rows[i].topic == t && Upserted(table, rows)[t] == rows[i]
  {
    if rows != [] {
      var n := |rows| - 1;
      UpsertedAt(table, rows[..n], t);
      if rows[n].topic == t {
        assert Upserted(table, rows)[t] == rows[n];
      } else if exists i :: 0 <= i < n && rows[..n][i].topic == t {
        var i :| 0 <= i < n && rows[..n][i].topic == t && Upserted(table, rows[..n])[t] == rows[..n][i];
        assert rows[i].topic == t && Upserted(table, rows)[t] == rows[i];
      }
    }
  }

  lemma UpsertedOf(table: map<string, Position>, rows: seq<Position>, written: seq<Position>)
    requires TableOf(table, written)
    ensures TableOf(Upserted(table, rows), written + rows)
  {
    var after := Upserted(table, rows);
    forall t | t in after ensures after[t].topic == t && Has(written + rows, PartitionOf(after[t]), after[t].offset) {
      UpsertedAt(table, rows, t);
      HasAppended(written, rows, PartitionOf(after[t]), after[t].offset);
      if i :| 0 <= i < |rows| && rows[i].topic == t && after[t] == rows[i] {
        assert Has(rows, PartitionOf(rows[i]), rows[i].offset);
      }
    }
  }

  /** With one partition to a topic, upserted rows and untouched entries all stand in the table. */
  lemma UpsertKeepsAll(table: map<string, Position>, rows: seq<Position>, before: map<Partition, int>,
                       committed: map<Partition, int>,
                       ms: set<Meta>)
    requires AllInTable(table, before) && Remembers(before, committed, ms) && RowsOf(rows, before, ms)
    requires OnePartitionPerTopic(committed)
    ensures AllInTable(Upserted(table, rows), committed)
  {
    forall k | k in committed ensures InTable(Upserted(table, rows), k, committed[k]) {
      UpsertedAt(table, rows, k.topic);
      forall i | 0 <= i < |rows| && rows[i].topic == k.topic
        ensures PartitionOf(rows[i]) == k && rows[i].offset == committed[k] {
        assert Has(rows, PartitionOf(rows[i]), rows[i].offset);
        assert IsNew(before, ms, PartitionOf(rows[i]), rows[i].offset);
      }
      if IsNew(before, ms, k, committed[k]) {
        assert Has(rows, k, committed[k]);
      }
    }
  }

  /**
    A commit keeps every remembered position in the table if and only if it has no rows, or they are stored and
    no topic has two partitions.
   */
  lemma TableExactly(table: map<string, Position>, written: seq<Position>, rows: seq<Position>,
                     before: map<Partition, int>, committed: map<Partition, int>, ms: set<Meta>, stored: bool)
    requires Covered(written, before) && TableOf(table, written) && AllInTable(table, before)
    requires Remembers(before, committed, ms) && RowsOf(rows, before, ms)
    ensures AllInTable(if stored then Upserted(table, rows) else table, committed) <==>
              NothingNew(before, ms) || (stored && OnePartitionPerTopic(committed))
  {
    var after := if stored then Upserted(table, rows) else table;
    if NothingNew(before, ms) {
      NoRows(rows, before, ms);
    } else if stored && OnePartitionPerTopic(committed) {
      UpsertKeepsAll(table, rows, before, committed, ms);
    } else if !stored {
      var k, o :| IsNew(before, ms, k, o);
      assert !Has(written, k, o);
      assert !InTable(table, k, o);
    }
  }

  /** When two partitions of a topic are new at once, in a commit of one statement, nothing is stored. */
  lemma TwoNewPartitionsFail(rows: seq<Position>, before: map<Partition, int>, ms: set<Meta>,
                             k: Partition, o: int, k': Partition, o': int)
    requires RowsOf(rows, before, ms) && |rows| <= BATCH
    requires IsNew(before, ms, k, o) && IsNew(before, ms, k', o') && k != k' && k.topic == k'.topic
    ensures !Upsertable(rows)
  {
    assert Has(rows, k, o) && Has(rows, k', o');
    var i :| 0 <= i < |rows| && PartitionOf(rows[i]) == k && rows[i].offset == o;
    var j :| 0 <= j < |rows| && PartitionOf(rows[j]) == k' && rows[j].offset == o';
    assert i / BATCH == 0 && j / BATCH == 0;
  }

  /** The committer's own state, after the rows are computed. */
  lemma CommitKeeps(written: seq<Position>, table: map<string, Position>, rows: seq<Position>,
                    before: map<Partition, int>, committed: map<Partition, int>, ms: set<Meta>, stored: bool)
    requires Increasing(written) && Covered(written, before) && TableOf(table, written)
    requires Remembers(before, committed, ms) && RowsOf(rows, before, ms)
    ensures Increasing(if stored then written + rows else written)
            && Covered(if stored then written + rows else written, committed)
    ensures TableOf(if stored then Upserted(table, rows) else table, if stored then written + rows else written)
  {
    forall i | 0 <= i < |rows| ensures IsNew(before, ms, PartitionOf(rows[i]), rows[i].offset) {
      assert Has(rows, PartitionOf(rows[i]), rows[i].offset);
    }
    forall k | k in before ensures k in committed && before[k] <= committed[k] {
    }
    RowsAdvance(written, rows, before, committed);
    UpsertedOf(table, rows, written);
  }

  /** All that a commit does to what was written and to the table. */
  lemma CommitOutcome(written: seq<Position>, table: map<string, Position>, rows: seq<Position>,
                      before: map<Partition, int>, committed: map<Partition, int>, ms: set<Meta>, stored: bool)
    requires Increasing(written) && Covered(written, before) && TableOf(table, written)
    requires Remembers(before, committed, ms) && RowsOf(rows, before, ms)
    ensures var written', table' := if stored then written + rows else written, if stored then Upserted(table, rows)
            else table;
            && Increasing(written') && Covered(written', committed) && TableOf(table', written')
            && (AllWritten(written, before) ==> (AllWritten(written', committed) <==> stored || NothingNew(before, ms)))
            && (AllInTable(table, before) ==>
                  (AllInTable(table', committed) <==>
                     NothingNew(before, ms) || (stored && OnePartitionPerTopic(committed))))
  {
    CommitKeeps(written, table, rows, before, committed, ms, stored);
    if AllWritten(written, before) {
      WrittenExactly(written, rows, before, committed, ms, stored);
    }
    if AllInTable(table, before) {
      TableExactly(table, written, rows, before, committed, ms, stored);
    }
  }

  class ConflationCommitter {
    var committedPositions: map<Partition, int>
    /** Every row the database was asked to upsert and accepted, in order, and what its table then has of them. */
    ghost var written: seq<Position>
    ghost var table: map<string, Position>

    ghost predicate Valid()
      reads this
    {
      Increasing(written) && Covered(written, committedPositions) && TableOf(table, written)
    }

    constructor ()
      ensures Valid() && committedPositions == map[] && written == [] && table == map[]
    {
      committedPositions := map[];
      written, table := [], map[];
    }

    /** The loop over computed positions: skip what is already committed, remember the rest. */
    method Advance(positions: map<Partition, Position>) returns (databaseRows: seq<Position>)
      requires forall k :: k in positions ==> PartitionOf(positions[k]) == k
      modifies this`committedPositions
      ensures committedPositions == Advanced(old(committedPositions), positions)
      ensures forall i :: 0 <= i < |databaseRows| ==>
                var k := PartitionOf(databaseRows[i]);
                && k in positions && databaseRows[i] == positions[k] && committedPositions[k] == positions[k].offset
                && (k in old(committedPositions) ==> old(committedPositions)[k] < positions[k].offset)
      ensures forall k ::
                k in positions
                  && (k in old(committedPositions) ==> old(committedPositions)[k] < positions[k].offset) ==>
                Has(databaseRows, k, positions[k].offset)
      ensures forall i, j :: 0 <= i < j < |databaseRows| ==>
                PartitionOf(databaseRows[i]) != PartitionOf(databaseRows[j])
    {
      databaseRows := [];
      ghost var before := committedPositions;
      var keys := positions.Keys;
      while keys != {}
        invariant AdvancedBut(keys, before, positions, committedPositions, databaseRows)
        decreases keys
      {
        var k :| k in keys;
        keys := keys - {k};
        if !(k in committedPositions && committedPositions[k] >= positions[k].offset) {
          TakeRow(keys, k, before, positions, committedPositions, databaseRows);
          databaseRows := databaseRows + [positions[k]];
          committedPositions := committedPositions[k := positions[k].offset];
        }
      }
      assert committedPositions.Keys == Advanced(before, positions).Keys;
    }

    /**
      commit: positions are remembered before the database is asked. `available` says whether the lock and the
      connection work; the rows are stored if they do and no statement names a topic twice.
     */
    method Commit(ms: seq<Option<Meta>>, available: bool) returns (ghost rows: seq<Position>, ghost stored: bool)
      requires Valid()
      modifies this
      ensures Valid()
      ensures Remembers(old(committedPositions), committedPositions, Members(ms))
      ensures RowsOf(rows, old(committedPositions), Members(ms))
      ensures stored <==> available && Upsertable(rows)
      ensures written == if stored then old(written) + rows else old(written)
      ensures table == if stored then Upserted(old(table), rows) else old(table)
      ensures old(AllWritten(written, committedPositions)) ==>
                (AllWritten(written, committedPositions) <==>
                   stored || NothingNew(old(committedPositions), Members(ms)))
      ensures old(AllInTable(table, committedPositions)) ==>
                (AllInTable(table, committedPositions) <==>
                   NothingNew(old(committedPositions), Members(ms))
                     || (stored && OnePartitionPerTopic(committedPositions)))
    {
      var positions := MetadataToCommit(ms);
      ghost var before := committedPositions;
      rows := Advance(positions);
      PositionsAreRestarts(Members(ms), positions);
      RowsAreNew(Members(ms), positions, before, committedPositions, rows);
      stored := available && Upsertable(rows);
      CommitOutcome(written, table, rows, before, committedPositions, Members(ms), stored);
      if stored {
        written, table := written + rows, Upserted(table, rows);
      }
    }
  }

  /** A commit that fails in the database is not made up for: repeated on the same metadata, it has no rows. */
  method FailedCommitIsNotRepeated(committer: ConflationCommitter, ms: seq<Option<Meta>>)
    returns (ghost lost: seq<Position>)
    requires committer.Valid()
    modifies committer
    ensures committer.Valid() && committer.written == old(committer.written) && committer.table == old(committer.table)
    ensures RowsOf(lost, old(committer.committedPositions), Members(ms))
    ensures forall i :: 0 <= i < |lost| ==>
              !Has(committer.written, PartitionOf(lost[i]), lost[i].offset)
                && IsRemembered(committer.committedPositions, lost[i])
  {
    ghost var before := committer.committedPositions;
    ghost var stored;
    lost, stored := committer.Commit(ms, false);
    NothingNewTwice(before, committer.committedPositions, Members(ms));
    ghost var remembered := committer.committedPositions;
    ghost var again;
    again, stored := committer.Commit(ms, true);
    NoRows(again, remembered, Members(ms));
    forall i | 0 <= i < |lost|
      ensures !Has(committer.written, PartitionOf(lost[i]), lost[i].offset)
      ensures IsRemembered(committer.committedPositions, lost[i])
    {
      assert Has(lost, PartitionOf(lost[i]), lost[i].offset);
      assert IsNew(before, Members(ms), PartitionOf(lost[i]), lost[i].offset);
    }
  }

  ghost predicate IsRemembered(committed: map<Partition, int>, row: Position) {
    PartitionOf(row) in committed && committed[PartitionOf(row)] == row.offset
  }

  lemma NoRows(rows: seq<Position>, committed: map<Partition, int>, ms: set<Meta>)
    requires RowsOf(rows, committed, ms) && NothingNew(committed, ms)
    ensures rows == []
  {
    assert |rows| > 0 ==> Has(rows, PartitionOf(rows[0]), rows[0].offset);
  }

  /** A computed position is the one restart offset of its partition. */
  ghost predicate AreRestarts(ms: set<Meta>, positions: map<Partition, Position>) {
    forall k, o :: RestartAt(ms, k, o) <==> k in positions && positions[k].offset == o
  }

  lemma PositionsAreRestarts(ms: set<Meta>, positions: map<Partition, Position>)
    requires forall k :: k in positions <==> exists m :: m in ms && On(m, k)
    requires forall k :: k in positions ==> RestartAt(ms, k, positions[k].offset)
    ensures AreRestarts(ms, positions)
  {
    forall k, o ensures RestartAt(ms, k, o) <==> k in positions && positions[k].offset == o {
      if RestartAt(ms, k, o) {
        var m :| m in ms && On(m, k);
        RestartUnique(ms, k, positions[k].offset, o);
      }
    }
  }

  lemma RowsAreNew(ms: set<Meta>, positions: map<Partition, Position>, before: map<Partition, int>,
                   committed: map<Partition, int>,
                   rows: seq<Position>)
    requires AreRestarts(ms, positions) && committed == Advanced(before, positions)
    requires forall k :: k in positions ==> PositionOf(ms, k, positions[k])
    requires forall i :: 0 <= i < |rows| ==>
               var k := PartitionOf(rows[i]);
               k in positions && rows[i] == positions[k] && (k in before ==> before[k] < positions[k].offset)
    requires forall k :: k in positions && (k in before ==> before[k] < positions[k].offset) ==>
               Has(rows, k, positions[k].offset)
    requires forall i, j :: 0 <= i < j < |rows| ==> PartitionOf(rows[i]) != PartitionOf(rows[j])
    ensures RowsOf(rows, before, ms) && Remembers(before, committed, ms)
  {
    forall k, o ensures Has(rows, k, o) <==> IsNew(before, ms, k, o) {
      if i :| 0 <= i < |rows| && PartitionOf(rows[i]) == k && rows[i].offset == o {
        assert rows[i] == positions[k];
      }
    }
  }

  function Advanced(before: map<Partition, int>, positions: map<Partition, Position>): map<Partition, int> {
    map k | k in before.Keys + positions.Keys ::
      if k !in positions || (k in before && before[k] >= positions[k].offset) then before[k] else positions[k].offset
  }
}
