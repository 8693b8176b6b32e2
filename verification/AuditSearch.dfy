/** From the store to the ancestors of a record: the index, its links and the walk put together. */
module AuditSearch {
  import opened AuditRecords
  import opened UniverseIndex
  import SearchGraph
  import RecordLinks

  /** A row of a table is not repeated within its kind. */
  ghost predicate DistinctKeys(records: seq<Record>) {
    forall i, j :: 0 <= i < j < |records| ==>
      records[i].kind != records[j].kind || records[i].row.id != records[j].row.id
  }

  /** Two records of a kind stand in the same order in the list of that kind. */
  lemma {:induction false} PositionsOfKind(records: seq<Record>, i: nat, j: nat, k: Kind) returns (p: nat, q: nat)
    requires i < j < |records| && records[i].kind == k && records[j].kind == k
    ensures p < q < |OfKind(records, k)| && OfKind(records, k)[p] == records[i] && OfKind(records, k)[q] == records[j]
  {
    var n := |records| - 1;
    if j < n {
      p, q := PositionsOfKind(records[..n], i, j, k);
    } else {
      p := PositionOfKind(records[..n], i, k);
      q := |OfKind(records, k)| - 1;
    }
  }

  lemma {:induction false} PositionOfKind(records: seq<Record>, i: nat, k: Kind) returns (p: nat)
    requires i < |records| && records[i].kind == k
    ensures p < |OfKind(records, k)| && OfKind(records, k)[p] == records[i]
  {
    var n := |records| - 1;
    if i < n {
      p := PositionOfKind(records[..n], i, k);
    } else {
      p := |OfKind(records, k)| - 1;
    }
  }

  /** A reader of tables in ascending order gives every record a key of its own. */
  lemma ReadRecordsAreDistinct(permitted: set<Kind>, fetch: Reader, tables: Kind -> seq<Row>, all: Progress)
    requires forall k :: KindIndexed(fetch, permitted, tables(k), all, k) && Serves(fetch, k, tables(k))
    ensures DistinctKeys(all.records)
  {
    forall i, j | 0 <= i < j < |all.records| && all.records[i].kind == all.records[j].kind
      ensures all.records[i].row.id != all.records[j].row.id
    {
      var k := all.records[i].kind;
      var p, q := PositionsOfKind(all.records, i, j, k);
      KindAscends(permitted, fetch, tables(k), all, k, p, q);
    }
  }

  lemma KindAscends(permitted: set<Kind>, fetch: Reader, table: seq<Row>, all: Progress, k: Kind, p: nat, q: nat)
    requires KindIndexed(fetch, permitted, table, all, k) && Serves(fetch, k, table)
    requires p < q < |OfKind(all.records, k)|
    ensures OfKind(all.records, k)[p].row.id < OfKind(all.records, k)[q].row.id
  {
    hide OfKind;
    var rows := Rows(OfKind(all.records, k));
    assert rows[p] == OfKind(all.records, k)[p].row && rows[q] == OfKind(all.records, k)[q].row;
    assert rows == [] || rows <= table;
    assert rows[p] == table[p] && rows[q] == table[q];
  }

  /** What the filter keeps has distinct numbers and distinct keys. */
  lemma KeptRecordsAreDistinct(all: Progress, kept: seq<Record>)
    requires Within(all) && DistinctKeys(all.records) && Rising(kept)
    requires forall r :: r in kept ==> r in all.records
    ensures DistinctKeys(kept)
  {
    forall i, j | 0 <= i < j < |kept|
      ensures kept[i].kind != kept[j].kind || kept[i].row.id != kept[j].row.id
    {
      assert kept[i] in all.records && kept[j] in all.records && kept[i].source < kept[j].source;
      var a :| 0 <= a < |all.records| && all.records[a] == kept[i];
      var b :| 0 <= b < |all.records| && all.records[b] == kept[j];
    }
  }

  /** The reference fields of the records that were indexed. */
  predicate Describes(records: seq<Record>, recs: seq<RecordLinks.Rec>) {
    && |recs| == |records|
    && forall i :: 0 <= i < |recs| ==>
         && recs[i].id == records[i].source && recs[i].kind == records[i].kind && recs[i].recordId == records[i].row.id
  }

  /** With keys that are not repeated, every record is the one that its key stands for. */
  lemma DescribedAreLast(records: seq<Record>, recs: seq<RecordLinks.Rec>)
    requires Rising(records) && DistinctKeys(records) && Describes(records, recs)
    ensures RecordLinks.DistinctIds(recs)
    ensures forall i :: 0 <= i < |recs| ==> RecordLinks.IsLast(recs, i)
  {
  }

  lemma IndexedAreLast(permitted: set<Kind>, fetch: Reader, tables: Kind -> seq<Row>, all: Progress,
                       records: seq<Record>, recs: seq<RecordLinks.Rec>)
    requires Within(all) && forall k :: KindIndexed(fetch, permitted, tables(k), all, k) && Serves(fetch, k, tables(k))
    requires Rising(records) && Describes(records, recs) && forall r :: r in records ==> r in all.records
    ensures forall i :: 0 <= i < |recs| ==> RecordLinks.IsLast(recs, i)
  {
    hide KindIndexed, Serves, Within, DistinctKeys, Describes, Rising, RecordLinks.IsLast;
    ReadRecordsAreDistinct(permitted, fetch, tables, all);
    KeptRecordsAreDistinct(all, records);
    DescribedAreLast(records, recs);
  }

  method FindSource(recs: seq<RecordLinks.Rec>, source: nat) returns (b: nat)
    requires RecordLinks.DistinctIds(recs)
    ensures if b < |recs| then recs[b].id == source && forall c :: 0 <= c < |recs| && recs[c].id == source ==> c == b
            else forall c :: 0 <= c < |recs| ==> recs[c].id != source
  {
    b := 0;
    while b < |recs| && recs[b].id != source
      invariant b <= |recs|
      invariant forall c :: 0 <= c < b ==> recs[c].id != source
    {
      b := b + 1;
    }
  }

  /**
   * From the store to an answer: the ancestors of an indexed record are exactly the indexed records that chains of
   * references lead to, each once. `fieldsOf` reads the reference fields of a record.
   */
  method IndexedAncestors(
      permitted: set<Kind>, fetch: Reader, ghost tables: Kind -> seq<Row>,
      fieldsOf: Record -> RecordLinks.Rec, source: nat)
    returns (r: BuildReply, recs: seq<RecordLinks.Rec>, values: seq<SearchGraph.Id>)
    requires forall x :: fieldsOf(x).id == x.source && fieldsOf(x).kind == x.kind && fieldsOf(x).recordId == x.row.id
    ensures r.Indexed? ==> Describes(r.index.records, recs) && RecordLinks.DistinctIds(recs)
    ensures r.Indexed? && (forall k :: Serves(fetch, k, tables(k))) ==>
              forall i :: 0 <= i < |recs| ==> RecordLinks.IsLast(recs, i)
    ensures SearchGraph.NoDuplicates(values)
    ensures r.Indexed? ==>
              forall b :: 0 <= b < |recs| && recs[b].id == source ==>
                forall a :: 0 <= a < |recs| ==> (recs[a].id in values <==> RecordLinks.Traces(recs, b, a))
    ensures r.Indexed? && (forall k :: Serves(fetch, k, tables(k))) ==>
              forall b :: 0 <= b < |recs| && recs[b].id == source ==>
                forall a :: 0 <= a < |recs| && a != b ==>
                  (RecordLinks.NamesUp(recs[b], recs[a].kind, recs[a].recordId) ==> recs[a].id in values)
  {
    recs, values := [], [];
    ghost var all;
    r, all := Build(permitted, fetch, tables);
    if r.Unavailable? {
      return;
    }
    var records := r.index.records;
    recs := seq(|records|, i requires 0 <= i < |records| => fieldsOf(records[i]));
    hide KindIndexed, Serves, Within, Anchored, OfKind;
    hide RecordLinks.NamesUp, RecordLinks.Traces, RecordLinks.IsLast, SearchGraph.NoDuplicates;
    DescribedIds(records, recs);
    if forall k :: Serves(fetch, k, tables(k)) {
      IndexedAreLast(permitted, fetch, tables, all, records, recs);
    }
    hide Describes, Rising;
    var b := FindSource(recs, source);
    if b < |recs| {
      values := RecordLinks.AncestorsOf(recs, b);
    }
  }

  lemma DescribedIds(records: seq<Record>, recs: seq<RecordLinks.Rec>)
    requires Rising(records) && Describes(records, recs)
    ensures RecordLinks.DistinctIds(recs)
  {
  }
}
