/** Reading the whole audit universe page by page, within limits. */
module UniverseIndex {
  import opened Options
  import opened AuditRecords

  const PAGE: nat := 250
  const MAX_PER_KIND: nat := 5000
  const MAX_RECORDS: nat := 20000
  const MAX_CHARACTERS: nat := 25_000_000

  const INDEX_KINDS: seq<Kind> :=
    [Entity, Process, Engagement, Risk, Control, Procedure, Workpaper,
     Finding, ActionPlan, Evidence, ControlTest, ReviewNote, Document, Comment]

  /** A row as read: its id, the length of its text, whether that text is cut short, and what a comment is about. */
  datatype Row = Row(id: nat, size: nat, limited: bool, target: Option<(Kind, nat)>)

  datatype Record = Record(source: nat, kind: Kind, row: Row)

  /** A read of one page of a kind after a cursor; `None` is a failed read. */
  type Reader = (Kind, Option<nat>) -> Option<seq<Row>>

  // ---------------------------------------------------------------------------
  // What a store returns
  // ---------------------------------------------------------------------------

  predicate Ascending(rows: seq<Row>) {
    forall i, j :: 0 <= i < j < |rows| ==> rows[i].id < rows[j].id
  }

  function After(rows: seq<Row>, cursor: Option<nat>): seq<Row> {
    if rows == [] || cursor.None? || rows[0].id > cursor.value then rows else After(rows[1..], cursor)
  }

  function FirstPage(rows: seq<Row>): seq<Row> {
    if |rows| <= PAGE then rows else rows[..PAGE]
  }

  /** The reader serves this table for the kind, as long as it does not fail. */
  ghost predicate Serves(fetch: Reader, kind: Kind, table: seq<Row>) {
    && Ascending(table)
    && forall cursor :: fetch(kind, cursor).Some? ==> fetch(kind, cursor).value == FirstPage(After(table, cursor))
  }

  ghost predicate Fails(fetch: Reader, kind: Kind) {
    exists cursor :: fetch(kind, cursor).None?
  }

  /** The cursor of the last row read continues exactly behind that row. */
  lemma {:induction false} CursorContinues(table: seq<Row>, p: nat)
    requires Ascending(table) && 0 < p <= |table|
    ensures After(table, Some(table[p - 1].id)) == table[p..]
  {
    if p > 1 {
      CursorContinues(table[1..], p - 1);
    } else {
      assert After(table, Some(table[0].id)) == After(table[1..], Some(table[0].id));
    }
  }

  // ---------------------------------------------------------------------------
  // Progress of the index
  // ---------------------------------------------------------------------------

  datatype Progress = Progress(records: seq<Record>, incomplete: seq<Kind>, characters: nat, successfulReads: nat,
                               limited: nat)

  function Characters(records: seq<Record>): nat {
    if records == [] then 0 else Characters(records[..|records| - 1]) + records[|records| - 1].row.size
  }

  function Limited(records: seq<Record>): nat {
    if records == [] then 0
    else Limited(records[..|records| - 1]) + if records[|records| - 1].row.limited then 1 else 0
  }

  function Rows(records: seq<Record>): (rows: seq<Row>)
    ensures |rows| == |records|
  {
    seq(|records|, i requires 0 <= i < |records| => records[i].row)
  }

  /** Sources are numbered from 1, there are not too many of them, and none was added once the text was too long. */
  ghost predicate Sound(records: seq<Record>, characters: nat, limited: nat) {
    && |records| <= MAX_RECORDS
    && (forall i :: 0 <= i < |records| ==> records[i].source == i + 1)
    && characters == Characters(records) && limited == Limited(records)
    && (forall i :: 0 <= i < |records| ==> Characters(records[..i]) < MAX_CHARACTERS)
  }

  ghost predicate Within(p: Progress) {
    Sound(p.records, p.characters, p.limited)
  }

  /** At most 20,000 records, numbered from 1; all but the last together hold less than 25,000,000 characters. */
  lemma WithinLimits(p: Progress)
    requires Within(p)
    ensures |p.records| <= 20_000 && forall i :: 0 <= i < |p.records| ==> p.records[i].source == i + 1
    ensures p.records != [] ==> p.characters - p.records[|p.records| - 1].row.size < 25_000_000
    ensures p.limited == |LimitedIn(p.records)|
  {
    if p.records != [] {
      var n := |p.records| - 1;
      assert Characters(p.records[..n]) < MAX_CHARACTERS;
    }
    LimitedCount(p.records);
  }

  ghost function LimitedIn(records: seq<Record>): set<int> {
    set i | 0 <= i < |records| && records[i].row.limited
  }

  lemma {:induction false} LimitedCount(records: seq<Record>)
    ensures Limited(records) == |LimitedIn(records)|
  {
    if records == [] {
      assert LimitedIn(records) == {};
    } else {
      var n := |records| - 1;
      LimitedCount(records[..n]);
      assert LimitedIn(records) == LimitedIn(records[..n]) + if records[n].row.limited then {n} else {};
    }
  }

  predicate AtLimit(p: Progress, count: nat) {
    count >= MAX_PER_KIND || |p.records| >= MAX_RECORDS || p.characters >= MAX_CHARACTERS
  }

  function Added(before: seq<Record>, after: seq<Record>): seq<Record>
    requires |before| <= |after|
  {
    after[|before|..]
  }

  /** From `p` to `q` rows of one kind were added. */
  ghost predicate Extends(p: Progress, q: Progress, kind: Kind) {
    && Within(q) && p.records <= q.records && |Added(p.records, q.records)| <= MAX_PER_KIND
    && (forall r :: r in Added(p.records, q.records) ==> r.kind == kind)
  }

  method AddRow(p: Progress, kind: Kind, row: Row) returns (q: Progress)
    requires Within(p) && !AtLimit(p, 0)
    ensures Within(q) && q.records == p.records + [Record(|p.records| + 1, kind, row)]
    ensures q.incomplete == p.incomplete && q.successfulReads == p.successfulReads
  {
    q := p.(limited := if row.limited then p.limited + 1 else p.limited,
            characters := p.characters + row.size,
            records := p.records + [Record(|p.records| + 1, kind, row)]);
    assert q.records[..|p.records|] == p.records;
    forall i | 0 <= i < |q.records|
      ensures Characters(q.records[..i]) < MAX_CHARACTERS
    {
      assert q.records[..i] == p.records[..i];
      assert p.records[..|p.records|] == p.records;
    }
  }

  lemma AddedNothing(records: seq<Record>)
    ensures Added(records, records) == [] && Rows([]) == []
  {
  }

  lemma AddedSnoc(p: Progress, q: Progress, q': Progress, kind: Kind, row: Row)
    requires p.records <= q.records && q'.records == q.records + [Record(|q.records| + 1, kind, row)]
    ensures p.records <= q'.records
    ensures Added(p.records, q'.records) == Added(p.records, q.records) + [Record(|q.records| + 1, kind, row)]
    ensures Rows(Added(p.records, q'.records)) == Rows(Added(p.records, q.records)) + [row]
  {
  }

  lemma AddedJoin(p: Progress, q: Progress, r: Progress)
    requires p.records <= q.records <= r.records
    ensures Rows(Added(p.records, r.records)) == Rows(Added(p.records, q.records)) + Rows(Added(q.records, r.records))
  {
  }

  /** The rows of one page, until a limit is met; meeting one marks the kind as incomplete. */
  method AddPage(start: Progress, p: Progress, kind: Kind, rows: seq<Row>) returns (q: Progress)
    requires Extends(start, p, kind) && kind !in p.incomplete
    ensures Extends(start, q, kind) && p.records <= q.records && q.successfulReads == p.successfulReads
    ensures Rows(Added(p.records, q.records)) <= rows
    ensures kind !in q.incomplete ==> Rows(Added(p.records, q.records)) == rows && q.incomplete == p.incomplete
    ensures kind in q.incomplete ==>
              && q.incomplete == p.incomplete + [kind] && |Added(p.records, q.records)| < |rows|
              && AtLimit(q, |Added(start.records, q.records)|)
  {
    hide Sound, Rows, Added;
    q := p;
    AddedNothing(p.records);
    for i := 0 to |rows|
      invariant Extends(start, q, kind) && p.records <= q.records
      invariant q.successfulReads == p.successfulReads && q.incomplete == p.incomplete
      invariant Rows(Added(p.records, q.records)) == rows[..i]
    {
      if AtLimit(q, |Added(start.records, q.records)|) {
        q := q.(incomplete := q.incomplete + [kind]);
        return;
      }
      ghost var before := q;
      q := AddRow(q, kind, rows[i]);
      AddedSnoc(start, before, q, kind, rows[i]);
      AddedSnoc(p, before, q, kind, rows[i]);
    }
    assert rows[..|rows|] == rows;
  }

  /** How far a kind was collected from its table. */
  ghost predicate Collected(fetch: Reader, kind: Kind, table: seq<Row>, p: Progress, q: Progress)
    requires |p.records| <= |q.records|
  {
    && Rows(Added(p.records, q.records)) <= table
    && (kind !in q.incomplete ==> Rows(Added(p.records, q.records)) == table)
    && (kind in q.incomplete ==>
          || Fails(fetch, kind)
          || (|Added(p.records, q.records)| < |table| && AtLimit(q, |Added(p.records, q.records)|)))
  }

  /** Where a reader stands that has collected the rows `done` of the table. */
  ghost predicate StandsAt(table: seq<Row>, done: seq<Row>, cursor: Option<nat>) {
    done <= table && cursor == if done == [] then None else Some(done[|done| - 1].id)
  }

  lemma RestOfTable(table: seq<Row>, done: seq<Row>, cursor: Option<nat>)
    requires Ascending(table) && StandsAt(table, done, cursor)
    ensures After(table, cursor) == table[|done|..]
  {
    if done != [] {
      CursorContinues(table, |done|);
      hide After;
    }
  }

  lemma PageJoins(table: seq<Row>, done: seq<Row>)
    requires done <= table
    ensures var page := FirstPage(table[|done|..]);
            && done + page <= table && (|page| < PAGE ==> done + page == table)
            && (|page| >= PAGE ==> |page| == PAGE && page[PAGE - 1] == table[|done| + PAGE - 1])
  {
    var m := |done|;
    if m + PAGE < |table| {
      assert done + FirstPage(table[m..]) == table[..m + PAGE];
    } else {
      assert done + FirstPage(table[m..]) == table;
    }
  }

  /** The next page continues the table; it is short only at the end, and its last row moves the cursor. */
  lemma NextPage(fetch: Reader, kind: Kind, table: seq<Row>, done: seq<Row>, cursor: Option<nat>, page: seq<Row>)
    requires Serves(fetch, kind, table) && StandsAt(table, done, cursor) && fetch(kind, cursor) == Some(page)
    ensures done + page <= table && |page| <= 250 && (|page| < 250 ==> done + page == table)
    ensures |page| == 250 ==>
              StandsAt(table, done + page, Some(page[|page| - 1].id)) && Some(page[|page| - 1].id) != cursor
  {
    hide After, FirstPage;
    RestOfTable(table, done, cursor);
    assert page == FirstPage(table[|done|..]);
    PageJoins(table, done);
    if |page| >= PAGE {
      assert (done + page)[|done| + PAGE - 1] == page[PAGE - 1];
    }
  }

  /**
   * One kind. Whatever the reader does, this ends within the limits; if the reader serves a table, the rows collected
   * are a prefix of it, and all of it unless the kind is marked, which only a failed read or a limit brings about.
   */
  method IndexKind(fetch: Reader, p: Progress, kind: Kind, ghost table: seq<Row>) returns (q: Progress)
    requires Within(p) && kind !in p.incomplete
    ensures Extends(p, q, kind) && p.successfulReads <= q.successfulReads
    ensures q.incomplete == if kind in q.incomplete then p.incomplete + [kind] else p.incomplete
    ensures Serves(fetch, kind, table) ==> Collected(fetch, kind, table, p, q)
    ensures fetch(kind, None).Some? ==> q.successfulReads > p.successfulReads
    ensures fetch(kind, None).None? ==> q.successfulReads == p.successfulReads && kind in q.incomplete
  {
    hide Sound, Serves, Ascending, After, AtLimit, Rows, Added;
    AddedNothing(p.records);
    q := p;
    var afterId: Option<nat> := None;
    while true
      invariant Extends(p, q, kind) && p.successfulReads <= q.successfulReads && q.incomplete == p.incomplete
      invariant Serves(fetch, kind, table) ==> StandsAt(table, Rows(Added(p.records, q.records)), afterId)
      invariant afterId.None? || q.successfulReads > p.successfulReads
      invariant afterId.Some? ==> fetch(kind, None).Some?
      invariant afterId.None? ==> q.successfulReads == p.successfulReads
      decreases MAX_PER_KIND - |Added(p.records, q.records)|
    {
      var page := fetch(kind, afterId);
      if page.None? {
        q := q.(incomplete := q.incomplete + [kind]);
        return;
      }
      ghost var before := q;
      q := AddPage(p, q.(successfulReads := q.successfulReads + 1), kind, page.value);
      AddedJoin(p, before, q);
      if Serves(fetch, kind, table) {
        NextPage(fetch, kind, table, Rows(Added(p.records, before.records)), afterId, page.value);
      }
      if kind in q.incomplete || |page.value| < PAGE {
        return;
      }
      var nextId := page.value[|page.value| - 1].id;
      if Some(nextId) == afterId {
        q := q.(incomplete := q.incomplete + [kind]);
        return;
      }
      afterId := Some(nextId);
    }
  }

  // ---------------------------------------------------------------------------
  // All kinds
  // ---------------------------------------------------------------------------

  datatype Index = Index(records: seq<Record>, restricted: seq<Kind>, incomplete: seq<Kind>, textLimited: nat)

  datatype BuildReply = Unavailable | Indexed(index: Index)

  function OfKind(records: seq<Record>, kind: Kind): seq<Record> {
    if records == [] then []
    else
      var n := |records| - 1;
      OfKind(records[..n], kind) + if records[n].kind == kind then [records[n]] else []
  }

  lemma OfKindSnoc(records: seq<Record>, r: Record, k: Kind)
    ensures OfKind(records + [r], k) == OfKind(records, k) + if r.kind == k then [r] else []
  {
    assert (records + [r])[..|records|] == records;
  }

  lemma {:induction false} OfKindJoin(before: seq<Record>, added: seq<Record>, kind: Kind, k: Kind)
    requires forall r :: r in added ==> r.kind == kind
    ensures OfKind(before + added, k) == OfKind(before, k) + if k == kind then added else []
  {
    hide OfKind;
    if added == [] {
      assert before + added == before;
    } else {
      var n := |added| - 1;
      OfKindJoin(before, added[..n], kind, k);
      OfKindSnoc(before + added[..n], added[n], k);
      assert added[n] in added;
      assert added == added[..n] + [added[n]];
      assert before + added == before + added[..n] + [added[n]];
    }
  }

  lemma {:induction false} CharactersGrow(before: seq<Record>, added: seq<Record>)
    ensures Characters(before) <= Characters(before + added)
  {
    if added == [] {
      assert before + added == before;
    } else {
      var n := |added| - 1;
      CharactersGrow(before, added[..n]);
      assert (before + added)[..|before| + n] == before + added[..n];
    }
  }

  /** Every kind is there. */
  lemma KindIsListed(k: Kind)
    ensures k in INDEX_KINDS
  {
    var i := KindNumber(k);
    assert INDEX_KINDS[i] == k;
  }

  function KindNumber(k: Kind): (i: nat)
    ensures i < |INDEX_KINDS|
  {
    match k
    case Entity => 0 case Process => 1 case Engagement => 2 case Risk => 3 case Control => 4
    case Procedure => 5 case Workpaper => 6 case Finding => 7 case ActionPlan => 8 case Evidence => 9
    case ControlTest => 10 case ReviewNote => 11 case Document => 12 case Comment => 13
  }

  lemma KindsAreDistinct(i: nat, j: nat)
    requires i < j < |INDEX_KINDS|
    ensures INDEX_KINDS[i] != INDEX_KINDS[j]
  {
    NumberOfKind(i);
    NumberOfKind(j);
    hide INDEX_KINDS;
  }

  lemma NumberOfKind(i: nat)
    requires i < |INDEX_KINDS|
    ensures KindNumber(INDEX_KINDS[i]) == i
  {
  }

  /**
   * What the index holds of a kind: nothing without permission, and no more than the limit. If the reader serves a
   * table, a prefix of it; all of it if the kind is not marked; and it is marked only for a failed read or a limit.
   */
  ghost predicate KindIndexed(fetch: Reader, permitted: set<Kind>, table: seq<Row>, p: Progress, k: Kind) {
    var rows := Rows(OfKind(p.records, k));
    if k !in permitted then rows == [] && k !in p.incomplete
    else
      && |rows| <= MAX_PER_KIND
      && (Serves(fetch, k, table) ==>
            && rows <= table
            && (k !in p.incomplete ==> rows == table)
            && (k in p.incomplete ==> Fails(fetch, k) || (|rows| < |table| && AtLimit(p, |rows|))))
  }

  /** A kind whose reads all succeed is complete but for the three limits. */
  lemma CutOnlyByLimits(fetch: Reader, permitted: set<Kind>, table: seq<Row>, p: Progress, k: Kind)
    requires KindIndexed(fetch, permitted, table, p, k) && k in permitted
    ensures |OfKind(p.records, k)| <= 5000
    ensures Serves(fetch, k, table) && (forall cursor :: fetch(k, cursor).Some?) ==>
              || Rows(OfKind(p.records, k)) == table
              || |OfKind(p.records, k)| == 5000 || |p.records| >= 20_000 || p.characters >= 25_000_000
  {
    hide OfKind, Serves;
  }

  lemma IndexedStaysIndexed(fetch: Reader, permitted: set<Kind>, table: seq<Row>, p: Progress, q: Progress,
                            kind: Kind, k: Kind)
    requires Within(p) && Extends(p, q, kind) && k != kind && KindIndexed(fetch, permitted, table, p, k)
    requires q.incomplete == if kind in q.incomplete then p.incomplete + [kind] else p.incomplete
    ensures KindIndexed(fetch, permitted, table, q, k)
  {
    hide Rows, Serves, OfKind, Characters;
    var added := Added(p.records, q.records);
    assert q.records == p.records + added;
    OfKindJoin(p.records, added, kind, k);
    assert OfKind(p.records, k) + [] == OfKind(p.records, k);
    CharactersGrow(p.records, added);
  }

  lemma NewlyIndexed(fetch: Reader, permitted: set<Kind>, table: seq<Row>, p: Progress, q: Progress, kind: Kind)
    requires Extends(p, q, kind) && kind in permitted && OfKind(p.records, kind) == []
    requires Serves(fetch, kind, table) ==> Collected(fetch, kind, table, p, q)
    ensures KindIndexed(fetch, permitted, table, q, kind)
  {
    hide Serves, OfKind, Sound;
    var added := Added(p.records, q.records);
    assert q.records == p.records + added;
    OfKindJoin(p.records, added, kind, kind);
    assert [] + added == added;
  }

  // ---------------------------------------------------------------------------
  // Comments on records outside the index
  // ---------------------------------------------------------------------------

  function Keys(records: seq<Record>): set<(Kind, nat)> {
    set r | r in records :: (r.kind, r.row.id)
  }

  predicate Anchored(r: Record, keys: set<(Kind, nat)>) {
    r.kind != Comment || (r.row.target.Some? && r.row.target.value in keys)
  }

  /** A comment is kept if the record that it is about was read, and everything else is kept. */
  lemma AnchoredMeans(records: seq<Record>, r: Record)
    ensures Anchored(r, Keys(records)) <==>
              || r.kind != Comment
              || exists x :: x in records && r.row.target == Some((x.kind, x.row.id))
  {
  }

  function Filter(records: seq<Record>, keys: set<(Kind, nat)>): seq<Record> {
    if records == [] then []
    else
      var n := |records| - 1;
      Filter(records[..n], keys) + if Anchored(records[n], keys) then [records[n]] else []
  }

  /** The filter drops nothing but comments without their subject. */
  lemma {:induction false} FilterMembers(records: seq<Record>, keys: set<(Kind, nat)>, r: Record)
    ensures r in Filter(records, keys) <==> r in records && Anchored(r, keys)
  {
    if records != [] {
      var n := |records| - 1;
      FilterMembers(records[..n], keys, r);
      assert records == records[..n] + [records[n]];
    }
  }

  lemma {:induction false} FilterOfKind(records: seq<Record>, keys: set<(Kind, nat)>, k: Kind)
    requires k != Comment
    ensures OfKind(Filter(records, keys), k) == OfKind(records, k)
  {
    if records != [] {
      var n := |records| - 1;
      var f := Filter(records[..n], keys);
      FilterOfKind(records[..n], keys, k);
      if Anchored(records[n], keys) {
        OfKindSnoc(f, records[n], k);
      } else {
        assert f + [] == f;
      }
    }
  }

  predicate Rising(records: seq<Record>) {
    forall i, j :: 0 <= i < j < |records| ==> records[i].source < records[j].source
  }

  lemma {:induction false} FilterRises(records: seq<Record>, keys: set<(Kind, nat)>)
    requires Rising(records)
    ensures Rising(Filter(records, keys))
  {
    if records != [] {
      var n := |records| - 1;
      FilterRises(records[..n], keys);
      var f := Filter(records[..n], keys);
      forall i | 0 <= i < |f|
        ensures f[i].source < records[n].source
      {
        FilterMembers(records[..n], keys, f[i]);
      }
    }
  }

  /** The index of everything that was read, once the reading is over. */
  lemma FilterKeeps(records: seq<Record>, keys: set<(Kind, nat)>)
    requires Rising(records)
    ensures var f := Filter(records, keys);
            && (forall r :: r in f <==> r in records && Anchored(r, keys))
            && Rising(f)
            && (forall k :: k != Comment ==> OfKind(f, k) == OfKind(records, k))
  {
    hide Filter, Rising, Anchored;
    FilterRises(records, keys);
    forall r
      ensures r in Filter(records, keys) <==> r in records && Anchored(r, keys)
    {
      FilterMembers(records, keys, r);
    }
    forall k | k != Comment
      ensures OfKind(Filter(records, keys), k) == OfKind(records, k)
    {
      FilterOfKind(records, keys, k);
    }
  }

  method Build(permitted: set<Kind>, fetch: Reader, ghost tables: Kind -> seq<Row>)
    returns (r: BuildReply, ghost all: Progress)
    ensures Within(all) && forall k :: KindIndexed(fetch, permitted, tables(k), all, k)
    ensures r.Unavailable? <==> permitted != {} && forall k :: k in permitted ==> fetch(k, None).None?
    ensures r.Indexed? ==>
              && (forall x :: x in r.index.records <==> x in all.records && Anchored(x, Keys(all.records)))
              && Rising(r.index.records)
              && (forall k :: k != Comment ==> OfKind(r.index.records, k) == OfKind(all.records, k))
              && (forall k :: k in r.index.restricted <==> k !in permitted)
              && r.index.incomplete == all.incomplete && r.index.textLimited == all.limited
  {
    hide KindIndexed, Sound, OfKind, KindNumber, Serves, INDEX_KINDS, Rising, Anchored, Filter, Keys;
    var restricted: seq<Kind> := [];
    var p := Progress([], [], 0, 0, 0);
    NothingIndexed();
    for i := 0 to |INDEX_KINDS|
      invariant Within(p)
      invariant forall k :: k in p.incomplete ==> k in INDEX_KINDS[..i] && k in permitted
      invariant forall k :: k in INDEX_KINDS[..i] ==> KindIndexed(fetch, permitted, tables(k), p, k)
      invariant forall k :: k !in INDEX_KINDS[..i] ==> OfKind(p.records, k) == []
      invariant forall k :: k in restricted <==> k in INDEX_KINDS[..i] && k !in permitted
      invariant p.successfulReads == 0 <==> forall k :: k in permitted && k in INDEX_KINDS[..i] ==> fetch(k, None).None?
      invariant forall k :: k in permitted && k in INDEX_KINDS[..i] && fetch(k, None).None? ==> k in p.incomplete
    {
      var kind := INDEX_KINDS[i];
      forall j | 0 <= j < i
        ensures INDEX_KINDS[j] != kind
      {
        KindsAreDistinct(j, i);
      }
      if kind !in permitted {
        restricted := restricted + [kind];
        Unpermitted(fetch, permitted, tables(kind), p, kind);
        continue;
      }
      ghost var before := p;
      p := IndexKind(fetch, p, kind, tables(kind));
      NewlyIndexed(fetch, permitted, tables(kind), before, p, kind);
      forall k | k in INDEX_KINDS[..i]
        ensures KindIndexed(fetch, permitted, tables(k), p, k)
      {
        IndexedStaysIndexed(fetch, permitted, tables(k), before, p, kind, k);
      }
      forall k | k !in INDEX_KINDS[..i + 1]
        ensures OfKind(p.records, k) == []
      {
        StillNone(before, p, kind, k);
      }
    }
    forall k
      ensures k in INDEX_KINDS[..|INDEX_KINDS|]
    {
      KindIsListed(k);
    }
    all := p;
    assert p.incomplete != [] ==> p.incomplete[0] in p.incomplete;
    if p.successfulReads == 0 && p.incomplete != [] {
      return Unavailable, all;
    }
    Numbered(p);
    FilterKeeps(p.records, Keys(p.records));
    r := Indexed(Index(Filter(p.records, Keys(p.records)), restricted, p.incomplete, p.limited));
  }

  lemma NothingIndexed()
    ensures Within(Progress([], [], 0, 0, 0)) && forall k :: OfKind([], k) == []
  {
  }

  lemma Unpermitted(fetch: Reader, permitted: set<Kind>, table: seq<Row>, p: Progress, k: Kind)
    requires k !in permitted && OfKind(p.records, k) == [] && k !in p.incomplete
    ensures KindIndexed(fetch, permitted, table, p, k)
  {
  }

  lemma StillNone(p: Progress, q: Progress, kind: Kind, k: Kind)
    requires Extends(p, q, kind) && k != kind && OfKind(p.records, k) == []
    ensures OfKind(q.records, k) == []
  {
    OfKindJoin(p.records, Added(p.records, q.records), kind, k);
    assert q.records == p.records + Added(p.records, q.records);
  }

  lemma Numbered(p: Progress)
    requires Within(p)
    ensures Rising(p.records)
  {
  }
}
