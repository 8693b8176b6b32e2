/** Linking the records of an index to the records that their fields refer to. */
module RecordLinks {
  import opened Options
  import opened AuditRecords
  import opened SearchGraph

  /** A field that refers to a record of a kind, and the name of the link that it makes. */
  datatype Ref = Ref(kind: Kind, recordId: nat, relationship: string)

  /** The fields of a record that refer to others. `parents` holds the reference fields that are filled, by name. */
  datatype Rec = Rec(
    id: Id, kind: Kind, recordId: nat, parents: map<string, nat>, risks: seq<nat>, findings: seq<nat>,
    target: Option<(Kind, nat)>, owner: Option<(Kind, nat)>)

  /** The reference fields: the name of the link, that of the field without "Id", and the kind they refer to. */
  const PARENTS: seq<(string, Kind)> := [
    ("parent", Entity), ("entity", Entity), ("process", Process), ("risk", Risk), ("control", Control),
    ("engagement", Engagement), ("programStep", Procedure), ("workpaper", Workpaper), ("document", Document),
    ("finding", Finding), ("repeatOf", Finding)]

  function ParentRefs(r: Rec, fields: seq<(string, Kind)>): seq<Ref> {
    if fields == [] then []
    else
      var n := |fields| - 1;
      var (name, kind) := fields[n];
      ParentRefs(r, fields[..n]) + if name in r.parents then [Ref(kind, r.parents[name], name)] else []
  }

  function RefsTo(kind: Kind, ids: seq<nat>, relationship: string): (s: seq<Ref>)
    ensures |s| == |ids|
  {
    seq(|ids|, i requires 0 <= i < |ids| => Ref(kind, ids[i], relationship))
  }

  function RefOf(t: Option<(Kind, nat)>, relationship: string): seq<Ref> {
    if t.Some? then [Ref(t.value.0, t.value.1, relationship)] else []
  }

  /** Everything that a record refers to, in the order in which it is linked. */
  function Refs(r: Rec): seq<Ref> {
    ParentRefs(r, PARENTS)
    + (if r.kind == Control then RefsTo(Risk, r.risks, "mitigated by") else [])
    + (if r.kind == Evidence then RefsTo(Finding, r.findings, "supported by") else [])
    + (if r.kind == Comment then RefOf(r.target, "comment") else [])
    + (if r.kind == Document then RefOf(r.owner, "attachment") else [])
  }

  // ---------------------------------------------------------------------------
  // The references field by field
  // ---------------------------------------------------------------------------

  /** The reference field `name`, which names records of kind `of`, is filled with this record. */
  predicate Names(r: Rec, name: string, of: Kind, kind: Kind, recordId: nat) {
    kind == of && name in r.parents && r.parents[name] == recordId
  }

  /** Some reference field of `r`, or a list or an owner that its kind has, names the record; `repeatOf` apart. */
  predicate NamesUp(r: Rec, kind: Kind, recordId: nat) {
    || Names(r, "parent", Entity, kind, recordId)
    || Names(r, "entity", Entity, kind, recordId)
    || Names(r, "process", Process, kind, recordId)
    || Names(r, "risk", Risk, kind, recordId)
    || Names(r, "control", Control, kind, recordId)
    || Names(r, "engagement", Engagement, kind, recordId)
    || Names(r, "programStep", Procedure, kind, recordId)
    || Names(r, "workpaper", Workpaper, kind, recordId)
    || Names(r, "document", Document, kind, recordId)
    || Names(r, "finding", Finding, kind, recordId)
    || (r.kind == Control && kind == Risk && recordId in r.risks)
    || (r.kind == Evidence && kind == Finding && recordId in r.findings)
    || (r.kind == Comment && r.target == Some((kind, recordId)))
    || (r.kind == Document && r.owner == Some((kind, recordId)))
  }

  lemma {:induction false} ParentRefsAre(r: Rec, fields: seq<(string, Kind)>, ref: Ref)
    ensures ref in ParentRefs(r, fields) <==>
              exists i :: 0 <= i < |fields| && fields[i].0 == ref.relationship
                     && Names(r, ref.relationship, fields[i].1, ref.kind, ref.recordId)
  {
    if fields != [] {
      var n := |fields| - 1;
      ParentRefsAre(r, fields[..n], ref);
      assert forall i :: 0 <= i < n ==> fields[..n][i] == fields[i];
    }
  }

  lemma ParentFields(r: Rec, ref: Ref)
    ensures ref in ParentRefs(r, PARENTS) <==>
              && ref.relationship in r.parents && r.parents[ref.relationship] == ref.recordId
              && (ref.relationship, ref.kind) in {
                   ("parent", Entity), ("entity", Entity), ("process", Process), ("risk", Risk), ("control", Control),
                   ("engagement", Engagement), ("programStep", Procedure), ("workpaper", Workpaper),
                   ("document", Document), ("finding", Finding), ("repeatOf", Finding)}
  {
    ParentRefsAre(r, PARENTS, ref);
    var field := (ref.relationship, ref.kind);
    assert field in PARENTS <==> exists i :: 0 <= i < |PARENTS| && PARENTS[i].0 == field.0 && PARENTS[i].1 == field.1;
  }

  /** A record refers to what its filled reference fields name, and to what the lists and owners of its kind name. */
  lemma RefsAreFields(r: Rec, ref: Ref)
    ensures ref in Refs(r) <==>
              || ref in ParentRefs(r, PARENTS)
              || (r.kind == Control && ref.kind == Risk && ref.recordId in r.risks
                  && ref.relationship == "mitigated by")
              || (r.kind == Evidence && ref.kind == Finding && ref.recordId in r.findings
                  && ref.relationship == "supported by")
              || (r.kind == Comment && r.target == Some((ref.kind, ref.recordId)) && ref.relationship == "comment")
              || (r.kind == Document && r.owner == Some((ref.kind, ref.recordId)) && ref.relationship == "attachment")
  {
    hide ParentRefs;
    InRefsTo(Risk, r.risks, "mitigated by", ref);
    InRefsTo(Finding, r.findings, "supported by", ref);
    hide RefsTo;
  }

  lemma InRefsTo(kind: Kind, ids: seq<nat>, relationship: string, ref: Ref)
    ensures ref in RefsTo(kind, ids, relationship) <==>
              ref.kind == kind && ref.recordId in ids && ref.relationship == relationship
  {
    var s := RefsTo(kind, ids, relationship);
    if ref.kind == kind && ref.recordId in ids && ref.relationship == relationship {
      var i :| 0 <= i < |ids| && ids[i] == ref.recordId;
      assert s[i] == ref;
    }
  }

  predicate HasKey(r: Rec, kind: Kind, recordId: nat) {
    r.kind == kind && r.recordId == recordId
  }

  /** No later record has the kind and record id of record `i`. */
  ghost predicate IsLast(records: seq<Rec>, i: nat) {
    i < |records| && forall j :: i < j < |records| ==> !HasKey(records[j], records[i].kind, records[i].recordId)
  }

  /** Record `b` refers to another record, `a`, by a field that makes a link of this name. */
  ghost predicate Refers(records: seq<Rec>, a: nat, b: nat, relationship: string) {
    && a < |records| && b < |records| && a != b && IsLast(records, a)
    && Ref(records[a].kind, records[a].recordId, relationship) in Refs(records[b])
  }

  ghost predicate Justified(records: seq<Rec>, l: Link) {
    exists a: nat, b: nat :: Refers(records, a, b, l.relationship) && l.from == records[a].id && l.to == records[b].id
  }

  lemma JustifiedBy(records: seq<Rec>, l: Link) returns (a: nat, b: nat)
    requires Justified(records, l)
    ensures Refers(records, a, b, l.relationship)
    ensures a < |records| && b < |records| && l.from == records[a].id && l.to == records[b].id
  {
    a, b :| Refers(records, a, b, l.relationship) && l.from == records[a].id && l.to == records[b].id;
  }

  lemma ReferenceJustifies(records: seq<Rec>, a: nat, b: nat, relationship: string)
    requires Refers(records, a, b, relationship)
    ensures a < |records| && b < |records| && Justified(records, Link(records[a].id, records[b].id, relationship))
  {
    var l := Link(records[a].id, records[b].id, relationship);
    assert Refers(records, a, b, l.relationship) && l.from == records[a].id && l.to == records[b].id;
  }

  /** The position of each kind and record id; a later record takes the place of an earlier one. */
  function ByKey(records: seq<Rec>): map<(Kind, nat), nat> {
    if records == [] then map[]
    else
      var n := |records| - 1;
      ByKey(records[..n])[(records[n].kind, records[n].recordId) := n]
  }

  ghost predicate Holds(records: seq<Rec>, m: map<(Kind, nat), nat>, kind: Kind, recordId: nat) {
    if (kind, recordId) in m
    then var i := m[(kind, recordId)]; IsLast(records, i) && HasKey(records[i], kind, recordId)
    else forall i :: 0 <= i < |records| ==> !HasKey(records[i], kind, recordId)
  }

  lemma {:induction false} ByKeyHolds(records: seq<Rec>, kind: Kind, recordId: nat)
    ensures Holds(records, ByKey(records), kind, recordId)
  {
    if records != [] {
      var n := |records| - 1;
      ByKeyHolds(records[..n], kind, recordId);
      assert forall i :: 0 <= i < n ==> records[..n][i] == records[i];
    }
  }

  lemma LastIsUnique(records: seq<Rec>, i: nat, j: nat)
    requires IsLast(records, i) && IsLast(records, j) && HasKey(records[j], records[i].kind, records[i].recordId)
    ensures i == j
  {
  }

  /** What the first `n` references of record `b` make. */
  ghost predicate MadeBy(records: seq<Rec>, b: nat, n: nat, l: Link)
    requires b < |records| && n <= |Refs(records[b])|
  {
    exists a: nat :: IsLast(records, a) && a != b && l.from == records[a].id && l.to == records[b].id
                && Ref(records[a].kind, records[a].recordId, l.relationship) in Refs(records[b])[..n]
  }

  ghost predicate Made(records: seq<Rec>, m: nat, l: Link)
    requires m <= |records|
  {
    exists i :: 0 <= i < m && MadeBy(records, i, |Refs(records[i])|, l)
  }

  lemma MadeBySnoc(records: seq<Rec>, b: nat, n: nat, l: Link)
    requires b < |records| && n < |Refs(records[b])|
    ensures var ref, m := Refs(records[b])[n], ByKey(records);
            && ((ref.kind, ref.recordId) in m ==> m[(ref.kind, ref.recordId)] < |records|)
            && (MadeBy(records, b, n + 1, l) <==>
                  || MadeBy(records, b, n, l)
                  || ((ref.kind, ref.recordId) in m && m[(ref.kind, ref.recordId)] != b
                      && l == Link(records[m[(ref.kind, ref.recordId)]].id, records[b].id, ref.relationship)))
  {
    hide Refs, ByKey;
    var ref, m := Refs(records[b])[n], ByKey(records);
    ByKeyHolds(records, ref.kind, ref.recordId);
    var refs := Refs(records[b]);
    assert refs[..n + 1] == refs[..n] + [ref];
    if MadeBy(records, b, n + 1, l) {
      var a: nat :| IsLast(records, a) && a != b && l.from == records[a].id && l.to == records[b].id
               && Ref(records[a].kind, records[a].recordId, l.relationship) in refs[..n + 1];
      if Ref(records[a].kind, records[a].recordId, l.relationship) !in refs[..n] {
        assert ref == Ref(records[a].kind, records[a].recordId, l.relationship);
        LastIsUnique(records, a, m[(ref.kind, ref.recordId)]);
      }
    }
  }

  lemma MadeByAll(records: seq<Rec>, b: nat, l: Link)
    requires b < |records|
    ensures MadeBy(records, b, |Refs(records[b])|, l) <==>
              l.to == records[b].id && exists a: nat :: Refers(records, a, b, l.relationship) && l.from == records[a].id
  {
    hide Refs;
    assert Refs(records[b])[..|Refs(records[b])|] == Refs(records[b]);
    forall a: nat
      ensures Refers(records, a, b, l.relationship) <==>
                && IsLast(records, a) && a != b
                && Ref(records[a].kind, records[a].recordId, l.relationship) in Refs(records[b])
    {
    }
  }

  lemma MadeIsJustified(records: seq<Rec>, l: Link)
    ensures Made(records, |records|, l) <==> Justified(records, l)
  {
    hide Refs;
    forall b | 0 <= b < |records|
      ensures MadeBy(records, b, |Refs(records[b])|, l) <==>
                && l.to == records[b].id
                && exists a: nat :: Refers(records, a, b, l.relationship) && l.from == records[a].id
    {
      MadeByAll(records, b, l);
    }
    hide MadeBy, IsLast;
    if Justified(records, l) {
      var a, b := JustifiedBy(records, l);
      assert MadeBy(records, b, |Refs(records[b])|, l);
    }
  }

  /** Each link once, and exactly the links that some field justifies. */
  method LinkAuditRecords(records: seq<Rec>) returns (links: seq<Link>)
    ensures NoDuplicates(links) && forall l :: l in links <==> Justified(records, l)
  {
    hide Refs, ByKey, Made, MadeBy, Justified;
    var byKey := ByKey(records);
    links := [];
    NothingMade(records);
    for i := 0 to |records|
      invariant NoDuplicates(links) && forall l :: l in links <==> Made(records, i, l)
    {
      var r, refs := records[i], Refs(records[i]);
      NothingMadeBy(records, i);
      for j := 0 to |refs|
        invariant NoDuplicates(links) && forall l :: l in links <==> Made(records, i, l) || MadeBy(records, i, j, l)
      {
        var key := (refs[j].kind, refs[j].recordId);
        MadeBySnoc(records, i, j, Link(0, 0, ""));
        forall l
          ensures MadeBy(records, i, j + 1, l) <==>
                    || MadeBy(records, i, j, l)
                    || (key in byKey && byKey[key] != i
                        && l == Link(records[byKey[key]].id, r.id, refs[j].relationship))
        {
          MadeBySnoc(records, i, j, l);
        }
        if key in byKey && byKey[key] != i {
          var link := Link(records[byKey[key]].id, r.id, refs[j].relationship);
          if link !in links {
            links := links + [link];
          }
        }
      }
      MadeSnoc(records, i);
    }
    forall l
      ensures Made(records, |records|, l) <==> Justified(records, l)
    {
      MadeIsJustified(records, l);
    }
  }

  lemma NothingMade(records: seq<Rec>)
    ensures forall l :: !Made(records, 0, l)
  {
  }

  lemma NothingMadeBy(records: seq<Rec>, b: nat)
    requires b < |records|
    ensures forall l :: !MadeBy(records, b, 0, l)
  {
  }

  lemma MadeSnoc(records: seq<Rec>, i: nat)
    requires i < |records|
    ensures forall l :: Made(records, i + 1, l) <==> Made(records, i, l) || MadeBy(records, i, |Refs(records[i])|, l)
  {
    hide MadeBy, Refs;
  }

  // ---------------------------------------------------------------------------
  // What walking up means
  // ---------------------------------------------------------------------------

  /** Source ids are unique. */
  ghost predicate DistinctIds(records: seq<Rec>) {
    forall i, j :: 0 <= i < j < |records| ==> records[i].id != records[j].id
  }

  function Kinds(records: seq<Rec>): map<Id, Kind> {
    if records == [] then map[]
    else Kinds(records[..|records| - 1])[records[|records| - 1].id := records[|records| - 1].kind]
  }

  lemma {:induction false} KindsHold(records: seq<Rec>, i: nat)
    requires DistinctIds(records) && i < |records|
    ensures records[i].id in Kinds(records) && Kinds(records)[records[i].id] == records[i].kind
  {
    var n := |records| - 1;
    if i < n {
      KindsHold(records[..n], i);
      assert records[i].id != records[n].id;
    }
  }

  lemma {:induction false} KindsCover(records: seq<Rec>, x: Id)
    requires x in Kinds(records)
    ensures exists i: nat :: i < |records| && records[i].id == x
  {
    var n := |records| - 1;
    if x == records[n].id {
      assert records[n].id == x;
    } else {
      KindsCover(records[..n], x);
      var i: nat :| i < n && records[..n][i].id == x;
      assert records[i].id == x;
    }
  }

  /** Record `b` refers to record `a`, other than as the finding that it repeats. */
  ghost predicate RefersUp(records: seq<Rec>, b: nat, a: nat) {
    exists relationship :: relationship != "repeatOf" && Refers(records, a, b, relationship)
  }

  lemma IdsTellApart(records: seq<Rec>, i: nat, j: nat)
    requires DistinctIds(records) && i < |records| && j < |records| && records[i].id == records[j].id
    ensures i == j
  {
  }

  /** A connection between two records is a reference. */
  lemma ConnectionIsReference(records: seq<Rec>, links: seq<Link>, a: nat, b: nat)
    requires DistinctIds(records) && forall l :: l in links <==> Justified(records, l)
    requires a < |records| && b < |records| && Connects(Kinds(records), links, records[a].id, records[b].id)
    ensures RefersUp(records, b, a)
  {
    hide Kinds, Refers, DistinctIds, Justified;
    var l :| l in links && Usable(Kinds(records), l) && l.from == records[a].id && l.to == records[b].id;
    var a', b' := JustifiedBy(records, l);
    IdsTellApart(records, a, a');
    IdsTellApart(records, b, b');
  }

  /** A reference between two records connects them. */
  lemma ReferenceConnects(records: seq<Rec>, links: seq<Link>, a: nat, b: nat)
    requires DistinctIds(records) && forall l :: l in links <==> Justified(records, l)
    requires a < |records| && b < |records| && RefersUp(records, b, a)
    ensures Connects(Kinds(records), links, records[a].id, records[b].id)
  {
    hide Kinds, Refers, DistinctIds, Justified, Connects;
    KindsHold(records, a);
    KindsHold(records, b);
    var relationship :| relationship != "repeatOf" && Refers(records, a, b, relationship);
    ReferenceJustifies(records, a, b, relationship);
    ConnectsBy(Kinds(records), links, Link(records[a].id, records[b].id, relationship));
  }

  lemma ConnectsBy(kinds: map<Id, Kind>, links: seq<Link>, l: Link)
    requires l in links && l.from in kinds && l.to in kinds && l.relationship != "repeatOf"
    ensures Connects(kinds, links, l.from, l.to)
  {
    assert Usable(kinds, l);
  }

  /** A step of the walk up goes from a record to one that it refers to. */
  lemma ParentsAreReferences(records: seq<Rec>, links: seq<Link>, parents: Adjacency, a: nat, b: nat)
    requires Linked(records, links, parents) && a < |records| && b < |records|
    ensures records[a].id in Lookup(parents, records[b].id) <==> RefersUp(records, b, a)
  {
    hide Kinds, Lookup, Connects, RefersUp, DistinctIds, Justified;
    if RefersUp(records, b, a) {
      ReferenceConnects(records, links, a, b);
    }
    if Connects(Kinds(records), links, records[a].id, records[b].id) {
      ConnectionIsReference(records, links, a, b);
    }
  }

  lemma RefersMeans(records: seq<Rec>, a: nat, b: nat, relationship: string)
    requires Refers(records, a, b, relationship)
    ensures a < |records| && b < |records|
  {
  }

  /** From record `b` a chain of `n` references leads to record `a`. */
  ghost predicate TracesIn(records: seq<Rec>, b: nat, a: nat, n: nat)
    decreases n
  {
    if n == 0 then a == b else exists c: nat :: TracesIn(records, b, c, n - 1) && RefersUp(records, c, a)
  }

  ghost predicate Traces(records: seq<Rec>, b: nat, a: nat) {
    exists n :: TracesIn(records, b, a, n)
  }

  lemma UpRefIsNamed(r: Rec, kind: Kind, recordId: nat)
    ensures (exists name :: name != "repeatOf" && Ref(kind, recordId, name) in Refs(r)) <==> NamesUp(r, kind, recordId)
  {
    hide Refs, NamesUp;
    forall name | name != "repeatOf" && Ref(kind, recordId, name) in Refs(r)
      ensures NamesUp(r, kind, recordId)
    {
      UpFieldIs(r, Ref(kind, recordId, name));
    }
    if NamesUp(r, kind, recordId) {
      var name := UpField(r, kind, recordId);
      assert name != "repeatOf" && Ref(kind, recordId, name) in Refs(r);
    }
  }

  lemma UpFieldIs(r: Rec, ref: Ref)
    requires ref in Refs(r) && ref.relationship != "repeatOf"
    ensures NamesUp(r, ref.kind, ref.recordId)
  {
    RefsAreFields(r, ref);
    ParentFields(r, ref);
    hide Refs, ParentRefs;
  }

  /** The field that names a record. */
  lemma UpField(r: Rec, kind: Kind, recordId: nat) returns (name: string)
    requires NamesUp(r, kind, recordId)
    ensures name != "repeatOf" && Ref(kind, recordId, name) in Refs(r)
  {
    name :=
      if Names(r, "parent", Entity, kind, recordId) then "parent"
      else if Names(r, "entity", Entity, kind, recordId) then "entity"
      else if Names(r, "process", Process, kind, recordId) then "process"
      else if Names(r, "risk", Risk, kind, recordId) then "risk"
      else if Names(r, "control", Control, kind, recordId) then "control"
      else if Names(r, "engagement", Engagement, kind, recordId) then "engagement"
      else if Names(r, "programStep", Procedure, kind, recordId) then "programStep"
      else if Names(r, "workpaper", Workpaper, kind, recordId) then "workpaper"
      else if Names(r, "document", Document, kind, recordId) then "document"
      else if Names(r, "finding", Finding, kind, recordId) then "finding"
      else if r.kind == Control then "mitigated by"
      else if r.kind == Evidence then "supported by"
      else if r.kind == Comment then "comment"
      else "attachment";
    hide Refs, ParentRefs;
    RefsAreFields(r, Ref(kind, recordId, name));
    ParentFields(r, Ref(kind, recordId, name));
  }

  /** One step up leads from a record to the other records that its fields name, those of repeated findings apart. */
  lemma StepUpIsField(records: seq<Rec>, b: nat, a: nat)
    requires a < |records| && b < |records|
    ensures RefersUp(records, b, a) <==>
              a != b && IsLast(records, a) && NamesUp(records[b], records[a].kind, records[a].recordId)
  {
    UpRefIsNamed(records[b], records[a].kind, records[a].recordId);
    hide Refs, NamesUp, IsLast;
    forall name
      ensures Refers(records, a, b, name) <==>
                a != b && IsLast(records, a) && Ref(records[a].kind, records[a].recordId, name) in Refs(records[b])
    {
    }
  }

  /** A record that a later one of its kind and record id takes the place of is linked to nothing. */
  lemma ReplacedIsUnlinked(records: seq<Rec>, a: nat, later: nat, b: nat, relationship: string)
    requires a < later < |records|
    requires records[later].kind == records[a].kind && records[later].recordId == records[a].recordId
    ensures !Refers(records, a, b, relationship)
  {
  }

  lemma NamedIsAncestor(records: seq<Rec>, b: nat, a: nat)
    requires a < |records| && b < |records| && a != b && IsLast(records, a)
    requires NamesUp(records[b], records[a].kind, records[a].recordId)
    ensures Traces(records, b, a)
  {
    StepUpIsField(records, b, a);
    hide RefersUp;
    assert TracesIn(records, b, b, 0);
    assert TracesIn(records, b, a, 1);
  }

  /** The links of the records, and the parents that they make. */
  ghost predicate Linked(records: seq<Rec>, links: seq<Link>, parents: Adjacency) {
    && DistinctIds(records) && IsParents(Kinds(records), links, parents)
    && forall l :: l in links <==> Justified(records, l)
  }

  ghost function Up(records: seq<Rec>, parents: Adjacency): Graph {
    Graph(Kinds(records), parents, false)
  }

  lemma {:induction false} TraceIsIndex(records: seq<Rec>, b: nat, a: nat, n: nat)
    requires b < |records| && TracesIn(records, b, a, n)
    ensures a < |records|
    decreases n
  {
    if n > 0 {
      var c: nat :| TracesIn(records, b, c, n - 1) && RefersUp(records, c, a);
      var relationship :| relationship != "repeatOf" && Refers(records, a, c, relationship);
      RefersMeans(records, a, c, relationship);
    }
  }

  lemma UpSteps(records: seq<Rec>, parents: Adjacency, x: Id, y: Id)
    ensures Up(records, parents).Steps(x, y) <==> y in Lookup(parents, x)
  {
    hide Lookup, Kinds;
  }

  lemma {:induction false} TraceIsReach(records: seq<Rec>, links: seq<Link>, parents: Adjacency, b: nat, a: nat, n: nat)
    requires Linked(records, links, parents) && b < |records| && TracesIn(records, b, a, n)
    ensures a < |records| && ReachesIn(Up(records, parents), records[b].id, records[a].id, n)
    decreases n
  {
    hide Up, RefersUp, Linked, Lookup;
    TraceIsIndex(records, b, a, n);
    if n > 0 {
      var c: nat :| TracesIn(records, b, c, n - 1) && RefersUp(records, c, a);
      hide TracesIn, ReachesIn;
      TraceIsReach(records, links, parents, b, c, n - 1);
      ParentsAreReferences(records, links, parents, a, c);
      UpSteps(records, parents, records[c].id, records[a].id);
      ReachOn(Up(records, parents), records[b].id, records[c].id, records[a].id, n - 1);
    }
  }

  lemma {:induction false} ReachIsTrace(records: seq<Rec>, links: seq<Link>, parents: Adjacency, b: nat, a: nat, n: nat)
    requires Linked(records, links, parents) && b < |records| && a < |records|
    requires ReachesIn(Up(records, parents), records[b].id, records[a].id, n)
    ensures TracesIn(records, b, a, n)
    decreases n
  {
    hide Up, RefersUp, Linked, Lookup;
    if n == 0 {
      LinkedIds(records, links, parents, b, a);
    } else {
      var g := Up(records, parents);
      var z :| ReachesIn(g, records[b].id, z, n - 1) && g.Steps(z, records[a].id);
      hide ReachesIn;
      StepsFromRecord(records, links, parents, z, records[a].id);
      var c: nat :| c < |records| && records[c].id == z;
      ReachIsTrace(records, links, parents, b, c, n - 1);
      UpSteps(records, parents, z, records[a].id);
      ParentsAreReferences(records, links, parents, a, c);
      assert TracesIn(records, b, c, n - 1) && RefersUp(records, c, a);
    }
  }

  lemma LinkedIds(records: seq<Rec>, links: seq<Link>, parents: Adjacency, i: nat, j: nat)
    requires Linked(records, links, parents)
    requires i < |records| && j < |records| && records[i].id == records[j].id
    ensures i == j
  {
    IdsTellApart(records, i, j);
  }

  lemma StepsFromRecord(records: seq<Rec>, links: seq<Link>, parents: Adjacency, z: Id, y: Id)
    requires Linked(records, links, parents) && Up(records, parents).Steps(z, y)
    ensures exists c: nat :: c < |records| && records[c].id == z
  {
    hide Kinds, Lookup, Justified, DistinctIds;
    assert Connects(Kinds(records), links, y, z);
    KindsCover(records, z);
  }

  /** Walking up from a record lists exactly the records that chains of references lead to, each once. */
  lemma WalkIsTrace(records: seq<Rec>, links: seq<Link>, parents: Adjacency, b: nat)
    requires Linked(records, links, parents) && b < |records|
    requires Up(records, parents).Closed() && records[b].id in Kinds(records)
    ensures var r := Walked(Up(records, parents), [records[b].id], 0);
            NoDuplicates(r) && forall a :: 0 <= a < |records| ==> (records[a].id in r <==> Traces(records, b, a))
  {
    var g := Up(records, parents);
    WalkIsReachable(g, records[b].id);
    hide Walked, Linked, Up, ReachesIn, TracesIn, Kinds, NoDuplicates, Graph.Closed;
    forall a | 0 <= a < |records|
      ensures Reaches(g, records[b].id, records[a].id) <==> Traces(records, b, a)
    {
      if Reaches(g, records[b].id, records[a].id) {
        var n :| ReachesIn(g, records[b].id, records[a].id, n);
        ReachIsTrace(records, links, parents, b, a, n);
      }
      if Traces(records, b, a) {
        var n :| TracesIn(records, b, a, n);
        TraceIsReach(records, links, parents, b, a, n);
      }
    }
  }

  /** Linking, indexing the links and walking up, in one: the ancestors of a record are those its references lead to. */
  method AncestorsOf(records: seq<Rec>, b: nat) returns (values: seq<Id>)
    requires DistinctIds(records) && b < |records|
    ensures NoDuplicates(values)
    ensures forall a :: 0 <= a < |records| ==> (records[a].id in values <==> Traces(records, b, a))
    ensures forall a ::
              (0 <= a < |records| && a != b && IsLast(records, a)
               && NamesUp(records[b], records[a].kind, records[a].recordId)) ==> records[a].id in values
  {
    hide NamesUp, IsLast, Walked, Traces, Justified, IsParents, IsChildren, Kinds;
    var kinds := Kinds(records);
    KindsHold(records, b);
    var links := LinkAuditRecords(records);
    var parents, children := BuildMaps(kinds, links);
    var search := new Search(kinds, parents);
    values := search.Ancestors(records[b].id);
    WalkIsTrace(records, links, parents, b);
    forall a | 0 <= a < |records| && a != b && IsLast(records, a)
          && NamesUp(records[b], records[a].kind, records[a].recordId)
      ensures Traces(records, b, a)
    {
      NamedIsAncestor(records, b, a);
    }
  }
}
