/** Versioned library items of many tenants, with shared items that belong to none. */
module Library {
  import opened Numbers
  import opened Options

  datatype Status = DRAFT | PENDING_APPROVAL | PUBLISHED | RETIRED

  /** A row; its index is its id. `tenant` is `None` for global content. */
  datatype Item = Item(tenant: Option<nat>, code: nat, version: nat, parent: Option<nat>, status: Status) {
    predicate Open() {
      status in {DRAFT, PENDING_APPROVAL}
    }

    /** Scoped queries see the rows of the caller's tenant and the shared ones. */
    predicate Visible(tenantId: nat) {
      tenant.None? || tenant == Some(tenantId)
    }
  }

  datatype Caller = Caller(tenant: nat, globalAdmin: bool) {
    predicate MayChange(i: Item) {
      i.tenant.Some? || globalAdmin
    }
  }

  datatype Event =
    | Create(caller: Caller, code: nat, valid: bool)
    | Update(caller: Caller, id: nat, newCode: Option<nat>, valid: bool)
    | Submit(caller: Caller, id: nat)
    | Approve(caller: Caller, id: nat)
    | Retire(caller: Caller, id: nat)

  predicate Sees(items: seq<Item>, caller: Caller, id: nat) {
    id < |items| && items[id].Visible(caller.tenant)
  }

  /** The unique index on tenant, code and version, under which no two rows without a tenant clash. */
  predicate Clashes(items: seq<Item>, tenant: Option<nat>, code: nat, version: nat, except: nat) {
    tenant.Some? && exists i :: 0 <= i < |items| && i != except
                                && items[i].tenant == tenant && items[i].code == code && items[i].version == version
  }

  predicate HasOpenChild(items: seq<Item>, tenant: nat, id: nat) {
    exists i :: 0 <= i < |items| && items[i].parent == Some(id) && items[i].Open() && items[i].Visible(tenant)
  }

  /** The highest version of a code in a tenant, or 0. */
  function Latest(items: seq<Item>, tenant: nat, code: nat): nat {
    if items == [] then 0
    else
      var rest, i := Latest(items[..|items| - 1], tenant, code), items[|items| - 1];
      if i.tenant == Some(tenant) && i.code == code && i.version > rest then i.version else rest
  }

  // ---------------------------------------------------------------------------
  // Each step as a function
  // ---------------------------------------------------------------------------

  /** An edit makes a new version of what is published or global, and changes other items in place. */
  predicate MakesVersion(items: seq<Item>, e: Event) {
    && e.Update? && Sees(items, e.caller, e.id) && e.valid && items[e.id].status != RETIRED
    && (items[e.id].status == PUBLISHED || items[e.id].tenant.None?)
    && !HasOpenChild(items, e.caller.tenant, e.id)
  }

  predicate EditsInPlace(items: seq<Item>, e: Event) {
    && e.Update? && Sees(items, e.caller, e.id) && e.valid && items[e.id].Open() && items[e.id].tenant.Some?
    && (e.newCode.Some? ==> !Clashes(items, items[e.id].tenant, e.newCode.value, items[e.id].version, e.id))
  }

  function NewVersion(items: seq<Item>, tenant: nat, id: nat): Item
    requires id < |items|
  {
    var before := items[id];
    Item(Some(tenant), before.code, Max(before.version, Latest(items, tenant, before.code)) + 1, Some(id), DRAFT)
  }

  /** The update of all rows that are published under the code and tenant of another row. */
  function RetireOthers(items: seq<Item>, id: nat): (r: seq<Item>)
    requires id < |items|
    ensures |r| == |items| && r[id] == items[id]
  {
    seq(|items|, i requires 0 <= i < |items| =>
      if && i != id && items[i].status == PUBLISHED
         && items[i].code == items[id].code && items[i].tenant == items[id].tenant
      then items[i].(status := RETIRED)
      else items[i])
  }

  /** Approval takes the place of what is published under the same code and tenant. */
  function Published(items: seq<Item>, id: nat): (r: seq<Item>)
    requires id < |items|
    ensures |r| == |items|
  {
    RetireOthers(items, id)[id := items[id].(status := PUBLISHED)]
  }

  predicate Decides(items: seq<Item>, caller: Caller, id: nat) {
    Sees(items, caller, id) && caller.MayChange(items[id])
  }

  function Next(items: seq<Item>, e: Event): (r: seq<Item>)
    ensures |items| <= |r|
  {
    match e
    case Create(caller, code, valid) =>
      if valid && !Clashes(items, Some(caller.tenant), code, 1, |items|)
      then items + [Item(Some(caller.tenant), code, 1, None, DRAFT)] else items
    case Update(caller, id, code, valid) =>
      if MakesVersion(items, e) then items + [NewVersion(items, caller.tenant, id)]
      else if EditsInPlace(items, e) then
        items[id := items[id].(code := if code.Some? then code.value else items[id].code)]
      else items
    case Submit(caller, id) =>
      if Decides(items, caller, id) && items[id].status == DRAFT
      then items[id := items[id].(status := PENDING_APPROVAL)] else items
    case Approve(caller, id) =>
      if Decides(items, caller, id) && items[id].status == PENDING_APPROVAL then Published(items, id) else items
    case Retire(caller, id) =>
      if Decides(items, caller, id) && items[id].status != RETIRED then items[id := items[id].(status := RETIRED)]
      else items
  }

  function Run(items: seq<Item>, es: seq<Event>): seq<Item>
    decreases |es|
  {
    if es == [] then items else Next(Run(items, es[..|es| - 1]), es[|es| - 1])
  }

  // ---------------------------------------------------------------------------
  // The service
  // ---------------------------------------------------------------------------

  class LibraryService {
    var items: seq<Item>

    constructor (items: seq<Item>)
      ensures this.items == items
    {
      this.items := items;
    }

    method CreateItem(caller: Caller, code: nat, valid: bool) returns (id: Option<nat>)
      modifies this
      ensures items == Next(old(items), Create(caller, code, valid))
      ensures id.Some? <==>
                && valid
                && forall i :: 0 <= i < |old(items)| && old(items)[i].tenant == Some(caller.tenant) ==>
                     !(old(items)[i].code == code && old(items)[i].version == 1)
      ensures id.Some? ==> id.value == |old(items)|
      ensures items == old(items) + if id.Some? then [Item(Some(caller.tenant), code, 1, None, DRAFT)] else []
    {
      if !valid || Clashes(items, Some(caller.tenant), code, 1, |items|) {
        return None;
      }
      id := Some(|items|);
      items := items + [Item(Some(caller.tenant), code, 1, None, DRAFT)];
    }

    /** The id of the row that carries the edit. */
    method UpdateItem(caller: Caller, id: nat, code: Option<nat>, valid: bool) returns (r: Option<nat>)
      modifies this
      ensures items == Next(old(items), Update(caller, id, code, valid))
      ensures var e := Update(caller, id, code, valid);
              r == if MakesVersion(old(items), e) then Some(|old(items)|)
                   else if EditsInPlace(old(items), e) then Some(id) else None
    {
      if id >= |items| || !items[id].Visible(caller.tenant) {
        return None;
      }
      var before := items[id];
      if before.status == RETIRED || !valid {
        return None;
      }
      if before.status == PUBLISHED || before.tenant.None? {
        if HasOpenChild(items, caller.tenant, id) {
          return None;
        }
        var nextVersion := Max(before.version, Latest(items, caller.tenant, before.code)) + 1;
        r := Some(|items|);
        items := items + [Item(Some(caller.tenant), before.code, nextVersion, Some(id), DRAFT)];
        return;
      }
      if code.Some? {
        if Clashes(items, before.tenant, code.value, before.version, id) {
          return None;
        }
        items := items[id := before.(code := code.value)];
      }
      r := Some(id);
    }

    method SubmitItem(caller: Caller, id: nat) returns (ok: bool)
      modifies this
      ensures items == Next(old(items), Submit(caller, id))
      ensures ok <==>
                && id < |old(items)| && old(items)[id].status == DRAFT
                && (old(items)[id].tenant == Some(caller.tenant) || (old(items)[id].tenant.None? && caller.globalAdmin))
      ensures items == if ok then old(items)[id := old(items)[id].(status := PENDING_APPROVAL)] else old(items)
    {
      if id >= |items| || !items[id].Visible(caller.tenant) || !caller.MayChange(items[id]) {
        return false;
      }
      if items[id].status != DRAFT {
        return false;
      }
      items := items[id := items[id].(status := PENDING_APPROVAL)];
      ok := true;
    }

    method ApproveItem(caller: Caller, id: nat) returns (ok: bool)
      modifies this
      ensures items == Next(old(items), Approve(caller, id))
      ensures ok <==>
                && id < |old(items)| && old(items)[id].status == PENDING_APPROVAL
                && (old(items)[id].tenant == Some(caller.tenant) || (old(items)[id].tenant.None? && caller.globalAdmin))
      ensures !ok ==> items == old(items)
      ensures ok ==> |items| == |old(items)| && forall i :: 0 <= i < |items| ==>
                var x, y := old(items)[i], old(items)[id];
                items[i] ==
                  if i == id then x.(status := PUBLISHED)
                  else if x.status == PUBLISHED && x.code == y.code && x.tenant == y.tenant then x.(status := RETIRED)
                  else x
    {
      if id >= |items| || !items[id].Visible(caller.tenant) || !caller.MayChange(items[id]) {
        return false;
      }
      var before := items[id];
      if before.status != PENDING_APPROVAL {
        return false;
      }
      items := RetireOthers(items, id);
      items := items[id := before.(status := PUBLISHED)];
      assert items == Published(old(items), id);
      ok := true;
    }

    method RetireItem(caller: Caller, id: nat) returns (ok: bool)
      modifies this
      ensures items == Next(old(items), Retire(caller, id))
      ensures ok <==>
                && id < |old(items)| && old(items)[id].status != RETIRED
                && (old(items)[id].tenant == Some(caller.tenant) || (old(items)[id].tenant.None? && caller.globalAdmin))
      ensures items == if ok then old(items)[id := old(items)[id].(status := RETIRED)] else old(items)
    {
      if id >= |items| || !items[id].Visible(caller.tenant) || !caller.MayChange(items[id]) {
        return false;
      }
      if items[id].status == RETIRED {
        return false;
      }
      items := items[id := items[id].(status := RETIRED)];
      ok := true;
    }
  }

  // ---------------------------------------------------------------------------
  // What an edit does
  // ---------------------------------------------------------------------------

  /** An open version of an item that the tenant sees. */
  predicate IsOpenChild(x: Item, id: nat, tenant: nat) {
    x.parent == Some(id) && x.status in {DRAFT, PENDING_APPROVAL} && (x.tenant.None? || x.tenant == Some(tenant))
  }

  /** An edit makes a new version exactly of published and global items, and of those that have no open version yet. */
  lemma VersionIsMade(items: seq<Item>, caller: Caller, id: nat, code: Option<nat>, valid: bool)
    ensures MakesVersion(items, Update(caller, id, code, valid)) <==>
              && valid && id < |items|
              && (items[id].tenant.None? || items[id].tenant == Some(caller.tenant))
              && (items[id].status == PUBLISHED || (items[id].tenant.None? && items[id].status != RETIRED))
              && forall i :: 0 <= i < |items| ==> !IsOpenChild(items[i], id, caller.tenant)
  {
  }

  /** It changes drafts of the caller's tenant in place, unless the new code has the version number already. */
  lemma EditIsInPlace(items: seq<Item>, caller: Caller, id: nat, code: Option<nat>, valid: bool)
    ensures EditsInPlace(items, Update(caller, id, code, valid)) <==>
              && valid && id < |items| && items[id].tenant == Some(caller.tenant)
              && (items[id].status == DRAFT || items[id].status == PENDING_APPROVAL)
              && forall i :: 0 <= i < |items| && i != id && code.Some? ==>
                   !(items[i].tenant == Some(caller.tenant) && items[i].code == code.value
                     && items[i].version == items[id].version)
  {
  }

  lemma {:induction false} LatestIs(items: seq<Item>, tenant: nat, code: nat)
    ensures var n := Latest(items, tenant, code);
            n == 0 || exists i :: 0 <= i < |items| && items[i].tenant == Some(tenant) && items[i].code == code
                             && items[i].version == n
  {
    if items != [] {
      var rest := items[..|items| - 1];
      LatestIs(rest, tenant, code);
      assert forall i :: 0 <= i < |rest| ==> rest[i] == items[i];
    }
  }

  /** A new version is a draft of the caller's tenant, one number above its parent and the tenant's own versions. */
  lemma NewVersionIs(items: seq<Item>, tenant: nat, id: nat)
    requires id < |items|
    ensures var x := NewVersion(items, tenant, id);
            && x.tenant == Some(tenant) && x.code == items[id].code && x.parent == Some(id) && x.status == DRAFT
            && x.version > items[id].version
            && (forall i :: 0 <= i < |items| && items[i].tenant == Some(tenant) && items[i].code == items[id].code ==>
                  items[i].version < x.version)
            && (x.version == items[id].version + 1
                || exists i :: 0 <= i < |items| && items[i].tenant == Some(tenant) && items[i].code == items[id].code
                          && items[i].version + 1 == x.version)
  {
    var code := items[id].code;
    LatestIs(items, tenant, code);
    forall i | 0 <= i < |items| && items[i].tenant == Some(tenant) && items[i].code == code
      ensures items[i].version <= Latest(items, tenant, code)
    {
      LatestBounds(items, tenant, code, i);
    }
    hide Latest;
  }

  // ---------------------------------------------------------------------------
  // Tenants do not meet
  // ---------------------------------------------------------------------------

  /** The caller's tenant owns the row, or the caller looks after the global rows. */
  predicate MayTouch(caller: Caller, x: Item) {
    x.tenant == Some(caller.tenant) || (x.tenant.None? && caller.globalAdmin)
  }

  /** The only changes to a row: submitted, approved, replaced by an approval, retired, or given another code. */
  lemma RowChanges(items: seq<Item>, e: Event, i: nat)
    requires i < |items| && Next(items, e)[i] != items[i]
    ensures MayTouch(e.caller, items[i])
    ensures var x, y := items[i], Next(items, e)[i];
            || (e.Submit? && e.id == i && x.status == DRAFT && y == x.(status := PENDING_APPROVAL))
            || (e.Approve? && e.id == i && x.status == PENDING_APPROVAL && y == x.(status := PUBLISHED))
            || (e.Approve? && e.id < |items| && items[e.id].status == PENDING_APPROVAL && x.status == PUBLISHED
                && x.code == items[e.id].code && x.tenant == items[e.id].tenant && y == x.(status := RETIRED))
            || (e.Retire? && e.id == i && x.status != RETIRED && y == x.(status := RETIRED))
            || (e.Update? && e.id == i && x.status in {DRAFT, PENDING_APPROVAL} && e.newCode.Some?
                && y == x.(code := e.newCode.value))
  {
    hide Clashes, HasOpenChild, NewVersion;
  }

  lemma NewRowsAreOwn(items: seq<Item>, e: Event)
    ensures |Next(items, e)| <= |items| + 1
    ensures |Next(items, e)| > |items| ==>
              (e.Create? || e.Update?) && Next(items, e)[|items|].tenant == Some(e.caller.tenant)
  {
    hide Clashes, HasOpenChild, Latest;
  }

  /**
   * Over any run, a row changes only through a caller of its own tenant, and a global row only through an administrator
   * of the global content.
   */
  lemma {:induction false} RunIsolates(items: seq<Item>, es: seq<Event>, i: nat) returns (k: nat)
    requires i < |items| && i < |Run(items, es)| && Run(items, es)[i] != items[i]
    ensures k < |es|
    ensures items[i].tenant == Some(es[k].caller.tenant) || (items[i].tenant.None? && es[k].caller.globalAdmin)
    decreases |es|
  {
    hide Next;
    var n := |es| - 1;
    RunGrows(items, es[..n]);
    if Run(items, es[..n])[i] == items[i] {
      k := n;
      RowChanges(Run(items, es[..n]), es[n], i);
    } else {
      k := RunIsolates(items, es[..n], i);
    }
  }

  // ---------------------------------------------------------------------------
  // What holds in every store
  // ---------------------------------------------------------------------------

  ghost predicate OnePublished(items: seq<Item>) {
    forall i, j :: 0 <= i < j < |items| && items[i].status == PUBLISHED && items[j].status == PUBLISHED ==>
      items[i].tenant != items[j].tenant || items[i].code != items[j].code
  }

  /** A version comes later than its parent and has a higher number; the parent is of the same tenant or global. */
  ghost predicate VersionsRise(items: seq<Item>) {
    forall i :: 0 <= i < |items| && items[i].parent.Some? ==>
      var p := items[i].parent.value;
      && p < i && items[p].version < items[i].version && items[i].tenant.Some?
      && (items[p].tenant.None? || items[p].tenant == items[i].tenant)
  }

  ghost predicate UniqueVersions(items: seq<Item>) {
    forall i, j :: && 0 <= i < j < |items| && items[i].tenant.Some?
                   && items[i].tenant == items[j].tenant && items[i].code == items[j].code ==>
      items[i].version != items[j].version
  }

  /** A tenant works on at most one next version of an item. */
  ghost predicate OneOpenChild(items: seq<Item>) {
    forall i, j :: && 0 <= i < j < |items| && items[i].Open() && items[j].Open()
                   && items[i].parent.Some? && items[i].parent == items[j].parent ==>
      items[i].tenant != items[j].tenant
  }

  ghost predicate Sound(items: seq<Item>) {
    OnePublished(items) && VersionsRise(items) && UniqueVersions(items) && OneOpenChild(items)
  }

  lemma {:induction false} LatestBounds(items: seq<Item>, tenant: nat, code: nat, i: nat)
    requires i < |items| && items[i].tenant == Some(tenant) && items[i].code == code
    ensures items[i].version <= Latest(items, tenant, code)
  {
    if i < |items| - 1 {
      LatestBounds(items[..|items| - 1], tenant, code, i);
    }
  }

  lemma VersionIsSound(items: seq<Item>, tenant: nat, id: nat)
    requires Sound(items) && id < |items| && items[id].Visible(tenant) && !HasOpenChild(items, tenant, id)
    ensures Sound(items + [NewVersion(items, tenant, id)])
  {
    var n := NewVersion(items, tenant, id);
    forall i | 0 <= i < |items| && items[i].tenant == n.tenant && items[i].code == n.code
      ensures items[i].version != n.version
    {
      LatestBounds(items, tenant, n.code, i);
    }
    forall i | 0 <= i < |items| && items[i].Open() && items[i].parent == Some(id)
      ensures items[i].tenant != n.tenant
    {
    }
    hide Latest;
  }

  lemma ShapeIsSound(items: seq<Item>, r: seq<Item>)
    requires VersionsRise(items) && UniqueVersions(items) && OneOpenChild(items) && |r| == |items|
    requires forall i :: 0 <= i < |items| ==>
               r[i].tenant == items[i].tenant && r[i].code == items[i].code && r[i].version == items[i].version
               && r[i].parent == items[i].parent && (r[i].Open() ==> items[i].Open())
    ensures VersionsRise(r) && UniqueVersions(r) && OneOpenChild(r)
  {
  }

  lemma PublishedIsSound(items: seq<Item>, id: nat)
    requires Sound(items) && id < |items| && items[id].Open()
    ensures Sound(Published(items, id))
  {
    var r := Published(items, id);
    assert OnePublished(r) by {
      hide VersionsRise, UniqueVersions, OneOpenChild;
    }
    hide OnePublished;
    ShapeIsSound(items, r);
  }

  lemma CreateIsSound(items: seq<Item>, tenant: nat, code: nat)
    requires Sound(items) && !Clashes(items, Some(tenant), code, 1, |items|)
    ensures Sound(items + [Item(Some(tenant), code, 1, None, DRAFT)])
  {
  }

  /** A new status that neither publishes nor reopens keeps the store sound. */
  lemma StatusIsSound(items: seq<Item>, id: nat, status: Status)
    requires Sound(items) && id < |items| && status != PUBLISHED
    requires status in {DRAFT, PENDING_APPROVAL} ==> items[id].Open()
    ensures Sound(items[id := items[id].(status := status)])
  {
  }

  lemma CodeIsSound(items: seq<Item>, id: nat, code: nat)
    requires Sound(items) && id < |items| && items[id].Open()
    requires !Clashes(items, items[id].tenant, code, items[id].version, id)
    ensures Sound(items[id := items[id].(code := code)])
  {
  }

  lemma NextIsSound(items: seq<Item>, e: Event)
    requires Sound(items)
    ensures Sound(Next(items, e))
  {
    hide Sound, Clashes, HasOpenChild, NewVersion, Published;
    match e
    case Create(caller, code, valid) =>
      if valid && !Clashes(items, Some(caller.tenant), code, 1, |items|) {
        CreateIsSound(items, caller.tenant, code);
      }
    case Update(caller, id, code, valid) =>
      if MakesVersion(items, e) {
        VersionIsSound(items, caller.tenant, id);
      } else if EditsInPlace(items, e) {
        if code.Some? {
          CodeIsSound(items, id, code.value);
        } else {
          assert items[id := items[id].(code := items[id].code)] == items;
        }
      }
    case Submit(caller, id) =>
      if Decides(items, caller, id) && items[id].status == DRAFT {
        StatusIsSound(items, id, PENDING_APPROVAL);
      }
    case Approve(caller, id) =>
      if Decides(items, caller, id) && items[id].status == PENDING_APPROVAL {
        PublishedIsSound(items, id);
      }
    case Retire(caller, id) =>
      if Decides(items, caller, id) && items[id].status != RETIRED {
        StatusIsSound(items, id, RETIRED);
      }
  }

  /**
   * Whatever callers of whatever tenants do: at most one item is published per tenant and code, versions rise from
   * parent to child, version numbers of a code are unique in a tenant, and no tenant has two open versions of one item.
   */
  lemma {:induction false} RunIsSound(items: seq<Item>, es: seq<Event>)
    requires Sound(items)
    ensures Sound(Run(items, es))
    decreases |es|
  {
    hide Sound, Next;
    if es != [] {
      RunIsSound(items, es[..|es| - 1]);
      NextIsSound(Run(items, es[..|es| - 1]), es[|es| - 1]);
    }
  }

  /** Item `a` is a version of a version of ... item `p`. */
  ghost predicate Descends(items: seq<Item>, a: nat, p: nat, steps: nat)
    decreases steps
  {
    if steps == 0 then a == p && a < |items|
    else a < |items| && items[a].parent.Some? && Descends(items, items[a].parent.value, p, steps - 1)
  }

  /** Version chains have no cycles: every ancestor has a lower number. */
  lemma {:induction false} ChainsAreAcyclic(items: seq<Item>, a: nat, p: nat, steps: nat)
    requires VersionsRise(items) && steps > 0 && Descends(items, a, p, steps)
    ensures p < a && p < |items| && items[p].version < items[a].version
    decreases steps
  {
    if steps > 1 {
      ChainsAreAcyclic(items, items[a].parent.value, p, steps - 1);
    }
  }

  // ---------------------------------------------------------------------------
  // What never changes
  // ---------------------------------------------------------------------------

  /** Rows stay, with their tenant, number and parent; published codes are fixed, and retired items for good. */
  ghost predicate Grows(items: seq<Item>, later: seq<Item>) {
    && |items| <= |later|
    && forall i :: 0 <= i < |items| ==>
         && later[i].tenant == items[i].tenant && later[i].version == items[i].version
         && later[i].parent == items[i].parent
         && (items[i].status == RETIRED ==> later[i] == items[i])
         && (items[i].status == PUBLISHED ==> later[i].code == items[i].code && later[i].status in {PUBLISHED, RETIRED})
         && (items[i].tenant.None? ==> later[i].code == items[i].code)
  }

  lemma NextGrows(items: seq<Item>, e: Event)
    ensures Grows(items, Next(items, e))
  {
    hide Clashes, HasOpenChild, NewVersion;
  }

  lemma {:induction false} RunGrows(items: seq<Item>, es: seq<Event>)
    ensures Grows(items, Run(items, es))
    decreases |es|
  {
    if es != [] {
      RunGrows(items, es[..|es| - 1]);
      hide Next;
      NextGrows(Run(items, es[..|es| - 1]), es[|es| - 1]);
    }
  }

  // ---------------------------------------------------------------------------
  // Open versions of shared items
  // ---------------------------------------------------------------------------

  /** Two open versions of one item are of different tenants, and the item is global. */
  lemma OpenChildrenOfGlobal(items: seq<Item>, es: seq<Event>, i: nat, j: nat)
    requires Sound(items) && i < j < |Run(items, es)|
    requires var t := Run(items, es); t[i].Open() && t[j].Open() && t[i].parent.Some? && t[i].parent == t[j].parent
    ensures var t := Run(items, es);
            && t[i].parent.value < |t| && t[t[i].parent.value].tenant.None?
            && t[i].tenant != t[j].tenant
  {
    RunIsSound(items, es);
    hide Run;
  }

  /**
   * While an item has an open version, another is made exactly when the item is global, can be edited, and none of its
   * open versions belongs to the tenant that edits it: the check for a newer draft sees the caller's tenant only.
   */
  lemma SecondOpenChild(items: seq<Item>, e: Event, i: nat)
    requires Sound(items) && e.Update? && e.id < |items| && e.valid && items[e.id].status != RETIRED
    requires i < |items| && items[i].parent == Some(e.id) && items[i].Open()
    ensures MakesVersion(items, e) <==>
              && items[e.id].tenant.None?
              && forall k :: 0 <= k < |items| && items[k].parent == Some(e.id) && items[k].Open() ==>
                   items[k].tenant != Some(e.caller.tenant)
  {
    hide OnePublished, UniqueVersions, OneOpenChild;
    if items[e.id].tenant == Some(e.caller.tenant) {
      assert items[i].Visible(e.caller.tenant);
    }
  }

  /** Two tenants that each edit the same global item leave it with two open versions. */
  lemma TwoOpenChildren()
    ensures var start := [Item(None, 7, 1, None, PUBLISHED)];
            var t := Run(start, [Update(Caller(1, false), 0, None, true), Update(Caller(2, false), 0, None, true)]);
            Sound(start) && |t| == 3 && t[1].Open() && t[2].Open() && t[1].parent == t[2].parent == Some(0)
  {
    var start := [Item(None, 7, 1, None, PUBLISHED)];
    var a, b := Update(Caller(1, false), 0, None, true), Update(Caller(2, false), 0, None, true);
    assert [a, b][..1] == [a] && [a][..0] == [];
    assert Run(start, [a]) == Next(start, a);
    assert MakesVersion(start, a);
    var s := Next(start, a);
    assert s[1].tenant == Some(1);
    assert MakesVersion(s, b);
    hide Next;
    assert Run(start, [a, b]) == Next(s, b);
  }
}
