/** Tracing audit records along their links: breadth-first walks, the memo of ancestors, pages and their sources. */
module SearchGraph {
  import opened Numbers
  import opened AuditRecords

  /** The number in a source id. */
  type Id = nat

  datatype Link = Link(from: Id, to: Id, relationship: string)

  type Adjacency = map<Id, seq<Id>>

  function Lookup(m: Adjacency, id: Id): seq<Id> {
    if id in m then m[id] else []
  }

  // ---------------------------------------------------------------------------
  // Parents and children
  // ---------------------------------------------------------------------------

  /** Links to records outside the index, and links to a repeated finding, are not followed. */
  predicate Usable(kinds: map<Id, Kind>, l: Link) {
    l.from in kinds && l.to in kinds && l.relationship != "repeatOf"
  }

  /** Evidence leads back to the finding that it supports. */
  predicate LeadsBack(kinds: map<Id, Kind>, l: Link) {
    Usable(kinds, l) && l.relationship == "supported by" && kinds[l.from] == Finding && kinds[l.to] == Evidence
  }

  ghost predicate Connects(kinds: map<Id, Kind>, links: seq<Link>, a: Id, b: Id) {
    exists l :: l in links && Usable(kinds, l) && l.from == a && l.to == b
  }

  ghost predicate ConnectsBack(kinds: map<Id, Kind>, links: seq<Link>, a: Id, b: Id) {
    exists l :: l in links && LeadsBack(kinds, l) && l.to == a && l.from == b
  }

  ghost predicate IsParents(kinds: map<Id, Kind>, links: seq<Link>, m: Adjacency) {
    forall a, b :: a in Lookup(m, b) <==> Connects(kinds, links, a, b)
  }

  ghost predicate IsChildren(kinds: map<Id, Kind>, links: seq<Link>, m: Adjacency) {
    forall a, b :: b in Lookup(m, a) <==> Connects(kinds, links, a, b) || ConnectsBack(kinds, links, a, b)
  }

  function Append(m: Adjacency, key: Id, value: Id): (r: Adjacency)
    ensures forall x, y :: y in Lookup(r, x) <==> y in Lookup(m, x) || (x == key && y == value)
  {
    m[key := Lookup(m, key) + [value]]
  }

  lemma ConnectsSnoc(kinds: map<Id, Kind>, links: seq<Link>, l: Link, a: Id, b: Id)
    ensures Connects(kinds, links + [l], a, b) <==>
              Connects(kinds, links, a, b) || (Usable(kinds, l) && l.from == a && l.to == b)
    ensures ConnectsBack(kinds, links + [l], a, b) <==>
              ConnectsBack(kinds, links, a, b) || (LeadsBack(kinds, l) && l.to == a && l.from == b)
  {
    assert l in links + [l];
    assert forall k :: k in links ==> k in links + [l];
  }

  lemma ParentsSnoc(kinds: map<Id, Kind>, links: seq<Link>, l: Link, m: Adjacency)
    requires IsParents(kinds, links, m)
    ensures IsParents(kinds, links + [l], if Usable(kinds, l) then Append(m, l.to, l.from) else m)
  {
    hide Connects, Lookup, Append;
    forall a, b
      ensures Connects(kinds, links + [l], a, b) <==>
                Connects(kinds, links, a, b) || (Usable(kinds, l) && l.from == a && l.to == b)
    {
      ConnectsSnoc(kinds, links, l, a, b);
    }
  }

  lemma ChildrenSnoc(kinds: map<Id, Kind>, links: seq<Link>, l: Link, m: Adjacency)
    requires IsChildren(kinds, links, m)
    ensures IsChildren(kinds, links + [l],
                       if !Usable(kinds, l) then m
                       else if LeadsBack(kinds, l) then Append(Append(m, l.from, l.to), l.to, l.from)
                       else Append(m, l.from, l.to))
  {
    hide Connects, ConnectsBack, Lookup, Append;
    forall a, b
      ensures Connects(kinds, links + [l], a, b) <==>
                Connects(kinds, links, a, b) || (Usable(kinds, l) && l.from == a && l.to == b)
      ensures ConnectsBack(kinds, links + [l], a, b) <==>
                ConnectsBack(kinds, links, a, b) || (LeadsBack(kinds, l) && l.to == a && l.from == b)
    {
      ConnectsSnoc(kinds, links, l, a, b);
    }
  }

  /** What holds only links between known records leads to known records only. */
  lemma MapsAreClosed(kinds: map<Id, Kind>, links: seq<Link>, parents: Adjacency, children: Adjacency)
    requires IsParents(kinds, links, parents) && IsChildren(kinds, links, children)
    ensures ClosedOver(kinds, parents) && ClosedOver(kinds, children)
  {
    hide Lookup;
  }

  ghost predicate ClosedOver(kinds: map<Id, Kind>, m: Adjacency) {
    forall x, y :: y in Lookup(m, x) ==> y in kinds
  }

  method BuildMaps(kinds: map<Id, Kind>, links: seq<Link>) returns (parents: Adjacency, children: Adjacency)
    ensures IsParents(kinds, links, parents) && IsChildren(kinds, links, children)
    ensures ClosedOver(kinds, parents) && ClosedOver(kinds, children)
  {
    hide IsParents, IsChildren, Lookup, Append;
    parents, children := map[], map[];
    NothingConnects(kinds);
    for i := 0 to |links|
      invariant IsParents(kinds, links[..i], parents) && IsChildren(kinds, links[..i], children)
    {
      var link := links[i];
      assert links[..i + 1] == links[..i] + [link];
      ParentsSnoc(kinds, links[..i], link, parents);
      ChildrenSnoc(kinds, links[..i], link, children);
      if link.from !in kinds || link.to !in kinds || link.relationship == "repeatOf" {
        continue;
      }
      parents := Append(parents, link.to, link.from);
      children := Append(children, link.from, link.to);
      if link.relationship == "supported by" && kinds[link.from] == Finding && kinds[link.to] == Evidence {
        children := Append(children, link.to, link.from);
      }
    }
    assert links[..|links|] == links;
    MapsAreClosed(kinds, links, parents, children);
  }

  /** A link from `a` to `b` that is not to a repeated finding. */
  predicate LinksUp(l: Link, a: Id, b: Id) {
    l.from == a && l.to == b && l.relationship != "repeatOf"
  }

  /** The two maps lead along the links and back, and from evidence on to the findings that it supports. */
  lemma MapsMean(kinds: map<Id, Kind>, links: seq<Link>, parents: Adjacency, children: Adjacency)
    requires IsParents(kinds, links, parents) && IsChildren(kinds, links, children)
    ensures forall a, b :: a in Lookup(parents, b) <==>
              a in kinds && b in kinds && exists l :: l in links && LinksUp(l, a, b)
    ensures forall a, b :: b in Lookup(children, a) <==>
              || a in Lookup(parents, b)
              || (a in kinds && b in kinds && kinds[a] == Evidence && kinds[b] == Finding
                  && Link(b, a, "supported by") in links)
  {
    hide Lookup;
    forall a, b
      ensures Connects(kinds, links, a, b) <==>
                a in kinds && b in kinds && exists l :: l in links && LinksUp(l, a, b)
      ensures ConnectsBack(kinds, links, a, b) <==>
                && a in kinds && b in kinds && kinds[a] == Evidence && kinds[b] == Finding
                && Link(b, a, "supported by") in links
    {
      ConnectsMeans(kinds, links, a, b);
    }
    hide Connects, ConnectsBack, LinksUp;
  }

  lemma ConnectsMeans(kinds: map<Id, Kind>, links: seq<Link>, a: Id, b: Id)
    ensures Connects(kinds, links, a, b) <==> a in kinds && b in kinds && exists l :: l in links && LinksUp(l, a, b)
    ensures ConnectsBack(kinds, links, a, b) <==>
              && a in kinds && b in kinds && kinds[a] == Evidence && kinds[b] == Finding
              && Link(b, a, "supported by") in links
  {
    if l :| l in links && LinksUp(l, a, b) && a in kinds && b in kinds {
      assert Usable(kinds, l);
    }
    if && a in kinds && b in kinds && kinds[a] == Evidence && kinds[b] == Finding
       && Link(b, a, "supported by") in links {
      assert LeadsBack(kinds, Link(b, a, "supported by"));
    }
  }

  lemma NothingConnects(kinds: map<Id, Kind>)
    ensures IsParents(kinds, [], map[]) && IsChildren(kinds, [], map[])
  {
  }

  // ---------------------------------------------------------------------------
  // Reachability
  // ---------------------------------------------------------------------------

  /** A direction to walk in. A walk down does not enter organisation-wide records. */
  datatype Graph = Graph(kinds: map<Id, Kind>, direction: Adjacency, down: bool) {
    predicate Enters(y: Id) {
      !(down && y in kinds && kinds[y] in {Entity, Process, Engagement})
    }

    predicate Steps(x: Id, y: Id) {
      y in Lookup(direction, x) && Enters(y)
    }

    ghost predicate Closed() {
      ClosedOver(kinds, direction)
    }
  }

  ghost predicate ReachesIn(g: Graph, x: Id, y: Id, n: nat)
    decreases n
  {
    if n == 0 then x == y else exists z :: ReachesIn(g, x, z, n - 1) && g.Steps(z, y)
  }

  ghost predicate Reaches(g: Graph, x: Id, y: Id) {
    exists n :: ReachesIn(g, x, y, n)
  }

  predicate NoDuplicates<T(==)>(s: seq<T>) {
    forall i, j :: 0 <= i < j < |s| ==> s[i] != s[j]
  }

  lemma {:induction false} NoDuplicatesBound<T>(s: seq<T>, all: set<T>)
    requires NoDuplicates(s) && forall x :: x in s ==> x in all
    ensures |s| <= |all|
  {
    if s != [] {
      var n := |s| - 1;
      NoDuplicatesBound(s[..n], all - {s[n]});
    }
  }

  // ---------------------------------------------------------------------------
  // The walk
  // ---------------------------------------------------------------------------

  ghost predicate IsQueue(g: Graph, queue: seq<Id>) {
    NoDuplicates(queue) && forall x :: x in queue ==> x in g.kinds
  }

  /** The queue after looking at some neighbours, in order. */
  ghost function Expand(g: Graph, queue: seq<Id>, neighbours: seq<Id>): (r: seq<Id>)
    requires IsQueue(g, queue) && forall y :: y in neighbours ==> y in g.kinds
    ensures IsQueue(g, r) && queue <= r
    ensures forall j :: |queue| <= j < |r| ==> r[j] in neighbours && g.Enters(r[j])
    ensures forall y :: y in neighbours && g.Enters(y) ==> y in r
  {
    if neighbours == [] then queue
    else
      var n := |neighbours| - 1;
      var before := Expand(g, queue, neighbours[..n]);
      if neighbours[n] in before || !g.Enters(neighbours[n]) then before else before + [neighbours[n]]
  }

  ghost function Walked(g: Graph, queue: seq<Id>, i: nat): seq<Id>
    requires g.Closed() && IsQueue(g, queue) && i <= |queue|
    decreases |g.kinds| - i
  {
    NoDuplicatesBound(queue, g.kinds.Keys);
    if i == |queue| then queue else Walked(g, Expand(g, queue, Lookup(g.direction, queue[i])), i + 1)
  }

  method Walk(g: Graph, root: Id) returns (values: seq<Id>)
    requires g.Closed() && root in g.kinds
    ensures values == Walked(g, [root], 0)
  {
    hide Expand, Lookup, Walked, NoDuplicates;
    var found := {root};
    var queue := [root];
    var i := 0;
    QueueOfOne(g, root);
    while i < |queue|
      invariant IsQueue(g, queue) && i <= |queue| <= |g.kinds|
      invariant found == set x | x in queue
      invariant Walked(g, queue, i) == Walked(g, [root], 0)
      decreases |g.kinds| - i
    {
      ghost var before := queue;
      var neighbours := Lookup(g.direction, queue[i]);
      WalkedStep(g, queue, i);
      for j := 0 to |neighbours|
        invariant IsQueue(g, before) && before <= queue
        invariant queue == Expand(g, before, neighbours[..j])
        invariant found == set x | x in queue
      {
        var next := neighbours[j];
        ExpandSnoc(g, before, neighbours, j);
        if next in found || (g.down && g.kinds[next] in {Entity, Process, Engagement}) {
          continue;
        }
        found := found + {next};
        queue := queue + [next];
      }
      assert neighbours[..|neighbours|] == neighbours;
      NoDuplicatesBound(queue, g.kinds.Keys);
      i := i + 1;
    }
    WalkedEnd(g, queue);
    values := queue;
  }

  lemma QueueOfOne(g: Graph, root: Id)
    requires root in g.kinds
    ensures IsQueue(g, [root]) && 1 <= |g.kinds|
  {
    NoDuplicatesBound([root], g.kinds.Keys);
  }

  lemma WalkedStep(g: Graph, queue: seq<Id>, i: nat)
    requires g.Closed() && IsQueue(g, queue) && i < |queue|
    ensures var neighbours := Lookup(g.direction, queue[i]);
            && Expand(g, queue, neighbours[..0]) == queue
            && Walked(g, queue, i) == Walked(g, Expand(g, queue, neighbours), i + 1)
  {
    NoDuplicatesBound(queue, g.kinds.Keys);
    hide Lookup;
  }

  lemma WalkedEnd(g: Graph, queue: seq<Id>)
    requires g.Closed() && IsQueue(g, queue)
    ensures Walked(g, queue, |queue|) == queue
  {
  }

  lemma ExpandSnoc(g: Graph, queue: seq<Id>, neighbours: seq<Id>, j: nat)
    requires IsQueue(g, queue) && j < |neighbours| && forall y :: y in neighbours ==> y in g.kinds
    ensures var before := Expand(g, queue, neighbours[..j]);
            Expand(g, queue, neighbours[..j + 1]) ==
              if neighbours[j] in before || !g.Enters(neighbours[j]) then before else before + [neighbours[j]]
  {
    assert neighbours[..j + 1][..j] == neighbours[..j];
  }

  // ---------------------------------------------------------------------------
  // What the walk returns
  // ---------------------------------------------------------------------------

  /** Everything before position `i` has been expanded; `depths` holds the distance of each entry from the root. */
  ghost predicate Explored(g: Graph, root: Id, queue: seq<Id>, depths: seq<nat>, i: nat) {
    && IsQueue(g, queue) && |depths| == |queue| && i <= |queue| && queue != [] && queue[0] == root && depths[0] == 0
    && Layered(depths, i) && AllReached(g, root, queue, depths) && Expanded(g, queue, depths, i)
  }

  /** The queue holds at most two layers from position `i` on. */
  ghost predicate Layered(depths: seq<nat>, i: nat) {
    && (forall j, k :: 0 <= j <= k < |depths| ==> depths[j] <= depths[k])
    && (forall j, k :: 0 <= j < |depths| && i <= k < |depths| ==> depths[j] <= depths[k] + 1)
  }

  ghost predicate AllReached(g: Graph, root: Id, queue: seq<Id>, depths: seq<nat>)
    requires |depths| == |queue|
  {
    forall j :: 0 <= j < |queue| ==> ReachesIn(g, root, queue[j], depths[j])
  }

  ghost predicate Expanded(g: Graph, queue: seq<Id>, depths: seq<nat>, i: nat)
    requires |depths| == |queue| && i <= |queue|
  {
    forall j, y :: 0 <= j < i && g.Steps(queue[j], y) ==> FoundWithin(queue, depths, y, depths[j] + 1)
  }

  ghost predicate FoundWithin(queue: seq<Id>, depths: seq<nat>, y: Id, d: nat)
    requires |depths| == |queue|
  {
    exists k :: 0 <= k < |queue| && queue[k] == y && depths[k] <= d
  }

  /** New entries lie one step beyond the entry that is being expanded. */
  lemma DepthsGrow(depths: seq<nat>, i: nat, m: nat)
    requires i < |depths| && Layered(depths, i)
    ensures var ds := depths + seq(m, _ => depths[i] + 1);
            Layered(ds, i + 1) && forall j :: 0 <= j < |ds| ==> ds[j] <= depths[i] + 1
  {
  }

  lemma FoundStaysFound(queue: seq<Id>, depths: seq<nat>, r: seq<Id>, ds: seq<nat>, y: Id, d: nat)
    requires |depths| == |queue| && |ds| == |r| && queue <= r && depths <= ds
    requires FoundWithin(queue, depths, y, d)
    ensures FoundWithin(r, ds, y, d)
  {
    var k :| 0 <= k < |queue| && queue[k] == y && depths[k] <= d;
    assert r[k] == y && ds[k] == depths[k];
  }

  lemma NewEntriesReached(g: Graph, root: Id, queue: seq<Id>, depths: seq<nat>, i: nat, r: seq<Id>)
    requires |depths| == |queue| && AllReached(g, root, queue, depths) && i < |queue| && queue <= r
    requires forall j :: |queue| <= j < |r| ==> g.Steps(queue[i], r[j])
    ensures AllReached(g, root, r, depths + seq(|r| - |queue|, _ => depths[i] + 1))
  {
    hide ReachesIn;
    forall j | |queue| <= j < |r|
      ensures ReachesIn(g, root, r[j], depths[i] + 1)
    {
      ReachOn(g, root, queue[i], r[j], depths[i]);
    }
  }

  lemma NewEntriesExpand(g: Graph, queue: seq<Id>, depths: seq<nat>, i: nat, r: seq<Id>, ds: seq<nat>)
    requires |depths| == |queue| && i < |queue| && |ds| == |r| && queue <= r && depths <= ds
    requires Expanded(g, queue, depths, i)
    requires forall y :: g.Steps(queue[i], y) ==> y in r
    requires forall j :: 0 <= j < |ds| ==> ds[j] <= depths[i] + 1
    ensures Expanded(g, r, ds, i + 1)
  {
    hide FoundWithin;
    forall j, y | 0 <= j < i + 1 && g.Steps(r[j], y)
      ensures FoundWithin(r, ds, y, ds[j] + 1)
    {
      if j < i {
        FoundStaysFound(queue, depths, r, ds, y, depths[j] + 1);
      } else {
        FoundIn(r, ds, y, depths[i] + 1);
      }
    }
  }

  lemma ExpandExplores(g: Graph, root: Id, queue: seq<Id>, depths: seq<nat>, i: nat, r: seq<Id>, ds: seq<nat>)
    requires g.Closed() && Explored(g, root, queue, depths, i) && i < |queue|
    requires r == Expand(g, queue, Lookup(g.direction, queue[i]))
    requires ds == depths + seq(|r| - |queue|, _ => depths[i] + 1)
    ensures Explored(g, root, r, ds, i + 1)
  {
    hide Expand, Lookup, IsQueue, Layered, AllReached, Expanded;
    DepthsGrow(depths, i, |r| - |queue|);
    NewEntriesReached(g, root, queue, depths, i, r);
    NewEntriesExpand(g, queue, depths, i, r, ds);
  }

  lemma FoundIn(queue: seq<Id>, depths: seq<nat>, y: Id, d: nat)
    requires |depths| == |queue| && y in queue && forall j :: 0 <= j < |depths| ==> depths[j] <= d
    ensures FoundWithin(queue, depths, y, d)
  {
    var k :| 0 <= k < |queue| && queue[k] == y;
    assert depths[k] <= d;
  }

  lemma ReachOn(g: Graph, x: Id, z: Id, y: Id, n: nat)
    requires ReachesIn(g, x, z, n) && g.Steps(z, y)
    ensures ReachesIn(g, x, y, n + 1)
  {
  }

  lemma {:induction false} WalkExplores(g: Graph, root: Id, queue: seq<Id>, depths: seq<nat>, i: nat)
    returns (ds: seq<nat>)
    requires g.Closed() && Explored(g, root, queue, depths, i)
    ensures var r := Walked(g, queue, i); Explored(g, root, r, ds, |r|)
    decreases |g.kinds| - i
  {
    NoDuplicatesBound(queue, g.kinds.Keys);
    if i == |queue| {
      ds := depths;
    } else {
      var r := Expand(g, queue, Lookup(g.direction, queue[i]));
      ds := depths + seq(|r| - |queue|, _ => depths[i] + 1);
      ExpandExplores(g, root, queue, depths, i, r, ds);
      hide Explored, Expand;
      ds := WalkExplores(g, root, r, ds, i + 1);
    }
  }

  /** What has been explored completely contains everything within reach, none of it deeper than it need be. */
  lemma {:induction false} ExploredIsComplete(g: Graph, root: Id, queue: seq<Id>, depths: seq<nat>, y: Id, n: nat)
    requires Explored(g, root, queue, depths, |queue|) && ReachesIn(g, root, y, n)
    ensures FoundWithin(queue, depths, y, n)
    decreases n
  {
    if n == 0 {
      assert queue[0] == y && depths[0] <= n;
    } else {
      var z :| ReachesIn(g, root, z, n - 1) && g.Steps(z, y);
      ExploredIsComplete(g, root, queue, depths, z, n - 1);
      var k :| 0 <= k < |queue| && queue[k] == z && depths[k] <= n - 1;
      assert FoundWithin(queue, depths, y, depths[k] + 1);
    }
  }

  ghost predicate AsNear(g: Graph, root: Id, x: Id, n: nat) {
    exists m: nat :: m <= n && ReachesIn(g, root, x, m)
  }

  /** A walk lists the root and what can be reached from it, each record once and the nearest first. */
  lemma WalkIsReachable(g: Graph, root: Id)
    requires g.Closed() && root in g.kinds
    ensures var r := Walked(g, [root], 0);
            && NoDuplicates(r) && r != [] && r[0] == root
            && (forall y :: y in r <==> Reaches(g, root, y))
            && (forall i, j, n :: 0 <= i < j < |r| && ReachesIn(g, root, r[j], n) ==> AsNear(g, root, r[i], n))
  {
    hide Walked;
    var ds := WalkExplores(g, root, [root], [0], 0);
    var r := Walked(g, [root], 0);
    forall y | Reaches(g, root, y)
      ensures y in r
    {
      var n :| ReachesIn(g, root, y, n);
      ExploredIsComplete(g, root, r, ds, y, n);
    }
    hide ReachesIn;
    forall i, j, n | 0 <= i < j < |r| && ReachesIn(g, root, r[j], n)
      ensures AsNear(g, root, r[i], n)
    {
      ExploredIsComplete(g, root, r, ds, r[j], n);
      assert ds[i] <= ds[j] && ReachesIn(g, root, r[i], ds[i]);
    }
  }

  /**
   * Of the neighbours of a listed record, a walk up lists all, and a walk down those that are not organisation-wide.
   * The record where the walk starts is listed whatever its kind.
   */
  lemma WalkEnters(g: Graph, root: Id, x: Id, y: Id)
    requires g.Closed() && root in g.kinds
    requires x in Walked(g, [root], 0) && y in Lookup(g.direction, x)
    ensures y in g.kinds
    ensures y in Walked(g, [root], 0) <==>
              || y == root || !g.down
              || (g.kinds[y] != Entity && g.kinds[y] != Process && g.kinds[y] != Engagement)
  {
    WalkIsReachable(g, root);
    hide Walked, Lookup, NoDuplicates, AsNear;
    var n :| ReachesIn(g, root, x, n);
    if g.Steps(x, y) {
      ReachOn(g, root, x, y, n);
    }
    LastStep(g, root, y);
    hide ReachesIn;
  }

  lemma LastStep(g: Graph, root: Id, y: Id)
    ensures Reaches(g, root, root) && (Reaches(g, root, y) ==> y == root || g.Enters(y))
  {
    assert ReachesIn(g, root, root, 0);
    if Reaches(g, root, y) {
      var n: nat :| ReachesIn(g, root, y, n);
      if n > 0 {
        var z :| ReachesIn(g, root, z, n - 1) && g.Steps(z, y);
      }
    }
  }

  // ---------------------------------------------------------------------------
  // Up and down
  // ---------------------------------------------------------------------------

  /** Children without the way back from evidence to its findings. */
  ghost predicate IsPlainChildren(kinds: map<Id, Kind>, links: seq<Link>, m: Adjacency) {
    forall a, b :: b in Lookup(m, a) <==> Connects(kinds, links, a, b)
  }

  lemma {:induction false} StepFirst(g: Graph, x: Id, z: Id, y: Id, n: nat)
    requires g.Steps(x, z) && ReachesIn(g, z, y, n)
    ensures ReachesIn(g, x, y, n + 1)
    decreases n
  {
    if n == 0 {
      ReachOn(g, x, x, y, 0);
    } else {
      var w :| ReachesIn(g, z, w, n - 1) && g.Steps(w, y);
      StepFirst(g, x, z, w, n - 1);
    }
  }

  /** A walk that may take each step of another in the opposite direction goes the whole way back. */
  lemma {:induction false} ReverseReach(g: Graph, h: Graph, x: Id, y: Id, n: nat)
    requires forall a, b :: g.Steps(a, b) ==> h.Steps(b, a)
    requires ReachesIn(g, x, y, n)
    ensures ReachesIn(h, y, x, n)
    decreases n
  {
    if n > 0 {
      var z :| ReachesIn(g, x, z, n - 1) && g.Steps(z, y);
      ReverseReach(g, h, x, z, n - 1);
      StepFirst(h, y, z, x, n - 1);
    }
  }

  /** The ancestors of a record are the records it descends from. */
  lemma UpAndDown(kinds: map<Id, Kind>, links: seq<Link>, parents: Adjacency, plain: Adjacency, x: Id, y: Id)
    requires IsParents(kinds, links, parents) && IsPlainChildren(kinds, links, plain)
    ensures Reaches(Graph(kinds, parents, false), x, y) <==> Reaches(Graph(kinds, plain, false), y, x)
  {
    var up, down := Graph(kinds, parents, false), Graph(kinds, plain, false);
    hide Lookup, Connects;
    if Reaches(up, x, y) {
      var n :| ReachesIn(up, x, y, n);
      ReverseReach(up, down, x, y, n);
    }
    if Reaches(down, y, x) {
      var n :| ReachesIn(down, y, x, n);
      ReverseReach(down, up, y, x, n);
    }
  }

  /** With the way back from evidence, a record still reaches everything that it is an ancestor of. */
  lemma AncestorsReachDown(kinds: map<Id, Kind>, links: seq<Link>, parents: Adjacency, children: Adjacency,
                           x: Id, y: Id)
    requires IsParents(kinds, links, parents) && IsChildren(kinds, links, children)
    requires Reaches(Graph(kinds, parents, false), x, y)
    ensures Reaches(Graph(kinds, children, false), y, x)
  {
    hide Lookup, Connects, ConnectsBack;
    var n :| ReachesIn(Graph(kinds, parents, false), x, y, n);
    ReverseReach(Graph(kinds, parents, false), Graph(kinds, children, false), x, y, n);
  }

  // ---------------------------------------------------------------------------
  // The memo
  // ---------------------------------------------------------------------------

  class Search {
    const kinds: map<Id, Kind>
    const parents: Adjacency
    var ancestorCache: map<Id, seq<Id>>

    constructor (kinds: map<Id, Kind>, parents: Adjacency)
      requires Graph(kinds, parents, false).Closed()
      ensures Valid() && this.kinds == kinds && this.parents == parents
    {
      this.kinds, this.parents, ancestorCache := kinds, parents, map[];
    }

    ghost function Up(): Graph {
      Graph(kinds, parents, false)
    }

    /** Every remembered answer is what a fresh walk would give. */
    ghost predicate Valid()
      reads this
    {
      Up().Closed() && forall r :: r in ancestorCache ==> r in kinds && ancestorCache[r] == Walked(Up(), [r], 0)
    }

    method Ancestors(r: Id) returns (values: seq<Id>)
      requires Valid() && r in kinds
      modifies this
      ensures Valid() && values == Walked(Up(), [r], 0)
      ensures forall x :: x in old(ancestorCache) ==> x in ancestorCache && ancestorCache[x] == old(ancestorCache)[x]
    {
      if r !in ancestorCache {
        var w := Walk(Graph(kinds, parents, false), r);
        ancestorCache := ancestorCache[r := w];
      }
      values := ancestorCache[r];
    }
  }

  // ---------------------------------------------------------------------------
  // Pages and their sources
  // ---------------------------------------------------------------------------

  const PAGE_SIZE: nat := 25
  const MAX_INCLUDED: nat := 400

  datatype Match = Match(record: Id, related: seq<Id>)

  /** What JavaScript's slice returns for a page number from 1. */
  function Page<T>(matches: seq<T>, page: nat): (s: seq<T>)
    requires page >= 1
    ensures |s| <= PAGE_SIZE
  {
    matches[Min((page - 1) * PAGE_SIZE, |matches|)..Min(page * PAGE_SIZE, |matches|)]
  }

  function Pages<T>(matches: seq<T>, n: nat): seq<T> {
    if n == 0 then [] else Pages(matches, n - 1) + Page(matches, n)
  }

  /** The pages, in order, are the matches: none is lost or shown twice. */
  lemma {:induction false} PagesAreTheMatches<T>(matches: seq<T>, n: nat)
    ensures Pages(matches, n) == matches[..Min(25 * n, |matches|)]
    ensures n > 0 ==> |Page(matches, n)| == if 25 * n <= |matches| then 25 else Max(|matches| - 25 * (n - 1), 0)
  {
    if n > 0 {
      PagesAreTheMatches(matches, n - 1);
    }
  }

  ghost predicate Selected(selected: seq<Match>, included: seq<Id>) {
    forall m :: m in selected ==> m.record in included
  }

  /** Nothing is included that is neither selected nor related to a selected record. */
  ghost predicate Sourced(selected: seq<Match>, included: seq<Id>) {
    forall x :: x in included ==> exists m :: m in selected && (x == m.record || x in m.related)
  }

  predicate Complete(selected: seq<Match>, included: seq<Id>) {
    forall m :: m in selected ==> forall x :: x in m.related ==> x in included
  }

  lemma Sources(selected: seq<Match>, included: seq<Id>, i: nat, x: Id)
    requires Sourced(selected, included) && i < |selected|
    requires x == selected[i].record || x in selected[i].related
    ensures Sourced(selected, included + [x])
  {
    assert selected[i] in selected;
  }

  /** The selected records, then related records while there is room; a warning exactly when one did not fit. */
  method Include(selected: seq<Match>) returns (included: seq<Id>, limited: bool)
    requires |selected| <= PAGE_SIZE
    ensures NoDuplicates(included) && |included| <= 400
    ensures Selected(selected, included) && Sourced(selected, included)
    ensures limited <==> exists m, x :: m in selected && x in m.related && x !in included
    ensures limited ==> |included| == 400
  {
    included := [];
    for i := 0 to |selected|
      invariant NoDuplicates(included) && |included| <= i
      invariant Selected(selected[..i], included) && Sourced(selected, included)
    {
      if selected[i].record !in included {
        Sources(selected, included, i, selected[i].record);
        included := included + [selected[i].record];
      }
    }
    assert selected[..|selected|] == selected;
    for i := 0 to |selected|
      invariant NoDuplicates(included) && |included| <= MAX_INCLUDED
      invariant Selected(selected, included) && Sourced(selected, included)
      invariant |included| < MAX_INCLUDED ==> Complete(selected[..i], included)
    {
      included := IncludeRelated(selected, i, included);
    }
    limited := !Complete(selected, included);
  }

  method IncludeRelated(selected: seq<Match>, i: nat, before: seq<Id>) returns (included: seq<Id>)
    requires i < |selected| && NoDuplicates(before) && |before| <= MAX_INCLUDED
    requires Selected(selected, before) && Sourced(selected, before)
    requires |before| < MAX_INCLUDED ==> Complete(selected[..i], before)
    ensures before <= included && NoDuplicates(included) && |included| <= MAX_INCLUDED
    ensures Selected(selected, included) && Sourced(selected, included)
    ensures |included| < MAX_INCLUDED ==> Complete(selected[..i + 1], included)
  {
    hide Sourced;
    included := before;
    var related := selected[i].related;
    for j := 0 to |related|
      invariant before <= included && NoDuplicates(included) && |included| <= MAX_INCLUDED
      invariant Sourced(selected, included)
      invariant |included| < MAX_INCLUDED ==> forall x :: x in related[..j] ==> x in included
    {
      if |included| < MAX_INCLUDED && related[j] !in included {
        Sources(selected, included, i, related[j]);
        included := included + [related[j]];
      }
    }
  }
}
