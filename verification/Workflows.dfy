/** Declarative state machines and the service that enforces them. */
module Workflows {
  import opened Options

  datatype Transition<S, A, G> = Transition(from: S, to: S, action: A, permission: string, guards: seq<G>)

  datatype Machine<S, A, G> = Machine(initial: S, terminal: seq<S>, transitions: seq<Transition<S, A, G>>)

  predicate Matches<S(==), A(==), G>(t: Transition<S, A, G>, from: S, action: A) {
    t.from == from && t.action == action
  }

  /** The first transition of the table that leaves `from` by `action`. */
  function Find<S(==), A(==), G>(ts: seq<Transition<S, A, G>>, from: S, action: A): Option<Transition<S, A, G>> {
    if ts == [] then None
    else if Matches(ts[0], from, action) then Some(ts[0])
    else Find(ts[1..], from, action)
  }

  function FindTransition<S(==), A(==), G>(m: Machine<S, A, G>, from: S, action: A): Option<Transition<S, A, G>> {
    Find(m.transitions, from, action)
  }

  function Leaving<S(==), A, G>(ts: seq<Transition<S, A, G>>, from: S): seq<Transition<S, A, G>> {
    if ts == [] then [] else (if ts[0].from == from then [ts[0]] else []) + Leaving(ts[1..], from)
  }

  /** Who asks, with what rights, and which guards hold at that moment. */
  datatype Actor<!G> = Actor(user: nat, permissions: set<string>, holds: G -> bool)

  datatype Reply<S, A, G> =
    | Accepted(transition: Transition<S, A, G>)
    | NotAvailable
    | MissingPermission
    | GuardsFailed(failed: seq<G>)

  function Failed<G>(guards: seq<G>, holds: G -> bool): seq<G> {
    if guards == [] then []
    else
      var n := |guards| - 1;
      Failed(guards[..n], holds) + if holds(guards[n]) then [] else [guards[n]]
  }

  function Attempt<S(==), A(==), G>(m: Machine<S, A, G>, current: S, action: A, actor: Actor<G>, extra: seq<G>)
    : Reply<S, A, G>
  {
    var t := FindTransition(m, current, action);
    if t.None? then NotAvailable
    else if t.value.permission !in actor.permissions then MissingPermission
    else
      var failed := Failed(t.value.guards + extra, actor.holds);
      if failed != [] then GuardsFailed(failed) else Accepted(t.value)
  }

  method Evaluate<G>(guards: seq<G>, holds: G -> bool) returns (failures: seq<G>)
    ensures failures == Failed(guards, holds)
  {
    failures := [];
    for i := 0 to |guards|
      invariant failures == Failed(guards[..i], holds)
    {
      assert guards[..i + 1][..i] == guards[..i];
      if !holds(guards[i]) {
        failures := failures + [guards[i]];
      }
    }
    assert guards[..|guards|] == guards;
  }

  /** A transition must exist, the actor must hold its permission, and every guard must pass. */
  method Transit<S(==), A(==), G>(m: Machine<S, A, G>, current: S, action: A, actor: Actor<G>, extra: seq<G>)
    returns (r: Reply<S, A, G>)
    ensures r == Attempt(m, current, action, actor, extra)
  {
    var transition := FindTransition(m, current, action);
    if transition.None? {
      return NotAvailable;
    }
    if transition.value.permission !in actor.permissions {
      return MissingPermission;
    }
    var failed := Evaluate(transition.value.guards + extra, actor.holds);
    if |failed| > 0 {
      return GuardsFailed(failed);
    }
    r := Accepted(transition.value);
  }

  // ---------------------------------------------------------------------------
  // What is offered and what is accepted
  // ---------------------------------------------------------------------------

  lemma {:induction false} FindMeans<S, A, G>(ts: seq<Transition<S, A, G>>, from: S, action: A)
    ensures var r := Find(ts, from, action);
            if r.Some? then r.value in ts && Matches(r.value, from, action)
            else forall t :: t in ts ==> !Matches(t, from, action)
  {
    if ts != [] {
      FindMeans(ts[1..], from, action);
    }
  }

  lemma {:induction false} LeavingMeans<S, A, G>(ts: seq<Transition<S, A, G>>, from: S, t: Transition<S, A, G>)
    ensures t in Leaving(ts, from) <==> t in ts && t.from == from
  {
    if ts != [] {
      LeavingMeans(ts[1..], from, t);
    }
  }

  lemma {:induction false} FailedMeans<G>(guards: seq<G>, holds: G -> bool, g: G)
    ensures g in Failed(guards, holds) <==> g in guards && !holds(g)
  {
    if guards != [] {
      FailedMeans(guards[..|guards| - 1], holds, g);
    }
  }

  /** No state has two transitions with the same action. */
  ghost predicate Unambiguous<S(!new), A(!new), G(!new)>(ts: seq<Transition<S, A, G>>) {
    forall i, j :: 0 <= i < j < |ts| ==> ts[i].from != ts[j].from || ts[i].action != ts[j].action
  }

  predicate Allowed<S, A, G(==)>(t: Transition<S, A, G>, actor: Actor<G>, extra: seq<G>) {
    t.permission in actor.permissions && Failed(t.guards + extra, actor.holds) == []
  }

  lemma {:induction false} FindIsTheOne<S(!new), A(!new), G(!new)>(ts: seq<Transition<S, A, G>>, t: Transition<S, A, G>)
    requires Unambiguous(ts) && t in ts
    ensures Find(ts, t.from, t.action) == Some(t)
  {
    if ts[0] != t {
      var i :| 0 < i < |ts| && ts[i] == t;
      assert ts[1..][i - 1] == t;
      FindIsTheOne(ts[1..], t);
    }
  }

  /** The actions that are offered as allowed are exactly those that will be accepted, and they do what is shown. */
  lemma OfferedIsAccepted<S(!new), A(!new), G(!new)>(
      m: Machine<S, A, G>, current: S, action: A, actor: Actor<G>, extra: A -> seq<G>)
    requires Unambiguous(m.transitions)
    ensures Attempt(m, current, action, actor, extra(action)).Accepted? <==>
              exists t :: && t in Leaving(m.transitions, current) && t.action == action
                          && Allowed(t, actor, extra(t.action))
    ensures forall t :: && t in Leaving(m.transitions, current) && t.action == action
                        && Allowed(t, actor, extra(t.action)) ==>
              Attempt(m, current, action, actor, extra(action)) == Accepted(t)
  {
    var found := FindTransition(m, current, action);
    FindMeans(m.transitions, current, action);
    if found.Some? {
      LeavingMeans(m.transitions, current, found.value);
    }
    forall t | t in Leaving(m.transitions, current) && t.action == action
      ensures found == Some(t)
    {
      LeavingMeans(m.transitions, current, t);
      FindIsTheOne(m.transitions, t);
    }
  }

  /** An accepted transition is one of the table, its permission is held, and its guards hold. */
  lemma AcceptedMeans<S, A, G(!new)>(m: Machine<S, A, G>, current: S, action: A, actor: Actor<G>, extra: seq<G>)
    ensures var r := Attempt(m, current, action, actor, extra);
            r.Accepted? ==>
              && r.transition in m.transitions && r.transition.from == current && r.transition.action == action
              && r.transition.permission in actor.permissions
              && (forall g :: g in r.transition.guards || g in extra ==> actor.holds(g))
  {
    FindMeans(m.transitions, current, action);
    var r := Attempt(m, current, action, actor, extra);
    if r.Accepted? {
      forall g | g in r.transition.guards || g in extra
        ensures actor.holds(g)
      {
        FailedMeans(r.transition.guards + extra, actor.holds, g);
      }
    }
  }

  lemma NoneFailed<G(!new)>(guards: seq<G>, holds: G -> bool)
    ensures Failed(guards, holds) == [] <==> forall g :: g in guards ==> holds(g)
  {
    forall g
      ensures g in Failed(guards, holds) <==> g in guards && !holds(g)
    {
      FailedMeans(guards, holds, g);
    }
    if Failed(guards, holds) != [] {
      assert Failed(guards, holds)[0] in Failed(guards, holds);
    }
  }

  /**
   * What is replied where the table has a transition: it is accepted exactly with its permission and if its guards
   * hold, the permission is looked at first, and the failures are the guards that do not hold.
   */
  lemma AttemptMeans<S(!new), A(!new), G(!new)>(
      m: Machine<S, A, G>, current: S, action: A, actor: Actor<G>, extra: seq<G>)
    requires Unambiguous(m.transitions)
    ensures var r := Attempt(m, current, action, actor, extra);
            && (r.NotAvailable? <==> forall t :: t in m.transitions ==> t.from != current || t.action != action)
            && forall t :: t in m.transitions && t.from == current && t.action == action ==>
                 && (r.MissingPermission? <==> t.permission !in actor.permissions)
                 && (r.Accepted? <==>
                       t.permission in actor.permissions && forall g :: g in t.guards + extra ==> actor.holds(g))
                 && (r.Accepted? ==> r.transition == t)
                 && (r.GuardsFailed? ==>
                       && r.failed != []
                       && forall g :: g in r.failed <==> g in t.guards + extra && !actor.holds(g))
  {
    FindMeans(m.transitions, current, action);
    forall t | t in m.transitions && t.from == current && t.action == action
      ensures FindTransition(m, current, action) == Some(t)
      ensures Failed(t.guards + extra, actor.holds) == [] <==> forall g :: g in t.guards + extra ==> actor.holds(g)
      ensures forall g :: g in Failed(t.guards + extra, actor.holds) <==> g in t.guards + extra && !actor.holds(g)
    {
      FindIsTheOne(m.transitions, t);
      NoneFailed(t.guards + extra, actor.holds);
      forall g
        ensures g in Failed(t.guards + extra, actor.holds) <==> g in t.guards + extra && !actor.holds(g)
      {
        FailedMeans(t.guards + extra, actor.holds, g);
      }
    }
  }

  // ---------------------------------------------------------------------------
  // Histories
  // ---------------------------------------------------------------------------

  datatype Change<S> = Change(from: Option<S>, to: S, changedBy: nat)

  /** Every history entry starts where the one before ended, and the last one ends at the current state. */
  ghost predicate IsChain<S>(history: seq<Change<S>>, initial: S, current: S) {
    && history != [] && history[0].from.None? && history[0].to == initial && history[|history| - 1].to == current
    && forall i :: 0 < i < |history| ==> history[i].from == Some(history[i - 1].to)
  }

  lemma ChainSnoc<S>(history: seq<Change<S>>, initial: S, from: S, to: S, user: nat)
    requires IsChain(history, initial, from)
    ensures IsChain(history + [Change(Some(from), to, user)], initial, to)
  {
  }
}
