/** Refresh-token families: rotation, replay detection, logout and revocation (section 4.14.2 of RFC 9700). */
module Sessions {
  import opened Options

  /** A stored token. Its index in the store is its id, and stands for the random secret whose hash the row holds. */
  datatype Token = Token(user: nat, family: nat, expires: int, revoked: Option<int>, replacedBy: Option<nat>) {
    predicate Live() {
      revoked.None?
    }
  }

  /** Rows are never deleted. Families below `families` have been handed out. */
  datatype Store = Store(ttl: nat, tokens: seq<Token>, families: nat) {
    predicate Has(raw: Option<nat>) {
      raw.Some? && raw.value < |tokens|
    }
  }

  datatype Filter = InFamily(family: nat) | OfUser(user: nat, keep: Option<nat>) {
    predicate Selects(t: Token) {
      match this
      case InFamily(f) => t.family == f
      case OfUser(u, k) => t.user == u && (k.None? || t.family != k.value)
    }
  }

  datatype Event =
    | Issue(user: nat, known: bool, now: int)
    | Refresh(raw: Option<nat>, now: int, allowed: bool)
    | Logout(raw: Option<nat>, now: int)
    | RevokeAll(user: nat, except: Option<nat>, now: int)

  /** Stamps the live rows that the filter selects. */
  function RevokeWhere(tokens: seq<Token>, f: Filter, now: int): (r: seq<Token>)
    ensures |r| == |tokens|
    ensures forall i :: 0 <= i < |r| ==>
              r[i] == if tokens[i].Live() && f.Selects(tokens[i]) then tokens[i].(revoked := Some(now)) else tokens[i]
  {
    seq(|tokens|, i requires 0 <= i < |tokens| =>
      if tokens[i].Live() && f.Selects(tokens[i]) then tokens[i].(revoked := Some(now)) else tokens[i])
  }

  /** The live tokens of one family are stamped, and every other token is as it was. */
  ghost predicate FamilyRevoked(before: seq<Token>, after: seq<Token>, family: nat, now: int) {
    && |after| == |before|
    && forall i :: 0 <= i < |after| ==>
         after[i] == if before[i].family == family && before[i].revoked.None?
                     then Token(before[i].user, family, before[i].expires, Some(now), before[i].replacedBy)
                     else before[i]
  }

  /** A presented token that is live, in time and whose user may still sign in is exchanged for a new one. */
  predicate Rotates(s: Store, raw: Option<nat>, now: int, allowed: bool) {
    s.Has(raw) && s.tokens[raw.value].Live() && now < s.tokens[raw.value].expires && allowed
  }

  function Next(s: Store, e: Event): Store {
    match e
    case Issue(user, known, now) =>
      if known then Store(s.ttl, s.tokens + [Token(user, s.families, now + s.ttl, None, None)], s.families + 1) else s
    case Refresh(raw, now, allowed) =>
      if !s.Has(raw) then s
      else
        var t := s.tokens[raw.value];
        if !t.Live() then s.(tokens := RevokeWhere(s.tokens, InFamily(t.family), now))
        else if Rotates(s, raw, now, allowed) then
          var rotated := t.(revoked := Some(now), replacedBy := Some(|s.tokens|));
          s.(tokens := s.tokens[raw.value := rotated] + [Token(t.user, t.family, now + s.ttl, None, None)])
        else s
    case Logout(raw, now) =>
      if s.Has(raw) && s.tokens[raw.value].Live()
      then s.(tokens := RevokeWhere(s.tokens, InFamily(s.tokens[raw.value].family), now))
      else s
    case RevokeAll(user, except, now) =>
      var keep := if s.Has(except) then Some(s.tokens[except.value].family) else None;
      s.(tokens := RevokeWhere(s.tokens, OfUser(user, keep), now))
  }

  function Run(s: Store, es: seq<Event>): Store
    decreases |es|
  {
    if es == [] then s else Next(Run(s, es[..|es| - 1]), es[|es| - 1])
  }

  // ---------------------------------------------------------------------------
  // The service
  // ---------------------------------------------------------------------------

  datatype RefreshReply = Issued(token: nat) | Missing | Invalid | Reused | Expired | NoLongerValid

  class SessionService {
    const refreshTtl: nat
    var tokens: seq<Token>
    var families: nat

    constructor (ttl: nat)
      ensures State() == Store(ttl, [], 0)
    {
      refreshTtl := ttl;
      tokens := [];
      families := 0;
    }

    function State(): Store
      reads this
    {
      Store(refreshTtl, tokens, families)
    }

    method UpdateMany(f: Filter, now: int)
      modifies `tokens
      ensures tokens == RevokeWhere(old(tokens), f, now)
    {
      tokens := RevokeWhere(tokens, f, now);
    }

    method IssueSession(user: nat, known: bool, now: int) returns (r: Option<nat>)
      modifies this
      ensures State() == Next(old(State()), Issue(user, known, now))
      ensures r.Some? <==> known
      ensures families == old(families) + if known then 1 else 0
      ensures tokens == old(tokens) + if known then [Token(user, old(families), now + refreshTtl, None, None)] else []
      ensures r == if known then Some(|old(tokens)|) else None
    {
      if !known {
        return None;
      }
      r := Some(|tokens|);
      tokens := tokens + [Token(user, families, now + refreshTtl, None, None)];
      families := families + 1;
    }

    method RefreshToken(raw: Option<nat>, now: int, allowed: bool) returns (r: RefreshReply)
      modifies `tokens
      ensures State() == Next(old(State()), Refresh(raw, now, allowed))
      ensures r.Missing? <==> raw.None?
      ensures r.Invalid? <==> raw.Some? && raw.value >= |old(tokens)|
      ensures !r.Missing? && !r.Invalid? ==>
                var t := old(tokens)[raw.value];
                && (r.Reused? <==> t.revoked.Some?)
                && (r.Expired? <==> t.revoked.None? && t.expires <= now)
                && (r.NoLongerValid? <==> t.revoked.None? && now < t.expires && !allowed)
      ensures r.Issued? ==>
                var t, n := old(tokens)[raw.value], |old(tokens)|;
                && r.token == n && |tokens| == n + 1
                && tokens[n] == Token(t.user, t.family, now + refreshTtl, None, None)
                && tokens[raw.value] == t.(revoked := Some(now), replacedBy := Some(n))
                && forall i :: 0 <= i < n && i != raw.value ==> tokens[i] == old(tokens)[i]
      ensures r.Reused? ==> FamilyRevoked(old(tokens), tokens, old(tokens)[raw.value].family, now)
      ensures !r.Issued? && !r.Reused? ==> tokens == old(tokens)
    {
      if raw.None? {
        return Missing;
      }
      if raw.value >= |tokens| {
        return Invalid;
      }
      var existing := tokens[raw.value];
      if existing.revoked.Some? {
        UpdateMany(InFamily(existing.family), now);
        return Reused;
      }
      if existing.expires <= now {
        return Expired;
      }
      if !allowed {
        return NoLongerValid;
      }
      var next := |tokens|;
      tokens := tokens + [Token(existing.user, existing.family, now + refreshTtl, None, None)];
      tokens := tokens[raw.value := existing.(revoked := Some(now), replacedBy := Some(next))];
      r := Issued(next);
    }

    method SignOut(raw: Option<nat>, now: int)
      modifies `tokens
      ensures State() == Next(old(State()), Logout(raw, now))
      ensures if raw.Some? && raw.value < |old(tokens)| && old(tokens)[raw.value].revoked.None?
              then FamilyRevoked(old(tokens), tokens, old(tokens)[raw.value].family, now)
              else tokens == old(tokens)
    {
      if raw.Some? && raw.value < |tokens| {
        var existing := tokens[raw.value];
        if existing.revoked.None? {
          UpdateMany(InFamily(existing.family), now);
        }
      }
    }

    method RevokeAllSessions(user: nat, except: Option<nat>, now: int)
      modifies `tokens
      ensures State() == Next(old(State()), RevokeAll(user, except, now))
      ensures |tokens| == |old(tokens)|
      ensures forall i :: 0 <= i < |tokens| ==>
                var t := old(tokens)[i];
                var kept := && except.Some? && except.value < |old(tokens)|
                            && t.family == old(tokens)[except.value].family;
                tokens[i] == if t.revoked.None? && t.user == user && !kept then t.(revoked := Some(now)) else t
    {
      var keepFamily := None;
      if except.Some? && except.value < |tokens| {
        keepFamily := Some(tokens[except.value].family);
      }
      UpdateMany(OfUser(user, keepFamily), now);
    }
  }

  // ---------------------------------------------------------------------------
  // One chain to a family
  // ---------------------------------------------------------------------------

  /** Token `j` is the next token of the family of token `i`. */
  ghost predicate Follows(tokens: seq<Token>, i: nat, j: nat) {
    && i < j < |tokens| && tokens[i].family == tokens[j].family
    && forall k :: i < k < j ==> tokens[k].family != tokens[i].family
  }

  ghost predicate Chained(s: Store) {
    && (forall i :: 0 <= i < |s.tokens| ==> s.tokens[i].family < s.families)
    && (forall i :: 0 <= i < |s.tokens| && s.tokens[i].replacedBy.Some? ==>
          !s.tokens[i].Live() && Follows(s.tokens, i, s.tokens[i].replacedBy.value))
    && (forall i, j :: 0 <= i < j < |s.tokens| && s.tokens[i].family == s.tokens[j].family ==>
          s.tokens[i].replacedBy.Some? && s.tokens[i].user == s.tokens[j].user)
  }

  lemma RevokeKeepsChains(s: Store, f: Filter, now: int)
    requires Chained(s)
    ensures Chained(s.(tokens := RevokeWhere(s.tokens, f, now)))
  {
    var after := RevokeWhere(s.tokens, f, now);
    forall i | 0 <= i < |after| && after[i].replacedBy.Some?
      ensures Follows(after, i, after[i].replacedBy.value)
    {
      assert Follows(s.tokens, i, s.tokens[i].replacedBy.value);
    }
  }

  lemma IssueKeepsChains(s: Store, e: Event)
    requires Chained(s) && e.Issue?
    ensures Chained(Next(s, e))
  {
    var after := Next(s, e).tokens;
    forall i | 0 <= i < |after| && after[i].replacedBy.Some?
      ensures Follows(after, i, after[i].replacedBy.value)
    {
      assert Follows(s.tokens, i, s.tokens[i].replacedBy.value);
    }
  }

  lemma RotationKeepsChains(s: Store, e: Event)
    requires Chained(s) && e.Refresh? && Rotates(s, e.raw, e.now, e.allowed)
    ensures Chained(Next(s, e))
  {
    var after, n := Next(s, e).tokens, |s.tokens|;
    forall i | 0 <= i < |after| && after[i].replacedBy.Some?
      ensures Follows(after, i, after[i].replacedBy.value)
    {
      if i == e.raw.value {
        assert forall k :: i < k < n ==> s.tokens[k].family != s.tokens[i].family;
      } else {
        assert Follows(s.tokens, i, s.tokens[i].replacedBy.value);
      }
    }
  }

  lemma NextKeepsChains(s: Store, e: Event)
    requires Chained(s)
    ensures Chained(Next(s, e))
  {
    hide Chained;
    match e
    case Issue(_, _, _) => IssueKeepsChains(s, e);
    case Refresh(raw, now, allowed) =>
      if Rotates(s, raw, now, allowed) {
        RotationKeepsChains(s, e);
      } else if s.Has(raw) {
        RevokeKeepsChains(s, InFamily(s.tokens[raw.value].family), now);
      }
    case Logout(raw, now) =>
      if s.Has(raw) {
        RevokeKeepsChains(s, InFamily(s.tokens[raw.value].family), now);
      }
    case RevokeAll(user, except, now) =>
      RevokeKeepsChains(s, OfUser(user, if s.Has(except) then Some(s.tokens[except.value].family) else None), now);
  }

  lemma {:induction false} RunKeepsChains(s: Store, es: seq<Event>)
    requires Chained(s)
    ensures Chained(Run(s, es))
    decreases |es|
  {
    hide Chained, Next;
    if es != [] {
      RunKeepsChains(s, es[..|es| - 1]);
      NextKeepsChains(Run(s, es[..|es| - 1]), es[|es| - 1]);
    }
  }

  /** Where the chain of replacements from a token ends. */
  ghost function Last(s: Store, i: nat): (l: nat)
    requires Chained(s) && i < |s.tokens|
    ensures i <= l < |s.tokens| && s.tokens[l].replacedBy.None? && s.tokens[l].family == s.tokens[i].family
    decreases |s.tokens| - i
  {
    if s.tokens[i].replacedBy.None? then i else Last(s, s.tokens[i].replacedBy.value)
  }

  /** The replacement links of a family run through all its tokens: from any of them they lead to the same last one. */
  lemma {:induction false} OneChain(s: Store, i: nat, j: nat)
    requires Chained(s) && i <= j < |s.tokens| && s.tokens[i].family == s.tokens[j].family
    ensures Last(s, i) == Last(s, j)
    decreases j - i
  {
    if i < j {
      assert Follows(s.tokens, i, s.tokens[i].replacedBy.value);
      OneChain(s, s.tokens[i].replacedBy.value, j);
    }
  }

  /** In every store a run from the empty one can reach: only the last token of a family can be live. */
  lemma LiveIsLast(ttl: nat, es: seq<Event>, i: nat, j: nat)
    requires var s := Run(Store(ttl, [], 0), es);
             i < |s.tokens| && j < |s.tokens| && s.tokens[i].family == s.tokens[j].family
    ensures var s := Run(Store(ttl, [], 0), es);
            && s.tokens[i].user == s.tokens[j].user
            && (s.tokens[i].Live() && s.tokens[j].Live() ==> i == j)
            && Chained(s) && (s.tokens[i].Live() ==> Last(s, j) == i)
  {
    var s := Run(Store(ttl, [], 0), es);
    RunKeepsChains(Store(ttl, [], 0), es);
    hide Run;
    if i <= j {
      OneChain(s, i, j);
    } else {
      OneChain(s, j, i);
    }
  }

  // ---------------------------------------------------------------------------
  // Revocation is final
  // ---------------------------------------------------------------------------

  /** Rows keep their owner, family and expiry, and revoked rows never change at all. */
  ghost predicate Grows(s: Store, t: Store) {
    && |s.tokens| <= |t.tokens| && s.families <= t.families
    && forall i :: 0 <= i < |s.tokens| ==>
         && t.tokens[i].user == s.tokens[i].user && t.tokens[i].family == s.tokens[i].family
         && t.tokens[i].expires == s.tokens[i].expires
         && (!s.tokens[i].Live() ==> t.tokens[i] == s.tokens[i])
  }

  lemma NextGrows(s: Store, e: Event)
    ensures Grows(s, Next(s, e))
  {
  }

  lemma GrowsOn(s: Store, t: Store, u: Store)
    requires Grows(s, t) && Grows(t, u)
    ensures Grows(s, u)
  {
  }

  lemma {:induction false} RunGrows(s: Store, es: seq<Event>)
    ensures Grows(s, Run(s, es))
    decreases |es|
  {
    if es != [] {
      var t := Run(s, es[..|es| - 1]);
      RunGrows(s, es[..|es| - 1]);
      hide Next, Grows;
      NextGrows(t, es[|es| - 1]);
      GrowsOn(s, t, Run(s, es));
    }
  }

  /** A call that may change token `i`: it presents a token of its family, or revokes the other families of its user. */
  ghost predicate Touches(s: Store, e: Event, i: nat)
    requires i < |s.tokens|
  {
    match e
    case Issue(_, _, _) => false
    case Refresh(raw, _, _) =>
      raw.Some? && raw.value < |s.tokens| && s.tokens[raw.value].family == s.tokens[i].family
    case Logout(raw, _) =>
      && raw.Some? && raw.value < |s.tokens| && s.tokens[raw.value].family == s.tokens[i].family
      && s.tokens[raw.value].Live()
    case RevokeAll(user, except, _) =>
      && s.tokens[i].user == user
      && !(except.Some? && except.value < |s.tokens| && s.tokens[except.value].family == s.tokens[i].family)
  }

  lemma NextChanges(s: Store, e: Event, i: nat)
    requires i < |s.tokens| && Next(s, e).tokens[i] != s.tokens[i]
    ensures s.tokens[i].Live() && Touches(s, e, i)
  {
  }

  /** In every run, a session is left alone by whatever happens in other families and to other users. */
  lemma {:induction false} RunChanges(s: Store, es: seq<Event>, i: nat) returns (k: nat)
    requires i < |s.tokens|
    requires i < |Run(s, es).tokens| && Run(s, es).tokens[i] != s.tokens[i]
    ensures k < |es| && i < |Run(s, es[..k]).tokens| && Run(s, es[..k]).tokens[i] == s.tokens[i]
    ensures Touches(Run(s, es[..k]), es[k], i)
    decreases |es|
  {
    var n := |es| - 1;
    var t := Run(s, es[..n]);
    RunGrows(s, es[..n]);
    if t.tokens[i] == s.tokens[i] {
      k := n;
      NextChanges(t, es[n], i);
    } else {
      k := RunChanges(s, es[..n], i);
      assert es[..n][..k] == es[..k];
    }
  }

  /** A new token is made for a known user, or for a live token that is in time and whose user may still sign in. */
  lemma OnlyLiveIsExchanged(s: Store, e: Event)
    ensures |s.tokens| <= |Next(s, e).tokens| <= |s.tokens| + 1
    ensures |Next(s, e).tokens| > |s.tokens| <==>
              || (e.Issue? && e.known)
              || (e.Refresh? && e.raw.Some? && e.raw.value < |s.tokens| && s.tokens[e.raw.value].revoked.None?
                  && e.now < s.tokens[e.raw.value].expires && e.allowed)
  {
  }

  /** Logout and refresh in one family, and the revocation of all of one user, leave every other session as it was. */
  lemma OthersStayAlive(s: Store, raw: nat, now: int, allowed: bool, i: nat)
    requires raw < |s.tokens| && i < |s.tokens| && s.tokens[i].family != s.tokens[raw].family
    ensures Next(s, Logout(Some(raw), now)).tokens[i] == s.tokens[i]
    ensures Next(s, Refresh(Some(raw), now, allowed)).tokens[i] == s.tokens[i]
    ensures forall user: nat, except: Option<nat> ::
              (s.tokens[i].user != user || (s.Has(except) && s.tokens[except.value].family == s.tokens[i].family)) ==>
                Next(s, RevokeAll(user, except, now)).tokens[i] == s.tokens[i]
  {
  }

  ghost predicate Dead(s: Store, family: nat) {
    family < s.families && forall i :: 0 <= i < |s.tokens| && s.tokens[i].family == family ==> !s.tokens[i].Live()
  }

  lemma NextOfDead(s: Store, e: Event, family: nat)
    requires Dead(s, family)
    ensures Dead(Next(s, e), family)
    ensures forall i :: |s.tokens| <= i < |Next(s, e).tokens| ==> Next(s, e).tokens[i].family != family
  {
  }

  /** A family without a live token never gets one again, nor any further token. */
  lemma {:induction false} DeadStaysDead(s: Store, es: seq<Event>, family: nat)
    requires Dead(s, family)
    ensures Dead(Run(s, es), family)
    ensures forall i :: |s.tokens| <= i < |Run(s, es).tokens| ==> Run(s, es).tokens[i].family != family
    decreases |es|
  {
    if es != [] {
      var t := Run(s, es[..|es| - 1]);
      DeadStaysDead(s, es[..|es| - 1], family);
      NextOfDead(t, es[|es| - 1], family);
      NextGrows(t, es[|es| - 1]);
      hide Next, Dead;
    }
  }

  /** Presenting a revoked token ends its family for good, whatever happens afterwards. */
  lemma ReplayKillsFamily(s: Store, raw: nat, now: int, allowed: bool, after: seq<Event>)
    requires Chained(s) && raw < |s.tokens| && !s.tokens[raw].Live()
    ensures Dead(Run(Next(s, Refresh(Some(raw), now, allowed)), after), s.tokens[raw].family)
  {
    DeadStaysDead(Next(s, Refresh(Some(raw), now, allowed)), after, s.tokens[raw].family);
  }

  /**
   * A token is good for one rotation: however much happens in between, presenting it a second time
   * is a replay, and every token that descends from the first rotation is revoked with it.
   */
  lemma SecondUseKillsFamily(s: Store, raw: nat, first: Event, between: seq<Event>, second: Event, after: seq<Event>)
    requires Chained(s) && first.Refresh? && second.Refresh? && first.raw == second.raw == Some(raw)
    requires Rotates(s, first.raw, first.now, first.allowed)
    ensures var t := Run(Next(s, first), between);
            && raw < |t.tokens| && !t.tokens[raw].Live() && !Rotates(t, second.raw, second.now, second.allowed)
            && Dead(Run(Next(t, second), after), s.tokens[raw].family)
  {
    var s1 := Next(s, first);
    var t := Run(s1, between);
    NextKeepsChains(s, first);
    RunKeepsChains(s1, between);
    RunGrows(s1, between);
    assert t.tokens[raw] == s1.tokens[raw];
    hide Run;
    ReplayKillsFamily(t, raw, second.now, second.allowed, after);
  }

  /**
   * Logging out with a token of a family that is still in use ends it if and only if the token presented is the
   * live one: an already rotated token leaves the session running.
   */
  lemma LogoutEndsFamily(s: Store, raw: nat, live: nat, now: int)
    requires Chained(s) && raw < |s.tokens| && live < |s.tokens|
    requires s.tokens[raw].family == s.tokens[live].family && s.tokens[live].Live()
    ensures Dead(Next(s, Logout(Some(raw), now)), s.tokens[raw].family) <==> s.tokens[raw].Live()
  {
    if !s.tokens[raw].Live() {
      assert Next(s, Logout(Some(raw), now)).tokens[live].Live();
    }
  }

  /** A client that logs out with the token it rotated a moment ago keeps its session. */
  lemma LogoutCanLeaveSession()
    ensures var s := Run(Store(1000, [], 0), [Issue(7, true, 0), Refresh(Some(0), 1, true), Logout(Some(0), 2)]);
            |s.tokens| == 2 && s.tokens[1].user == 7 && s.tokens[1].Live()
  {
    var s0 := Store(1000, [], 0);
    var es := [Issue(7, true, 0), Refresh(Some(0), 1, true), Logout(Some(0), 2)];
    assert es[..2][..1] == [es[0]] && es[..2][1] == es[1] && es[..1][..0] == [];
    assert Run(s0, es[..1]) == Next(s0, es[0]);
    assert Run(s0, es[..2]) == Next(Next(s0, es[0]), es[1]);
  }
}
