/** Password sign-in with a failed-login lockout. Times are in milliseconds. */
module Lockout {
  import opened Options

  const MAX_FAILED_LOGINS: nat := 5
  const LOCKOUT_MINUTES: nat := 15
  const LOCKOUT: nat := LOCKOUT_MINUTES * 60_000

  /** The two columns that the lockout lives in. */
  datatype Account = Account(failed: nat, lockedUntil: Option<int>) {
    predicate Locked(now: int) {
      lockedUntil.Some? && lockedUntil.value > now
    }
  }

  const CLEARED := Account(0, None)

  /** `usable`: a local account with a password, not suspended or deactivated, of an active tenant. */
  datatype Event =
    | Attempt(now: int, usable: bool, correct: bool)
    | Clear

  /** The attempt gets as far as comparing the password. */
  predicate Verifies(a: Account, e: Event) {
    e.Attempt? && e.usable && !a.Locked(e.now)
  }

  predicate Guesses(a: Account, e: Event) {
    Verifies(a, e) && !e.correct
  }

  predicate Resets(a: Account, e: Event) {
    e.Clear? || (Verifies(a, e) && e.correct)
  }

  function AfterFailure(a: Account, now: int): Account {
    if a.failed + 1 >= MAX_FAILED_LOGINS then Account(0, Some(now + LOCKOUT)) else Account(a.failed + 1, a.lockedUntil)
  }

  function Next(a: Account, e: Event): Account {
    if Resets(a, e) then CLEARED else if Guesses(a, e) then AfterFailure(a, e.now) else a
  }

  // ---------------------------------------------------------------------------
  // The service
  // ---------------------------------------------------------------------------

  datatype Status = INVITED | ACTIVE | SUSPENDED | DEACTIVATED

  datatype LoginReply = Denied | MfaChallenge | Session

  class User {
    var isLocal: bool
    var hasPassword: bool
    var status: Status
    var mfaEnabled: bool
    var failedLoginCount: nat
    var lockedUntil: Option<int>
    var lastLoginAt: Option<int>

    constructor (isLocal: bool, hasPassword: bool)
      ensures Lock() == CLEARED
    {
      this.isLocal, this.hasPassword, status, mfaEnabled := isLocal, hasPassword, INVITED, false;
      failedLoginCount, lockedUntil, lastLoginAt := 0, None, None;
    }

    function Lock(): Account
      reads this
    {
      Account(failedLoginCount, lockedUntil)
    }

    predicate Usable(tenantActive: bool)
      reads this
    {
      isLocal && hasPassword && status != SUSPENDED && status != DEACTIVATED && tenantActive
    }

    method RegisterFailedLogin(now: int)
      modifies `failedLoginCount, `lockedUntil
      ensures Lock() == AfterFailure(old(Lock()), now)
    {
      var count := failedLoginCount + 1;
      var lock := count >= MAX_FAILED_LOGINS;
      failedLoginCount := if lock then 0 else count;
      lockedUntil := if lock then Some(now + LOCKOUT) else lockedUntil;
    }

    /** Sign-in succeeds, or is challenged, exactly with the right password of a usable account that is not locked. */
    method Login(now: int, tenantActive: bool, passwordMatches: bool) returns (r: LoginReply)
      modifies `failedLoginCount, `lockedUntil, `lastLoginAt, `status
      ensures Lock() == Next(old(Lock()), Attempt(now, old(Usable(tenantActive)), passwordMatches))
      ensures r.Denied? <==>
                || !isLocal || !hasPassword || old(status) in {SUSPENDED, DEACTIVATED} || !tenantActive
                || (old(lockedUntil).Some? && now < old(lockedUntil).value)
                || !passwordMatches
      ensures r.Denied? ==> lastLoginAt == old(lastLoginAt) && status == old(status)
      ensures r.Denied? && !passwordMatches && isLocal && hasPassword && tenantActive
              && old(status) in {INVITED, ACTIVE} && !(old(lockedUntil).Some? && now < old(lockedUntil).value) ==>
                if old(failedLoginCount) < 4 then
                  failedLoginCount == old(failedLoginCount) + 1 && lockedUntil == old(lockedUntil)
                else failedLoginCount == 0 && lockedUntil == Some(now + 900_000)
      ensures !r.Denied? ==>
                && lastLoginAt == Some(now) && status == ACTIVE && failedLoginCount == 0 && lockedUntil == None
                && (r.MfaChallenge? <==> mfaEnabled)
    {
      if !isLocal || !hasPassword {
        return Denied;
      }
      if status == SUSPENDED || status == DEACTIVATED || !tenantActive {
        return Denied;
      }
      if lockedUntil.Some? && lockedUntil.value > now {
        return Denied;
      }
      if !passwordMatches {
        RegisterFailedLogin(now);
        return Denied;
      }
      failedLoginCount, lockedUntil, lastLoginAt := 0, None, Some(now);
      status := if status == INVITED then ACTIVE else status;
      r := if mfaEnabled then MfaChallenge else Session;
    }

    /** A changed or reset password clears the lock. */
    method ClearLock()
      modifies `failedLoginCount, `lockedUntil
      ensures Lock() == Next(old(Lock()), Clear) && failedLoginCount == 0 && lockedUntil == None
    {
      failedLoginCount, lockedUntil := 0, None;
    }
  }

  // ---------------------------------------------------------------------------
  // How fast passwords can be guessed
  // ---------------------------------------------------------------------------

  function After(es: seq<Event>): Account {
    if es == [] then CLEARED else Next(After(es[..|es| - 1]), es[|es| - 1])
  }

  /** The times at which wrong passwords were compared since the last reset. */
  function GuessTimes(es: seq<Event>): seq<int> {
    if es == [] then []
    else
      var before, e := es[..|es| - 1], es[|es| - 1];
      if Resets(After(before), e) then []
      else if Guesses(After(before), e) then GuessTimes(before) + [e.now]
      else GuessTimes(before)
  }

  predicate Ordered(es: seq<Event>) {
    forall i, j :: 0 <= i < j < |es| && es[i].Attempt? && es[j].Attempt? ==> es[i].now <= es[j].now
  }

  /** Every sixth guess in a row waits for a lock to run out. */
  predicate Spaced(times: seq<int>) {
    forall k :: 0 < k < |times| ==> times[k] >= times[k - 1] + if k % MAX_FAILED_LOGINS == 0 then LOCKOUT else 0
  }

  /** The columns always tell how many guesses there were and when the last lock set in. */
  ghost predicate Records(a: Account, times: seq<int>) {
    && a.failed == |times| % MAX_FAILED_LOGINS
    && a.lockedUntil == if |times| < MAX_FAILED_LOGINS then None
                        else Some(times[|times| - |times| % MAX_FAILED_LOGINS - 1] + LOCKOUT)
  }

  lemma {:induction false} GuessTimesAreAttempts(es: seq<Event>, k: nat)
    requires k < |GuessTimes(es)|
    ensures exists i :: 0 <= i < |es| && es[i].Attempt? && es[i].now == GuessTimes(es)[k]
  {
    var n := |es| - 1;
    if k < |GuessTimes(es[..n])| {
      GuessTimesAreAttempts(es[..n], k);
    } else {
      assert es[n].now == GuessTimes(es)[k];
    }
  }

  lemma SpacedSnoc(times: seq<int>, now: int)
    requires Spaced(times)
    requires times != [] ==>
               now >= times[|times| - 1] + if |times| % MAX_FAILED_LOGINS == 0 then LOCKOUT else 0
    ensures Spaced(times + [now])
  {
  }

  lemma NextRemainder(n: nat)
    ensures (n + 1) % MAX_FAILED_LOGINS ==
              if n % MAX_FAILED_LOGINS == MAX_FAILED_LOGINS - 1 then 0 else n % MAX_FAILED_LOGINS + 1
  {
  }

  lemma GuessKeepsRecords(a: Account, times: seq<int>, now: int)
    requires Records(a, times) && Spaced(times)
    requires !a.Locked(now) && (times != [] ==> times[|times| - 1] <= now)
    ensures Records(AfterFailure(a, now), times + [now]) && Spaced(times + [now])
  {
    var n := |times|;
    if n > 0 && n % MAX_FAILED_LOGINS == 0 {
      assert a.lockedUntil == Some(times[n - 1] + LOCKOUT);
    }
    SpacedSnoc(times, now);
    hide Spaced;
    NextRemainder(n);
    var r, last := n % MAX_FAILED_LOGINS, n - n % MAX_FAILED_LOGINS - 1;
    if r < MAX_FAILED_LOGINS - 1 && n >= MAX_FAILED_LOGINS {
      assert (times + [now])[last] == times[last];
    }
  }

  lemma {:induction false} GuessesAreSpaced(es: seq<Event>)
    requires Ordered(es)
    ensures Records(After(es), GuessTimes(es)) && Spaced(GuessTimes(es))
  {
    if es != [] {
      var n := |es| - 1;
      var before, e, times := es[..n], es[n], GuessTimes(es[..n]);
      GuessesAreSpaced(before);
      if Guesses(After(before), e) {
        if times != [] {
          GuessTimesAreAttempts(before, |times| - 1);
        }
        hide Records, Spaced, AfterFailure;
        assert times != [] ==> times[|times| - 1] <= e.now;
        GuessKeepsRecords(After(before), times, e.now);
      }
    }
  }

  lemma {:induction false} SpacedApart(times: seq<int>, i: nat, j: nat)
    requires Spaced(times) && i <= j < |times|
    ensures times[j] - times[i] >= LOCKOUT * (j / MAX_FAILED_LOGINS - i / MAX_FAILED_LOGINS)
    decreases j
  {
    if i < j {
      SpacedApart(times, i, j - 1);
    }
  }

  /**
   * In every run, guess `j` comes at least 15 minutes per completed group of five after guess `i`; in particular
   * the n-th guess comes at least 15 minutes times (n - 1) / 5 after the first. The stored count stays in 0..4.
   */
  lemma LockoutBound(es: seq<Event>, i: nat, j: nat)
    requires Ordered(es) && i <= j < |GuessTimes(es)|
    ensures GuessTimes(es)[j] - GuessTimes(es)[i] >= 900_000 * (j / 5 - i / 5)
    ensures After(es).failed <= 4
  {
    GuessesAreSpaced(es);
    SpacedApart(GuessTimes(es), i, j);
  }

  /** No more than five wrong passwords are compared in any time shorter than the lockout. */
  lemma FivePerWindow(es: seq<Event>, i: nat, j: nat)
    requires Ordered(es) && i <= j < |GuessTimes(es)|
    requires GuessTimes(es)[j] - GuessTimes(es)[i] < 900_000
    ensures j - i < 5
  {
    LockoutBound(es, i, j);
    hide GuessTimes, Ordered;
    BelowOne(j / MAX_FAILED_LOGINS - i / MAX_FAILED_LOGINS);
  }

  lemma BelowOne(d: int)
    ensures LOCKOUT * d < LOCKOUT ==> d < 1
  {
    if d >= 1 {
      assert LOCKOUT * d == LOCKOUT * (d - 1) + LOCKOUT;
    }
  }

  /** Five wrong passwords at once, again as soon as the lock runs out. */
  function Onslaught(n: nat): (es: seq<Event>)
    ensures |es| == n
  {
    seq(n, k => Attempt(LOCKOUT * (k / MAX_FAILED_LOGINS), true, false))
  }

  lemma OnslaughtGuesses(n: nat, times: seq<int>, a: Account)
    requires |times| == n && Records(a, times)
    requires forall k :: 0 <= k < n ==> times[k] == LOCKOUT * (k / MAX_FAILED_LOGINS)
    ensures !a.Locked(LOCKOUT * (n / MAX_FAILED_LOGINS))
  {
    if n >= MAX_FAILED_LOGINS {
      var last := n - n % MAX_FAILED_LOGINS - 1;
      assert last / MAX_FAILED_LOGINS == n / MAX_FAILED_LOGINS - 1;
      assert a.lockedUntil == Some(times[last] + LOCKOUT);
    }
  }

  lemma OnslaughtOrdered(n: nat)
    ensures Ordered(Onslaught(n))
  {
    forall i, j | 0 <= i < j < n
      ensures LOCKOUT * (i / MAX_FAILED_LOGINS) <= LOCKOUT * (j / MAX_FAILED_LOGINS)
    {
      assert i / MAX_FAILED_LOGINS <= j / MAX_FAILED_LOGINS;
    }
  }

  /** The bound cannot be improved: for every number of guesses some run meets it exactly. */
  lemma {:induction false} BoundIsTight(n: nat)
    ensures Ordered(Onslaught(n)) && |GuessTimes(Onslaught(n))| == n
    ensures forall k :: 0 <= k < n ==> GuessTimes(Onslaught(n))[k] == 900_000 * (k / 5)
  {
    OnslaughtOrdered(n);
    if n > 0 {
      var before := Onslaught(n - 1);
      BoundIsTight(n - 1);
      assert Onslaught(n)[..n - 1] == before;
      GuessesAreSpaced(before);
      OnslaughtGuesses(n - 1, GuessTimes(before), After(before));
      hide Records, Spaced, Ordered, AfterFailure;
      assert Guesses(After(before), Onslaught(n)[n - 1]);
    }
  }
}
