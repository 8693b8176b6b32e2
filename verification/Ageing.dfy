/** How long an item is overdue, in whole days. Times are in milliseconds; division rounds down. */
module Ageing {
  import opened Options

  const DAY: int := 86_400_000

  function Day(t: int): int {
    t / DAY
  }

  /** An item without a due date is never overdue. */
  function DaysOverdue(due: Option<int>, now: int): (d: nat)
    ensures d > 0 <==> due.Some? && now - due.value >= DAY
    ensures d > 0 ==> d * DAY <= now - due.value < (d + 1) * DAY
  {
    if due.None? then 0
    else
      var days := (now - due.value) / DAY;
      if days > 0 then days else 0
  }

  /** 0 owner, 1 line manager, 2 chief audit executive, 3 audit committee. */
  function EscalationLevel(days: int): (level: nat)
    ensures level <= 3
  {
    if days <= 0 then 0 else if days <= 14 then 1 else if days <= 45 then 2 else 3
  }

  /** An item never escalates backwards as time goes by. */
  lemma EscalationRises(due: Option<int>, t: int, now: int)
    requires t <= now
    ensures EscalationLevel(DaysOverdue(due, t)) <= EscalationLevel(DaysOverdue(due, now))
  {
    if due.Some? {
      assert (t - due.value) / DAY <= (now - due.value) / DAY;
    }
  }

  /** The levels start one day, fifteen days and forty-six days after the due time. */
  lemma LevelsStart(due: int, now: int)
    ensures var level := EscalationLevel(DaysOverdue(Some(due), now));
            && (level >= 1 <==> now - due >= 86_400_000)
            && (level >= 2 <==> now - due >= 15 * 86_400_000)
            && (level == 3 <==> now - due >= 46 * 86_400_000)
  {
  }

  /** Before the due day nothing is overdue. */
  lemma NotYetOverdue(due: int, now: int)
    requires Day(due) > Day(now)
    ensures DaysOverdue(Some(due), now) == 0 && EscalationLevel(DaysOverdue(Some(due), now)) == 0
  {
  }
}
