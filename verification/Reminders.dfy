/** When reminders fall due, and what the daily job makes of them over any sequence of runs. */
module Reminders {
  import opened Options
  import opened Ageing

  const AFTER_DUE_EVERY_DAYS: int := 7

  predicate Scheduled(daysUntilDue: int) {
    daysUntilDue in {14, 7, 1}
  }

  datatype Reason = BeforeDue | Overdue | NoReason

  datatype Decision = Decision(remind: bool, daysUntilDue: int, daysOverdue: nat, escalationLevel: nat, reason: Reason)

  predicate RemindedOn(last: Option<int>, now: int) {
    last.Some? && Day(last.value) == Day(now)
  }

  function ReminderDecision(due: int, last: Option<int>, now: int): (d: Decision)
    ensures d.daysUntilDue > 0 ==> d.daysOverdue == 0 == DaysOverdue(Some(due), now)
    ensures d.escalationLevel == EscalationLevel(DaysOverdue(Some(due), now))
    ensures d.remind ==> !RemindedOn(last, now)
  {
    var daysUntilDue := Day(due) - Day(now);
    if daysUntilDue > 0 then
      NotYetOverdue(due, now);
      var scheduled := Scheduled(daysUntilDue);
      Decision(scheduled && !RemindedOn(last, now), daysUntilDue, 0, 0, if scheduled then BeforeDue else NoReason)
    else
      var weekSince := last.None? || (now - last.value) / DAY >= AFTER_DUE_EVERY_DAYS;
      var dueNow := weekSince || (daysUntilDue == 0 && !RemindedOn(last, now));
      var overdue := DaysOverdue(Some(due), now);
      Decision(dueNow && !RemindedOn(last, now), daysUntilDue, overdue, EscalationLevel(overdue), Overdue)
  }

  /** Whatever is on record: why an item is reminded, and that the figures in the reminder are those of the day. */
  lemma DecisionMeans(due: int, last: Option<int>, now: int)
    ensures var d := ReminderDecision(due, last, now);
            && d.daysUntilDue == Day(due) - Day(now)
            && d.daysOverdue == DaysOverdue(Some(due), now)
            && (d.reason == BeforeDue <==> d.daysUntilDue == 14 || d.daysUntilDue == 7 || d.daysUntilDue == 1)
            && (d.reason == Overdue <==> Day(now) >= Day(due))
            && (d.remind ==> d.reason != NoReason)
            && (last.None? ==> (d.remind <==> d.reason != NoReason))
  {
  }

  // ---------------------------------------------------------------------------
  // The job
  // ---------------------------------------------------------------------------

  /** A finding or a document request. Requests keep no escalation level. */
  datatype Item = Item(active: bool, due: Option<int>, last: Option<int>, count: nat, level: nat, escalates: bool) {
    predicate IsDue(now: int) {
      active && due.Some? && ReminderDecision(due.value, last, now).remind
    }
  }

  function Remind(i: Item, now: int): Item {
    if !i.IsDue(now) then i
    else
      var d := ReminderDecision(i.due.value, i.last, now);
      i.(last := Some(now), count := i.count + 1,
         level := if i.escalates && d.escalationLevel > i.level then d.escalationLevel else i.level)
  }

  /** How many of the items get a reminder in a run. */
  function CountDue(items: seq<Item>, now: int): nat {
    if items == [] then 0 else CountDue(items[..|items| - 1], now) + if items[|items| - 1].IsDue(now) then 1 else 0
  }

  /** The first item from `i` on that is due and whose notification fails, or the number of items. */
  function FirstFailure(items: seq<Item>, now: int, fails: nat -> bool, i: nat): (stop: nat)
    requires i <= |items|
    ensures i <= stop <= |items|
    ensures stop < |items| ==> items[stop].IsDue(now) && fails(stop)
    ensures forall k :: i <= k < stop ==> !(items[k].IsDue(now) && fails(k))
    decreases |items| - i
  {
    if i == |items| || (items[i].IsDue(now) && fails(i)) then i else FirstFailure(items, now, fails, i + 1)
  }

  class ReminderJob {
    var running: bool
    var items: seq<Item>

    constructor (items: seq<Item>)
      ensures !running && this.items == items
    {
      running, this.items := false, items;
    }

    /**
     * One run for one tenant: every item is reminded once if it is due. A run does nothing while another is in
     * progress. If a notification fails, the run ends there: the items before are reminded, the others are as they
     * were, and the run counts as an error.
     */
    method RunAll(now: int, fails: nat -> bool) returns (reminders: nat, errors: nat)
      modifies this
      ensures running == old(running) && |items| == |old(items)|
      ensures running ==> items == old(items) && reminders == errors == 0
      ensures !running ==>
                var stop := FirstFailure(old(items), now, fails, 0);
                && (forall k :: 0 <= k < |items| ==>
                      items[k] == if k < stop then Remind(old(items)[k], now) else old(items)[k])
                && reminders == (if stop == |items| then CountDue(old(items), now) else 0)
                && errors == (if stop == |items| then 0 else 1)
    {
      hide Remind, CountDue, Item.IsDue;
      reminders, errors := 0, 0;
      if running {
        return;
      }
      running := true;
      ghost var before := items;
      NoneDue(items, now);
      for i := 0 to |items|
        invariant running && |items| == |before| && errors == 0
        invariant FirstFailure(before, now, fails, 0) == FirstFailure(before, now, fails, i)
        invariant forall k :: 0 <= k < i ==> items[k] == Remind(before[k], now)
        invariant forall k :: i <= k < |items| ==> items[k] == before[k]
        invariant reminders == CountDue(before[..i], now)
      {
        CountDueStep(before, now, i);
        var due, reminded := Decide(items[i], now);
        if !due {
          continue;
        }
        if fails(i) {
          reminders, errors := 0, 1;
          break;
        }
        items := items[i := reminded];
        reminders := reminders + 1;
      }
      assert before[..|before|] == before;
      running := false;
    }

    /** Whether one item is due, and what its row becomes. */
    static method Decide(f: Item, now: int) returns (due: bool, reminded: Item)
      ensures due <==> f.IsDue(now)
      ensures if due then reminded == Remind(f, now) else f == Remind(f, now)
    {
      hide ReminderDecision;
      if !f.active || f.due.None? {
        return false, f;
      }
      var d := ReminderDecision(f.due.value, f.last, now);
      if !d.remind {
        return false, f;
      }
      var level := if f.escalates && d.escalationLevel > f.level then d.escalationLevel else f.level;
      return true, f.(count := f.count + 1, last := Some(now), level := level);
    }
  }

  ghost function DueIn(items: seq<Item>, now: int): set<int> {
    set k | 0 <= k < |items| && items[k].IsDue(now)
  }

  /** The count is that of the due items. */
  lemma {:induction false} CountDueIs(items: seq<Item>, now: int)
    ensures CountDue(items, now) == |DueIn(items, now)|
  {
    hide Item.IsDue;
    if items == [] {
      assert DueIn(items, now) == {};
    } else {
      var n := |items| - 1;
      CountDueIs(items[..n], now);
      assert DueIn(items, now) == DueIn(items[..n], now) + if items[n].IsDue(now) then {n} else {};
    }
  }

  lemma NoneDue(items: seq<Item>, now: int)
    ensures CountDue(items[..0], now) == 0
  {
  }

  lemma CountDueStep(items: seq<Item>, now: int, i: nat)
    requires i < |items|
    ensures CountDue(items[..i + 1], now) == CountDue(items[..i], now) + if items[i].IsDue(now) then 1 else 0
  {
    hide Item.IsDue;
    assert items[..i + 1][..i] == items[..i];
  }

  /** When an item is reminded: on the scheduled days, on the due day, and then a full week after the last time. */
  lemma DueMeans(i: Item, now: int)
    requires i.active && i.due.Some? && (i.last.Some? ==> i.last.value <= now)
    ensures var d := Day(i.due.value) - Day(now);
            i.IsDue(now) <==>
              && (i.last.None? || Day(i.last.value) < Day(now))
              && (|| d in {14, 7, 1, 0}
                  || (d < 0 && (i.last.None? || now - i.last.value >= 604_800_000)))
  {
    if i.last.Some? {
      assert Day(i.last.value) <= Day(now);
      WholeDays(now - i.last.value, AFTER_DUE_EVERY_DAYS);
    }
  }

  lemma WholeDays(t: int, n: int)
    ensures t / DAY >= n <==> t >= n * DAY
  {
  }

  // ---------------------------------------------------------------------------
  // Any number of runs
  // ---------------------------------------------------------------------------

  /** The runs come in order of time, and not before the last reminder that is on record. */
  predicate Ordered(i: Item, runs: seq<int>) {
    && (forall j, k :: 0 <= j < k < |runs| ==> runs[j] <= runs[k])
    && (i.last.Some? && runs != [] ==> i.last.value <= runs[0])
  }

  function After(i: Item, runs: seq<int>): Item {
    if runs == [] then i else Remind(After(i, runs[..|runs| - 1]), runs[|runs| - 1])
  }

  /** The times of all reminders: the one on record and those that the runs send. */
  function Reminders(i: Item, runs: seq<int>): seq<int> {
    if runs == [] then if i.last.Some? then [i.last.value] else []
    else
      var before, now := runs[..|runs| - 1], runs[|runs| - 1];
      Reminders(i, before) + if After(i, before).IsDue(now) then [now] else []
  }

  /** The due date and the kind of item stay, the reminders are counted, and the last on record is the last one sent. */
  lemma {:induction false} LastIsRecorded(i: Item, runs: seq<int>)
    ensures var a, times := After(i, runs), Reminders(i, runs);
            && a.due == i.due && a.active == i.active && a.escalates == i.escalates
            && a.last == (if times == [] then None else Some(times[|times| - 1]))
            && a.count == i.count + |times| - (if i.last.Some? then 1 else 0)
            && (!i.escalates ==> a.level == i.level)
  {
    if runs != [] {
      LastIsRecorded(i, runs[..|runs| - 1]);
    }
  }

  lemma {:induction false} RemindersArePast(i: Item, runs: seq<int>, k: nat)
    requires Ordered(i, runs) && runs != [] && k < |Reminders(i, runs)|
    ensures Reminders(i, runs)[k] <= runs[|runs| - 1]
  {
    var n := |runs| - 1;
    if k < |Reminders(i, runs[..n])| && n > 0 {
      RemindersArePast(i, runs[..n], k);
    }
  }

  /** What a run adds to the runs before it. */
  lemma RunAdds(i: Item, runs: seq<int>, n: nat)
    requires Ordered(i, runs) && n < |runs|
    ensures var a, times := After(i, runs[..n]), Reminders(i, runs[..n]);
            && Reminders(i, runs[..n + 1]) == times + (if a.IsDue(runs[n]) then [runs[n]] else [])
            && a.due == i.due && a.active == i.active
            && a.last == (if times == [] then None else Some(times[|times| - 1]))
            && (times != [] ==> times[|times| - 1] <= runs[n])
  {
    assert runs[..n + 1][..n] == runs[..n];
    var times := Reminders(i, runs[..n]);
    LastIsRecorded(i, runs[..n]);
    if times != [] && n > 0 {
      RemindersArePast(i, runs[..n], |times| - 1);
    }
  }

  /**
   * Reminders fall on different UTC days. Ahead of the due day they fall on the scheduled days only,
   * and after it a full week after the one before.
   */
  ghost predicate Spaced(due: int, times: seq<int>) {
    forall k :: 0 < k < |times| ==>
      && Day(times[k - 1]) < Day(times[k])
      && (Day(times[k]) > Day(due) ==> times[k] - times[k - 1] >= AFTER_DUE_EVERY_DAYS * DAY)
      && (Day(times[k]) < Day(due) ==> Scheduled(Day(due) - Day(times[k])))
  }

  lemma SpacedSnoc(due: int, times: seq<int>, now: int)
    requires Spaced(due, times)
    requires times != [] ==>
               && Day(times[|times| - 1]) < Day(now)
               && (Day(now) > Day(due) ==> now - times[|times| - 1] >= AFTER_DUE_EVERY_DAYS * DAY)
               && (Day(now) < Day(due) ==> Scheduled(Day(due) - Day(now)))
    ensures Spaced(due, times + [now])
  {
    hide Day, Scheduled;
  }

  lemma {:induction false} RemindersAreSpaced(i: Item, runs: seq<int>)
    requires Ordered(i, runs) && i.active && i.due.Some?
    ensures Spaced(i.due.value, Reminders(i, runs))
  {
    if runs != [] {
      var n := |runs| - 1;
      RemindersAreSpaced(i, runs[..n]);
      RunAdds(i, runs, n);
      assert runs[..n + 1] == runs;
      hide Ordered, After, Reminders, ReminderDecision, Item.IsDue, Day, Spaced;
      var a, times := After(i, runs[..n]), Reminders(i, runs[..n]);
      DueMeans(a, runs[n]);
      if a.IsDue(runs[n]) {
        SpacedSnoc(i.due.value, times, runs[n]);
      } else {
        assert times + [] == times;
      }
    }
  }

  /** Wherever two reminders stand in the sequence, they are on different days: at most one a day. */
  lemma {:induction false} OneReminderPerDay(i: Item, runs: seq<int>, j: nat, k: nat)
    requires Ordered(i, runs) && i.active && i.due.Some? && j < k < |Reminders(i, runs)|
    ensures Day(Reminders(i, runs)[j]) < Day(Reminders(i, runs)[k])
    decreases k
  {
    RemindersAreSpaced(i, runs);
    if j < k - 1 {
      OneReminderPerDay(i, runs, j, k - 1);
    }
  }

  ghost predicate ReminderBetween(times: seq<int>, from: int, to: int) {
    exists k :: 0 <= k < |times| && from <= times[k] <= to
  }

  lemma {:induction false} RemindersGrow(i: Item, runs: seq<int>, n: nat)
    requires n <= |runs|
    ensures Reminders(i, runs[..n]) <= Reminders(i, runs)
    decreases |runs|
  {
    if n < |runs| {
      RemindersGrow(i, runs[..|runs| - 1], n);
      assert runs[..|runs| - 1][..n] == runs[..n];
    } else {
      assert runs[..n] == runs;
    }
  }

  /** After a run on a scheduled day or on the due day there is a reminder of that day. */
  lemma RunReminds(i: Item, runs: seq<int>, n: nat)
    requires i.active && i.due.Some? && n < |runs|
    requires var d := Day(i.due.value) - Day(runs[n]); d == 0 || Scheduled(d)
    ensures exists k :: 0 <= k < |Reminders(i, runs)| && Day(Reminders(i, runs)[k]) == Day(runs[n])
  {
    var sofar := runs[..n + 1];
    assert sofar[..n] == runs[..n];
    var times := Reminders(i, sofar);
    LastIsRecorded(i, runs[..n]);
    assert times != [] && Day(times[|times| - 1]) == Day(runs[n]);
    RemindersGrow(i, runs, n + 1);
    assert Reminders(i, runs)[|times| - 1] == times[|times| - 1];
  }

  lemma SameDay(last: Option<int>, now: int)
    requires last.Some? && Day(last.value) >= Day(now)
    ensures now - last.value < DAY
  {
  }

  /** Past the due day, a run leaves a last reminder that is less than a week old: its own or an earlier one. */
  lemma LastAfterRun(a: Item, now: int)
    requires a.active && a.due.Some? && (a.last.Some? ==> a.last.value <= now) && Day(now) > Day(a.due.value)
    ensures var last := if a.IsDue(now) then Some(now) else a.last;
            last.Some? && now - last.value < AFTER_DUE_EVERY_DAYS * DAY
  {
    DueMeans(a, now);
    hide ReminderDecision, Item.IsDue;
    if a.last.Some? && Day(a.last.value) >= Day(now) {
      SameDay(a.last, now);
    }
  }

  /** After a run that follows the due day, the last reminder is less than a week old. */
  lemma RunAfterDueReminds(i: Item, runs: seq<int>, n: nat)
    requires Ordered(i, runs) && i.active && i.due.Some? && n < |runs| && Day(runs[n]) > Day(i.due.value)
    ensures ReminderBetween(Reminders(i, runs), runs[n] - AFTER_DUE_EVERY_DAYS * DAY + 1, runs[n])
  {
    hide Ordered, After, Reminders, Item.IsDue, Day, ReminderBetween;
    RunAdds(i, runs, n);
    RemindersGrow(i, runs, n + 1);
    var a, times := After(i, runs[..n]), Reminders(i, runs[..n + 1]);
    LastAfterRun(a, runs[n]);
    LastIsBetween(times, Reminders(i, runs), runs[n] - AFTER_DUE_EVERY_DAYS * DAY + 1, runs[n]);
  }

  lemma LastIsBetween(times: seq<int>, all: seq<int>, from: int, to: int)
    requires times <= all && times != [] && from <= times[|times| - 1] <= to
    ensures ReminderBetween(all, from, to)
  {
    assert all[|times| - 1] == times[|times| - 1];
  }

  /** There is a run on every UTC day of a range. */
  ghost predicate Daily(runs: seq<int>, first: int, last: int) {
    forall d :: first <= d <= last ==> RunsOn(runs, d)
  }

  ghost predicate RunsOn(runs: seq<int>, d: int) {
    exists n :: 0 <= n < |runs| && Day(runs[n]) == d
  }

  /**
   * With a run on every day there is a reminder on the due day, and after any reminder from then on
   * another one no more than eight calendar days later.
   */
  lemma DailyRunsRemind(i: Item, runs: seq<int>, last: int)
    requires Ordered(i, runs) && i.active && i.due.Some? && Daily(runs, Day(i.due.value), last)
    ensures last >= Day(i.due.value) ==>
              exists k :: 0 <= k < |Reminders(i, runs)| && Day(Reminders(i, runs)[k]) == Day(i.due.value)
    ensures forall j :: 0 <= j < |Reminders(i, runs)| && Day(i.due.value) <= Day(Reminders(i, runs)[j]) <= last - 8 ==>
              j + 1 < |Reminders(i, runs)| && Day(Reminders(i, runs)[j + 1]) <= Day(Reminders(i, runs)[j]) + 8
  {
    var due, times := Day(i.due.value), Reminders(i, runs);
    if last >= due {
      assert RunsOn(runs, due);
      var n :| 0 <= n < |runs| && Day(runs[n]) == due;
      RunReminds(i, runs, n);
    }
    forall j | 0 <= j < |times| && due <= Day(times[j]) <= last - 8
      ensures j + 1 < |times| && Day(times[j + 1]) <= Day(times[j]) + 8
    {
      assert RunsOn(runs, Day(times[j]) + 8);
      var n :| 0 <= n < |runs| && Day(runs[n]) == Day(times[j]) + 8;
      NextWithinEight(i, runs, n, j);
    }
  }

  lemma NextWithinEight(i: Item, runs: seq<int>, n: nat, j: nat)
    requires Ordered(i, runs) && i.active && i.due.Some? && n < |runs| && j < |Reminders(i, runs)|
    requires Day(Reminders(i, runs)[j]) >= Day(i.due.value) && Day(runs[n]) == Day(Reminders(i, runs)[j]) + 8
    ensures j + 1 < |Reminders(i, runs)| && Day(Reminders(i, runs)[j + 1]) <= Day(Reminders(i, runs)[j]) + 8
  {
    var times := Reminders(i, runs);
    RunAfterDueReminds(i, runs, n);
    var k :| 0 <= k < |times| && runs[n] - AFTER_DUE_EVERY_DAYS * DAY + 1 <= times[k] <= runs[n];
    assert times[k] > times[j];
    if k < j {
      OneReminderPerDay(i, runs, k, j);
    } else if k > j + 1 {
      OneReminderPerDay(i, runs, j + 1, k);
    }
  }

  /** With an unchanged due date the stored level never falls from run to run. */
  lemma {:induction false} LevelNeverFalls(i: Item, runs: seq<int>, n: nat)
    requires n <= |runs|
    ensures After(i, runs[..n]).level <= After(i, runs).level
    decreases |runs|
  {
    if n < |runs| {
      LevelNeverFalls(i, runs[..|runs| - 1], n);
      assert runs[..|runs| - 1][..n] == runs[..n];
    } else {
      assert runs[..n] == runs;
    }
  }

  /** The level on record is that of the last reminder. */
  predicate LevelCurrent(i: Item) {
    && i.due.Some? && i.escalates
    && i.level == if i.last.None? then 0 else EscalationLevel(DaysOverdue(i.due, i.last.value))
  }

  lemma RemindKeepsLevel(i: Item, now: int)
    requires LevelCurrent(i) && (i.last.Some? ==> i.last.value <= now)
    ensures LevelCurrent(Remind(i, now))
  {
    if i.last.Some? {
      EscalationRises(i.due, i.last.value, now);
    }
    hide DaysOverdue, EscalationLevel;
  }

  lemma {:induction false} LevelIsCurrent(i: Item, runs: seq<int>)
    requires Ordered(i, runs) && LevelCurrent(i)
    ensures LevelCurrent(After(i, runs))
  {
    if runs != [] {
      var n := |runs| - 1;
      LevelIsCurrent(i, runs[..n]);
      LastIsRecorded(i, runs[..n]);
      var a := After(i, runs[..n]);
      if n > 0 && a.last.Some? {
        RemindersArePast(i, runs[..n], |Reminders(i, runs[..n])| - 1);
      }
      hide After, Reminders;
      RemindKeepsLevel(a, runs[n]);
    }
  }

  lemma RunsSnoc(i: Item, runs: seq<int>, now: int)
    ensures After(i, runs + [now]) == Remind(After(i, runs), now)
    ensures Reminders(i, runs + [now]) == Reminders(i, runs) + if After(i, runs).IsDue(now) then [now] else []
  {
    assert (runs + [now])[..|runs|] == runs;
  }

  /** Eight days cannot be improved to seven: it is enough that the run a week later is a little early. */
  lemma GapOfEightDays(i: Item, u: int, v: int)
    requires i.active && i.due.Some? && i.last.Some? && Day(u) > Day(i.due.value)
    requires Day(u) == Day(i.last.value) + 7 && u - i.last.value < AFTER_DUE_EVERY_DAYS * DAY
    requires Day(v) == Day(i.last.value) + 8
    ensures Ordered(i, [u, v]) && Reminders(i, [u, v]) == [i.last.value, v]
  {
    DueMeans(i, u);
    DueMeans(i, v);
    assert v - i.last.value >= AFTER_DUE_EVERY_DAYS * DAY;
    hide ReminderDecision, Item.IsDue, Day;
    RunsSnoc(i, [], u);
    RunsSnoc(i, [u], v);
    assert [] + [u] == [u] && [u] + [v] == [u, v];
    assert After(i, []) == i && Reminders(i, []) == [i.last.value];
    hide After, Reminders;
    assert After(i, [u]) == i && Reminders(i, [u]) == [i.last.value];
  }
}
