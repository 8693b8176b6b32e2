/** The life of an audit engagement, together with the findings raised on it. */
module Engagements {
  import opened Options
  import opened Workflows
  import Findings

  datatype Stage = PLANNING | RISK_ASSESSMENT | PROGRAMME | FIELDWORK | REVIEW | REPORTING | FOLLOW_UP | CLOSED

  datatype Status = ACTIVE | ON_HOLD | CANCELLED | COMPLETED

  datatype Action =
    | StartRiskAssessment | BuildProgramme | StartFieldwork | SubmitForReview | ReturnToFieldwork
    | StartReporting | IssueReport | Close | Cancel | UnknownAction

  datatype Guard =
    | HasObjectivesAndScope | HasLead | ProgrammeApproved | AllWorkpapersPrepared | AllWorkpapersSignedOff
    | NoOpenReviewNotes | AllFindingsAgreedOrAccepted | AllFindingsOwnedAndSubmitted

  const ENGAGEMENT_WORKFLOW: Machine<Stage, Action, Guard> := Machine(PLANNING, [CLOSED], [
    Transition(PLANNING, RISK_ASSESSMENT, StartRiskAssessment, "engagement:advance_stage",
               [HasObjectivesAndScope, HasLead]),
    Transition(RISK_ASSESSMENT, PROGRAMME, BuildProgramme, "engagement:advance_stage", []),
    Transition(PROGRAMME, FIELDWORK, StartFieldwork, "engagement:advance_stage", [ProgrammeApproved]),
    Transition(FIELDWORK, REVIEW, SubmitForReview, "engagement:advance_stage", [AllWorkpapersPrepared]),
    Transition(REVIEW, FIELDWORK, ReturnToFieldwork, "workpaper:review", []),
    Transition(REVIEW, REPORTING, StartReporting, "engagement:advance_stage",
               [AllWorkpapersSignedOff, NoOpenReviewNotes]),
    Transition(REPORTING, FOLLOW_UP, IssueReport, "engagement:issue_report", [AllFindingsAgreedOrAccepted]),
    Transition(FOLLOW_UP, CLOSED, Close, "engagement:close", [AllFindingsOwnedAndSubmitted]),
    Transition(PLANNING, CLOSED, Cancel, "engagement:close", [])])

  datatype Plan = Plan(objectives: Findings.Text, scope: Findings.Text, leadId: Option<nat>)

  datatype Engagement = Engagement(
    stage: Stage, status: Status, plan: Plan, actualStart: Option<int>, actualEnd: Option<int>,
    reportIssuedAt: Option<int>, reportDocumentId: Option<nat>, history: seq<Change<Stage>>,
    findings: seq<Findings.Finding>)

  /** What an edit sets: `None` leaves a field alone, `Some(None)` clears it. */
  datatype Edit = Edit(
    objectives: Option<Findings.Text>, scope: Option<Findings.Text>, leadId: Option<Option<nat>>,
    actualStart: Option<Option<int>>, actualEnd: Option<Option<int>>, status: Option<Status>,
    reportDocumentId: Option<Option<nat>>)

  /** Counts that guards look up elsewhere. */
  datatype Facts = Facts(approvedProgrammes: nat, workpapers: nat, drafts: nat, unsigned: nat, openNotes: nat)

  datatype Event =
    | Update(edit: Edit, documentIsOwn: bool)
    | Transit(action: Action, user: nat, permissions: set<string>, facts: Facts, now: int)
    | AddFinding(finding: Findings.Finding, valid: bool)
    | OnFinding(index: nat, event: Findings.Event)

  predicate GuardHolds(e: Engagement, facts: Facts, g: Guard) {
    match g
    case HasObjectivesAndScope => !Findings.IsBlank(e.plan.objectives) && !Findings.IsBlank(e.plan.scope)
    case HasLead => e.plan.leadId.Some?
    case ProgrammeApproved => facts.approvedProgrammes > 0
    case AllWorkpapersPrepared => facts.workpapers > 0 && facts.drafts == 0
    case AllWorkpapersSignedOff => facts.workpapers > 0 && facts.unsigned == 0
    case NoOpenReviewNotes => facts.openNotes == 0
    case AllFindingsAgreedOrAccepted =>
      forall f :: f in e.findings ==> f.status !in {Findings.DRAFT, Findings.MANAGEMENT_REVIEW}
    case AllFindingsOwnedAndSubmitted =>
      forall f :: f in e.findings ==> Findings.HasOwner(f) && f.status != Findings.DRAFT
  }

  function ActorOf(e: Engagement, x: Event): Actor<Guard>
    requires x.Transit?
  {
    Actor(x.user, x.permissions, g => GuardHolds(e, x.facts, g))
  }

  function Attempted(e: Engagement, x: Event): Reply<Stage, Action, Guard>
    requires x.Transit?
  {
    Attempt(ENGAGEMENT_WORKFLOW, e.stage, x.action, ActorOf(e, x), [])
  }

  predicate Does(e: Engagement, x: Event, action: Action) {
    x.Transit? && x.action == action && Attempted(e, x).Accepted?
  }

  // ---------------------------------------------------------------------------
  // Each step as a function
  // ---------------------------------------------------------------------------

  predicate UpdateAccepted(e: Engagement, x: Event)
    requires x.Update?
  {
    && (x.edit.reportDocumentId.Some? ==>
          e.stage != CLOSED && (x.edit.reportDocumentId.value.Some? ==> x.documentIsOwn))
    && (x.edit.status.Some? ==> x.edit.status.value in {ACTIVE, ON_HOLD})
  }

  function Edited(e: Engagement, d: Edit): Engagement {
    e.(plan := Plan(Findings.Set(d.objectives, e.plan.objectives), Findings.Set(d.scope, e.plan.scope),
                    Findings.Set(d.leadId, e.plan.leadId)),
       actualStart := Findings.Set(d.actualStart, e.actualStart), actualEnd := Findings.Set(d.actualEnd, e.actualEnd),
       status := Findings.Set(d.status, e.status),
       reportDocumentId := Findings.Set(d.reportDocumentId, e.reportDocumentId))
  }

  function Moved(e: Engagement, action: Action, to: Stage, user: nat, now: int): Engagement {
    var change := Change(Some(e.stage), to, user);
    var g := e.(stage := to, history := e.history + [change]);
    match action
    case StartFieldwork => g.(actualStart := if e.actualStart.None? then Some(now) else e.actualStart)
    case IssueReport => g.(reportIssuedAt := Some(now))
    case Close => g.(status := COMPLETED, actualEnd := if e.actualEnd.Some? then e.actualEnd else Some(now))
    case Cancel => g.(status := CANCELLED, actualEnd := Some(now))
    case _ => g
  }

  function Next(e: Engagement, x: Event): Engagement {
    match x
    case Update(edit, _) => if UpdateAccepted(e, x) then Edited(e, edit) else e
    case Transit(action, user, _, _, now) =>
      var r := Attempted(e, x);
      if r.Accepted? then Moved(e, action, r.transition.to, user, now) else e
    case AddFinding(finding, valid) =>
      if e.stage != CLOSED && valid && Findings.IsNew(finding) then e.(findings := e.findings + [finding]) else e
    case OnFinding(index, event) =>
      if index < |e.findings| then e.(findings := e.findings[index := Findings.Next(e.findings[index], event)]) else e
  }

  function Run(e: Engagement, xs: seq<Event>): Engagement
    decreases |xs|
  {
    if xs == [] then e else Next(Run(e, xs[..|xs| - 1]), xs[|xs| - 1])
  }

  predicate IsNew(e: Engagement) {
    && e.stage == PLANNING && e.status == ACTIVE && e.reportIssuedAt.None? && e.reportDocumentId.None?
    && e.findings == [] && |e.history| == 1 && e.history[0].from.None? && e.history[0].to == PLANNING
  }

  // ---------------------------------------------------------------------------
  // What transitions and edits come to
  // ---------------------------------------------------------------------------

  /** What an action needs: the stage, the permission, and what must be on record. */
  predicate MayDo(e: Engagement, action: Action, permissions: set<string>, facts: Facts) {
    match action
    case StartRiskAssessment =>
      && e.stage == PLANNING && "engagement:advance_stage" in permissions
      && !Findings.IsBlank(e.plan.objectives) && !Findings.IsBlank(e.plan.scope) && e.plan.leadId.Some?
    case BuildProgramme => e.stage == RISK_ASSESSMENT && "engagement:advance_stage" in permissions
    case StartFieldwork =>
      e.stage == PROGRAMME && "engagement:advance_stage" in permissions && facts.approvedProgrammes > 0
    case SubmitForReview =>
      && e.stage == FIELDWORK && "engagement:advance_stage" in permissions
      && facts.workpapers > 0 && facts.drafts == 0
    case ReturnToFieldwork => e.stage == REVIEW && "workpaper:review" in permissions
    case StartReporting =>
      && e.stage == REVIEW && "engagement:advance_stage" in permissions
      && facts.workpapers > 0 && facts.unsigned == 0 && facts.openNotes == 0
    case IssueReport =>
      && e.stage == REPORTING && "engagement:issue_report" in permissions
      && forall f :: f in e.findings ==> f.status != Findings.DRAFT && f.status != Findings.MANAGEMENT_REVIEW
    case Close =>
      && e.stage == FOLLOW_UP && "engagement:close" in permissions
      && forall f :: f in e.findings ==>
           && f.status != Findings.DRAFT
           && (f.owner.id.Some? || !Findings.IsBlank(f.owner.name) || !Findings.IsBlank(f.owner.email))
    case Cancel => e.stage == PLANNING && "engagement:close" in permissions
    case UnknownAction => false
  }

  /** The row after an accepted transition, field by field. */
  predicate IsMoved(e: Engagement, g: Engagement, action: Action, user: nat, now: int) {
    && Leads(action, e.stage, g.stage)
    && g.history == e.history + [Change(Some(e.stage), g.stage, user)]
    && g.status == (if action == Close then COMPLETED else if action == Cancel then CANCELLED else e.status)
    && g.actualStart == (if action == StartFieldwork && e.actualStart.None? then Some(now) else e.actualStart)
    && g.actualEnd == (if action == Cancel || (action == Close && e.actualEnd.None?) then Some(now) else e.actualEnd)
    && g.reportIssuedAt == (if action == IssueReport then Some(now) else e.reportIssuedAt)
    && g.plan == e.plan && g.reportDocumentId == e.reportDocumentId && g.findings == e.findings
  }

  /** The row after an accepted edit, field by field. */
  predicate IsEdited(e: Engagement, g: Engagement, d: Edit) {
    && g.plan.objectives == (if d.objectives.Some? then d.objectives.value else e.plan.objectives)
    && g.plan.scope == (if d.scope.Some? then d.scope.value else e.plan.scope)
    && g.plan.leadId == (if d.leadId.Some? then d.leadId.value else e.plan.leadId)
    && g.actualStart == (if d.actualStart.Some? then d.actualStart.value else e.actualStart)
    && g.actualEnd == (if d.actualEnd.Some? then d.actualEnd.value else e.actualEnd)
    && g.status == (if d.status.Some? then d.status.value else e.status)
    && g.reportDocumentId == (if d.reportDocumentId.Some? then d.reportDocumentId.value else e.reportDocumentId)
    && g.stage == e.stage && g.reportIssuedAt == e.reportIssuedAt && g.history == e.history
    && g.findings == e.findings
  }

  /** Row `k` of the table decides on its action. */
  lemma RowDecides(e: Engagement, x: Event, k: nat)
    requires x.Transit? && k < |ENGAGEMENT_WORKFLOW.transitions|
    requires x.action == ENGAGEMENT_WORKFLOW.transitions[k].action
    ensures var t := ENGAGEMENT_WORKFLOW.transitions[k];
            Attempted(e, x).Accepted? <==>
              && e.stage == t.from && t.permission in x.permissions
              && forall g :: g in t.guards ==> GuardHolds(e, x.facts, g)
  {
    var t := ENGAGEMENT_WORKFLOW.transitions[k];
    WorkflowIsUnambiguous();
    AttemptMeans(ENGAGEMENT_WORKFLOW, e.stage, x.action, ActorOf(e, x), []);
    assert t.guards + [] == t.guards;
    if Attempted(e, x).Accepted? {
      AcceptedLeads(e, x);
      TableLeads(t);
    }
    hide Attempt, ENGAGEMENT_WORKFLOW, GuardHolds;
  }

  lemma RowOfOne(e: Engagement, x: Event, k: nat, a: Guard)
    requires x.Transit? && k < |ENGAGEMENT_WORKFLOW.transitions|
    requires x.action == ENGAGEMENT_WORKFLOW.transitions[k].action && ENGAGEMENT_WORKFLOW.transitions[k].guards == [a]
    ensures var t := ENGAGEMENT_WORKFLOW.transitions[k];
            Attempted(e, x).Accepted? <==>
              e.stage == t.from && t.permission in x.permissions && GuardHolds(e, x.facts, a)
  {
    RowDecides(e, x, k);
    hide Attempted, GuardHolds;
    assert a in [a];
  }

  lemma RowOfTwo(e: Engagement, x: Event, k: nat, a: Guard, b: Guard)
    requires x.Transit? && k < |ENGAGEMENT_WORKFLOW.transitions|
    requires x.action == ENGAGEMENT_WORKFLOW.transitions[k].action
    requires ENGAGEMENT_WORKFLOW.transitions[k].guards == [a, b]
    ensures var t := ENGAGEMENT_WORKFLOW.transitions[k];
            Attempted(e, x).Accepted? <==>
              && e.stage == t.from && t.permission in x.permissions
              && GuardHolds(e, x.facts, a) && GuardHolds(e, x.facts, b)
  {
    RowDecides(e, x, k);
    hide Attempted, GuardHolds;
    var gs := [a, b];
    assert gs[0] in gs && gs[1] in gs;
  }

  /** A transition is accepted exactly if its action may be done. */
  lemma AcceptedExactly(e: Engagement, x: Event)
    requires x.Transit?
    ensures Attempted(e, x).Accepted? <==> MayDo(e, x.action, x.permissions, x.facts)
  {
    hide Attempted, Findings.IsBlank;
    match x.action
    case StartRiskAssessment => RowOfTwo(e, x, 0, HasObjectivesAndScope, HasLead);
    case BuildProgramme => RowDecides(e, x, 1);
    case StartFieldwork => RowOfOne(e, x, 2, ProgrammeApproved);
    case SubmitForReview => RowOfOne(e, x, 3, AllWorkpapersPrepared);
    case ReturnToFieldwork => RowDecides(e, x, 4);
    case StartReporting => RowOfTwo(e, x, 5, AllWorkpapersSignedOff, NoOpenReviewNotes);
    case IssueReport => RowOfOne(e, x, 6, AllFindingsAgreedOrAccepted);
    case Close => RowOfOne(e, x, 7, AllFindingsOwnedAndSubmitted);
    case Cancel => RowDecides(e, x, 8);
    case UnknownAction =>
      if Attempted(e, x).Accepted? {
        AcceptedLeads(e, x);
      }
  }

  // ---------------------------------------------------------------------------
  // The service
  // ---------------------------------------------------------------------------

  class EngagementRecord {
    var row: Engagement

    constructor (plan: Plan, user: nat)
      ensures IsNew(row) && row.plan == plan && row.actualStart == row.actualEnd == None
      ensures row.history == [Change(None, PLANNING, user)]
    {
      row := Engagement(PLANNING, ACTIVE, plan, None, None, None, None, [Change(None, PLANNING, user)], []);
    }

    method UpdateEngagement(edit: Edit, documentIsOwn: bool) returns (ok: bool)
      modifies this
      ensures row == Next(old(row), Update(edit, documentIsOwn))
      ensures ok <==>
                && (edit.reportDocumentId.None? ||
                    (old(row).stage != CLOSED && (edit.reportDocumentId.value.None? || documentIsOwn)))
                && (edit.status.None? || edit.status.value == ACTIVE || edit.status.value == ON_HOLD)
      ensures if ok then IsEdited(old(row), row, edit) else row == old(row)
    {
      if edit.reportDocumentId.Some? {
        if row.stage == CLOSED {
          return false;
        }
        if edit.reportDocumentId.value.Some? && !documentIsOwn {
          return false;
        }
      }
      if edit.status.Some? && edit.status.value !in {ACTIVE, ON_HOLD} {
        return false;
      }
      row := Edited(row, edit);
      ok := true;
    }

    method TransitionEngagement(action: Action, user: nat, permissions: set<string>, facts: Facts, now: int)
      returns (r: Reply<Stage, Action, Guard>)
      modifies this
      ensures r == Attempted(old(row), Event.Transit(action, user, permissions, facts, now))
      ensures row == Next(old(row), Event.Transit(action, user, permissions, facts, now))
      ensures r.Accepted? <==> MayDo(old(row), action, permissions, facts)
      ensures if r.Accepted? then IsMoved(old(row), row, action, user, now) else row == old(row)
    {
      ghost var x := Event.Transit(action, user, permissions, facts, now);
      var e := row;
      var actor := Actor(user, permissions, g => GuardHolds(e, facts, g));
      assert actor == ActorOf(e, x);
      hide GuardHolds;
      r := Workflows.Transit(ENGAGEMENT_WORKFLOW, e.stage, action, actor, []);
      hide Attempt, ENGAGEMENT_WORKFLOW;
      AcceptedExactly(e, x);
      hide MayDo;
      if !r.Accepted? {
        return;
      }
      var data := e.(stage := r.transition.to);
      match action {
        case StartFieldwork =>
          if e.actualStart.None? {
            data := data.(actualStart := Some(now));
          }
        case IssueReport =>
          data := data.(reportIssuedAt := Some(now));
        case Close =>
          data := data.(status := COMPLETED, actualEnd := if e.actualEnd.Some? then e.actualEnd else Some(now));
        case Cancel =>
          data := data.(status := CANCELLED, actualEnd := Some(now));
        case _ =>
      }
      row := data.(history := e.history + [Change(Some(e.stage), r.transition.to, user)]);
      AcceptedLeads(e, x);
    }

    /** Raising a finding. `valid`: the owner, workpaper and earlier finding that it names exist. */
    method CreateFinding(texts: Findings.Texts, owner: Findings.Owner, dueDate: Option<int>, user: nat, valid: bool)
      returns (ok: bool)
      modifies this
      ensures row == Next(old(row), AddFinding(Findings.Created(texts, owner, dueDate, user), valid))
      ensures ok <==> old(row).stage != CLOSED && valid
      ensures !ok ==> row == old(row)
      ensures ok ==>
                var n := |old(row).findings|;
                && |row.findings| == n + 1 && row == old(row).(findings := row.findings)
                && row.findings[..n] == old(row).findings
                && var f := row.findings[n];
                   && f.status == Findings.DRAFT && f.texts == texts.(managementResponse := None) && f.owner == owner
                   && f.dueDate == dueDate && f.originalDueDate == f.agreedAt == f.closedAt == None
                   && f.history == [Change(None, Findings.DRAFT, user)]
    {
      if row.stage == CLOSED || !valid {
        return false;
      }
      row := row.(findings := row.findings + [Findings.Created(texts, owner, dueDate, user)]);
      ok := true;
    }
  }

  // ---------------------------------------------------------------------------
  // The stages that an engagement has gone through
  // ---------------------------------------------------------------------------

  function Stages(history: seq<Change<Stage>>): (s: seq<Stage>)
    ensures |s| == |history|
  {
    seq(|history|, i requires 0 <= i < |history| => history[i].to)
  }

  /** `n` rounds of fieldwork and review. */
  function Rounds(n: nat): (s: seq<Stage>)
    ensures |s| == 2 * n
  {
    if n == 0 then [] else Rounds(n - 1) + [FIELDWORK, REVIEW]
  }

  /** The way to a stage that skips nothing and repeats fieldwork and review `n` times. */
  function Way(stage: Stage, n: nat): seq<Stage> {
    match stage
    case PLANNING => [PLANNING]
    case RISK_ASSESSMENT => [PLANNING, RISK_ASSESSMENT]
    case PROGRAMME => [PLANNING, RISK_ASSESSMENT, PROGRAMME]
    case FIELDWORK => [PLANNING, RISK_ASSESSMENT, PROGRAMME] + Rounds(n) + [FIELDWORK]
    case REVIEW => [PLANNING, RISK_ASSESSMENT, PROGRAMME] + Rounds(n + 1)
    case REPORTING => [PLANNING, RISK_ASSESSMENT, PROGRAMME] + Rounds(n + 1) + [REPORTING]
    case FOLLOW_UP => [PLANNING, RISK_ASSESSMENT, PROGRAMME] + Rounds(n + 1) + [REPORTING, FOLLOW_UP]
    case CLOSED => [PLANNING, RISK_ASSESSMENT, PROGRAMME] + Rounds(n + 1) + [REPORTING, FOLLOW_UP, CLOSED]
  }

  ghost predicate WentThrough(stages: seq<Stage>, stage: Stage) {
    exists n: nat :: stages == Way(stage, n)
  }

  ghost predicate Cancelled(stages: seq<Stage>, stage: Stage) {
    stage == CLOSED && stages == [PLANNING, CLOSED]
  }

  predicate Leads(action: Action, from: Stage, to: Stage) {
    match action
    case StartRiskAssessment => from == PLANNING && to == RISK_ASSESSMENT
    case BuildProgramme => from == RISK_ASSESSMENT && to == PROGRAMME
    case StartFieldwork => from == PROGRAMME && to == FIELDWORK
    case SubmitForReview => from == FIELDWORK && to == REVIEW
    case ReturnToFieldwork => from == REVIEW && to == FIELDWORK
    case StartReporting => from == REVIEW && to == REPORTING
    case IssueReport => from == REPORTING && to == FOLLOW_UP
    case Close => from == FOLLOW_UP && to == CLOSED
    case Cancel => from == PLANNING && to == CLOSED
    case UnknownAction => false
  }

  lemma TableLeads(t: Transition<Stage, Action, Guard>)
    requires t in ENGAGEMENT_WORKFLOW.transitions
    ensures Leads(t.action, t.from, t.to)
    ensures t.action == IssueReport ==> AllFindingsAgreedOrAccepted in t.guards
    ensures t.action == Close ==> AllFindingsOwnedAndSubmitted in t.guards
  {
  }

  lemma AcceptedLeads(e: Engagement, x: Event)
    requires x.Transit? && Attempted(e, x).Accepted?
    ensures Leads(x.action, e.stage, Attempted(e, x).transition.to)
  {
    hide ENGAGEMENT_WORKFLOW, Attempt, Leads, ActorOf;
    AcceptedMeans(ENGAGEMENT_WORKFLOW, e.stage, x.action, ActorOf(e, x), []);
    TableLeads(Attempted(e, x).transition);
  }

  /** A report is issued only once management has agreed, or accepted the risk of, every finding. */
  lemma ReportNeedsAgreement(e: Engagement, x: Event)
    requires Does(e, x, IssueReport)
    ensures forall f :: f in e.findings ==> f.status !in {Findings.DRAFT, Findings.MANAGEMENT_REVIEW}
  {
    hide ENGAGEMENT_WORKFLOW, Attempt, Findings.HasOwner, Findings.IsBlank;
    AcceptedMeans(ENGAGEMENT_WORKFLOW, e.stage, x.action, ActorOf(e, x), []);
    TableLeads(Attempted(e, x).transition);
    assert ActorOf(e, x).holds(AllFindingsAgreedOrAccepted);
  }

  /** An engagement closes only once every finding is owned and none is a draft. */
  lemma CloseNeedsOwners(e: Engagement, x: Event)
    requires Does(e, x, Close)
    ensures forall f :: f in e.findings ==> Findings.HasOwner(f) && f.status != Findings.DRAFT
  {
    hide ENGAGEMENT_WORKFLOW, Attempt, Findings.HasOwner, Findings.IsBlank;
    AcceptedMeans(ENGAGEMENT_WORKFLOW, e.stage, x.action, ActorOf(e, x), []);
    TableLeads(Attempted(e, x).transition);
    assert ActorOf(e, x).holds(AllFindingsOwnedAndSubmitted);
  }

  lemma WayOn(stages: seq<Stage>, action: Action, from: Stage, to: Stage)
    requires WentThrough(stages, from) && Leads(action, from, to)
    ensures if action == Cancel then Cancelled(stages + [to], to) else WentThrough(stages + [to], to)
  {
    var n: nat :| stages == Way(from, n);
    assert Rounds(n + 1) == Rounds(n) + [FIELDWORK, REVIEW];
    hide Rounds;
    if action == ReturnToFieldwork {
      assert stages + [to] == Way(FIELDWORK, n + 1);
    } else if action == StartFieldwork {
      NoRounds();
      assert stages + [to] == Way(FIELDWORK, 0);
    } else if action != Cancel {
      assert stages + [to] == Way(to, n);
    }
  }

  lemma NoRounds()
    ensures Rounds(0) == []
  {
  }

  lemma StagesSnoc(history: seq<Change<Stage>>, change: Change<Stage>)
    ensures Stages(history + [change]) == Stages(history) + [change.to]
  {
  }

  /** The report is out: the engagement is being followed up, or was closed after that. */
  predicate IsReported(e: Engagement) {
    e.stage == FOLLOW_UP || (e.stage == CLOSED && |e.history| > 2)
  }

  ghost predicate Consistent(e: Engagement) {
    && IsChain(e.history, PLANNING, e.stage)
    && (WentThrough(Stages(e.history), e.stage) || Cancelled(Stages(e.history), e.stage))
    && (e.status in {COMPLETED, CANCELLED} ==> e.stage == CLOSED)
    && (e.reportIssuedAt.Some? <==> IsReported(e))
  }

  lemma WayLength(stages: seq<Stage>, stage: Stage)
    requires WentThrough(stages, stage) && stage !in {PLANNING, RISK_ASSESSMENT}
    ensures |stages| > 2
  {
  }

  lemma MovedIsConsistent(e: Engagement, action: Action, to: Stage, user: nat, now: int)
    requires Consistent(e) && Leads(action, e.stage, to)
    ensures Consistent(Moved(e, action, to, user, now))
  {
    hide WentThrough;
    ChainSnoc(e.history, PLANNING, e.stage, to, user);
    StagesSnoc(e.history, Change(Some(e.stage), to, user));
    WayOn(Stages(e.history), action, e.stage, to);
    hide IsChain, Stages;
    if e.stage !in {PLANNING, RISK_ASSESSMENT} {
      WayLength(Stages(e.history), e.stage);
    }
    if e.stage == PLANNING {
      PlanningIsFirst(Stages(e.history));
    }
  }

  lemma PlanningIsFirst(stages: seq<Stage>)
    requires WentThrough(stages, PLANNING)
    ensures stages == [PLANNING]
  {
  }

  lemma NextIsConsistent(e: Engagement, x: Event)
    requires Consistent(e)
    ensures Consistent(Next(e, x))
  {
    hide IsChain, Attempted, Moved, WentThrough, Cancelled, Leads, Stages, Findings.Next, Findings.IsNew;
    if x.Transit? && Attempted(e, x).Accepted? {
      AcceptedLeads(e, x);
      MovedIsConsistent(e, x.action, Attempted(e, x).transition.to, x.user, x.now);
    }
  }

  /**
   * In every state that a new engagement can reach: the stage history is a chain from planning to the current stage;
   * it goes through every stage in order, with only fieldwork and review repeated, or is a cancellation straight from
   * planning; a completed or cancelled engagement is closed; and the issue date is set exactly once the report is out.
   */
  lemma {:induction false} RunIsConsistent(e: Engagement, xs: seq<Event>)
    requires IsNew(e)
    ensures Consistent(Run(e, xs))
    decreases |xs|
  {
    if xs == [] {
      assert Stages(e.history) == Way(PLANNING, 0);
    } else {
      RunIsConsistent(e, xs[..|xs| - 1]);
      hide Consistent, IsNew, Next;
      NextIsConsistent(Run(e, xs[..|xs| - 1]), xs[|xs| - 1]);
    }
  }

  // ---------------------------------------------------------------------------
  // The report is issued once
  // ---------------------------------------------------------------------------

  /** The steps of a run that issue the report. */
  function Issues(e: Engagement, xs: seq<Event>): (ks: seq<nat>)
    ensures forall i :: 0 <= i < |ks| ==> ks[i] < |xs|
    decreases |xs|
  {
    if xs == [] then []
    else
      var n := |xs| - 1;
      Issues(e, xs[..n]) + if Does(Run(e, xs[..n]), xs[n], IssueReport) then [n] else []
  }

  lemma IssueIsRecorded(e: Engagement, x: Event)
    requires Consistent(e) && Does(e, x, IssueReport)
    ensures e.reportIssuedAt.None? && Next(e, x).reportIssuedAt == Some(x.now)
  {
    hide IsChain, Attempted, WentThrough, Stages;
    AcceptedLeads(e, x);
  }

  lemma IssueStays(e: Engagement, x: Event)
    requires !Does(e, x, IssueReport)
    ensures Next(e, x).reportIssuedAt == e.reportIssuedAt
  {
    hide Attempted, Findings.Next, Findings.IsNew;
  }

  /** The issue date is that of the one step that issued the report; a report is never issued twice. */
  lemma {:induction false} ReportIssuedOnce(e: Engagement, xs: seq<Event>)
    requires IsNew(e)
    ensures var t, ks := Run(e, xs), Issues(e, xs);
            if t.reportIssuedAt.Some? then |ks| == 1 && xs[ks[0]].Transit? && t.reportIssuedAt == Some(xs[ks[0]].now)
            else ks == []
    decreases |xs|
  {
    if xs != [] {
      var n := |xs| - 1;
      var s := Run(e, xs[..n]);
      ReportIssuedOnce(e, xs[..n]);
      RunIsConsistent(e, xs[..n]);
      if Does(s, xs[n], IssueReport) {
        IssueIsRecorded(s, xs[n]);
      } else {
        IssueStays(s, xs[n]);
      }
      hide Next, Does, Consistent;
    }
  }

  // ---------------------------------------------------------------------------
  // After closing
  // ---------------------------------------------------------------------------

  /** Same stages, same report, and the same findings, each changed only by its own steps. */
  ghost predicate Frozen(e: Engagement, t: Engagement) {
    && t.stage == e.stage == CLOSED && t.history == e.history
    && t.reportDocumentId == e.reportDocumentId && t.reportIssuedAt == e.reportIssuedAt
    && |t.findings| == |e.findings|
    && forall i :: 0 <= i < |e.findings| ==> Evolves(e.findings[i], t.findings[i])
  }

  ghost predicate Evolves(f: Findings.Finding, g: Findings.Finding) {
    exists es :: g == Findings.Run(f, es)
  }

  lemma EvolvesStep(f: Findings.Finding, g: Findings.Finding, x: Findings.Event)
    requires Evolves(f, g)
    ensures Evolves(f, Findings.Next(g, x))
  {
    hide Findings.Next;
    var es :| g == Findings.Run(f, es);
    assert (es + [x])[..|es|] == es;
    assert Findings.Next(g, x) == Findings.Run(f, es + [x]);
  }

  lemma EvolvesNot(f: Findings.Finding)
    ensures Evolves(f, f)
  {
    assert f == Findings.Run(f, []);
  }

  lemma NextIsFrozen(e: Engagement, t: Engagement, x: Event)
    requires Frozen(e, t)
    ensures Frozen(e, Next(t, x))
  {
    hide Attempted, Evolves, Findings.Next, Findings.IsNew;
    if x.Transit? && Attempted(t, x).Accepted? {
      AcceptedLeads(t, x);
    }
    if x.OnFinding? && x.index < |t.findings| {
      EvolvesStep(e.findings[x.index], t.findings[x.index], x.event);
    }
  }

  /** Once closed, an engagement gets no further stage, report or finding, whatever happens. */
  lemma {:induction false} ClosedIsFrozen(e: Engagement, xs: seq<Event>)
    requires e.stage == CLOSED
    ensures Frozen(e, Run(e, xs))
    decreases |xs|
  {
    hide Next, Evolves;
    if xs == [] {
      forall i | 0 <= i < |e.findings|
        ensures Evolves(e.findings[i], e.findings[i])
      {
        EvolvesNot(e.findings[i]);
      }
    } else {
      ClosedIsFrozen(e, xs[..|xs| - 1]);
      NextIsFrozen(e, Run(e, xs[..|xs| - 1]), xs[|xs| - 1]);
    }
  }

  predicate EditsStatus(e: Engagement, x: Event) {
    x.Update? && UpdateAccepted(e, x) && x.edit.status.Some?
  }

  /** An edit may set a closed engagement active or on hold again; nothing else takes its final status away. */
  lemma StatusOfClosed(e: Engagement, x: Event)
    requires e.stage == CLOSED && e.status in {COMPLETED, CANCELLED}
    ensures Next(e, x).status in {COMPLETED, CANCELLED} <==> !EditsStatus(e, x)
  {
    hide Attempted, Findings.Next, Findings.IsNew;
    if x.Transit? && Attempted(e, x).Accepted? {
      AcceptedLeads(e, x);
    }
  }

  /** Some step edited the status of the engagement when it was already closed. */
  predicate ReopenedBy(e: Engagement, xs: seq<Event>)
    decreases |xs|
  {
    xs != [] &&
    var n := |xs| - 1;
    var s := Run(e, xs[..n]);
    s.stage == CLOSED && (ReopenedBy(e, xs[..n]) || EditsStatus(s, xs[n]))
  }

  lemma ClosingIsFinal(e: Engagement, x: Event)
    requires e.stage != CLOSED && Next(e, x).stage == CLOSED
    ensures Next(e, x).status in {COMPLETED, CANCELLED}
  {
    hide Attempted, Findings.Next, Findings.IsNew;
    if x.Transit? && Attempted(e, x).Accepted? {
      AcceptedLeads(e, x);
    }
  }

  lemma ReopenedStays(e: Engagement, x: Event)
    requires e.stage == CLOSED && e.status !in {COMPLETED, CANCELLED}
    ensures Next(e, x).status !in {COMPLETED, CANCELLED}
  {
    hide Attempted, Findings.Next, Findings.IsNew;
    if x.Transit? && Attempted(e, x).Accepted? {
      AcceptedLeads(e, x);
    }
  }

  /** In every run: a closed engagement has a final status exactly if no edit has changed its status since it closed. */
  lemma {:induction false} FinalUnlessReopened(e: Engagement, xs: seq<Event>)
    requires IsNew(e) && Run(e, xs).stage == CLOSED
    ensures Run(e, xs).status in {COMPLETED, CANCELLED} <==> !ReopenedBy(e, xs)
    decreases |xs|
  {
    var n := |xs| - 1;
    var s := Run(e, xs[..n]);
    assert Run(e, xs) == Next(s, xs[n]);
    hide Next, EditsStatus;
    if s.stage != CLOSED {
      ClosingIsFinal(s, xs[n]);
    } else {
      FinalUnlessReopened(e, xs[..n]);
      if s.status in {COMPLETED, CANCELLED} {
        StatusOfClosed(s, xs[n]);
      } else {
        ReopenedStays(s, xs[n]);
      }
    }
  }

  lemma ClosingSetsStatus(e: Engagement, x: Event)
    requires Consistent(e) && e.stage != CLOSED && Next(e, x).stage == CLOSED
    ensures Next(e, x).status == if Next(e, x).reportIssuedAt.Some? then COMPLETED else CANCELLED
  {
    hide Attempted, IsChain, WentThrough, Stages, Findings.Next, Findings.IsNew;
    if x.Transit? && Attempted(e, x).Accepted? {
      AcceptedLeads(e, x);
    }
  }

  lemma ClosedKeepsStatus(e: Engagement, x: Event)
    requires e.stage == CLOSED && !EditsStatus(e, x)
    ensures Next(e, x).status == e.status && Next(e, x).reportIssuedAt == e.reportIssuedAt
  {
    hide Attempted, Findings.Next, Findings.IsNew;
    if x.Transit? && Attempted(e, x).Accepted? {
      AcceptedLeads(e, x);
    }
  }

  /** In every run: an engagement that was closed and not reopened is completed if its report is out, else cancelled. */
  lemma {:induction false} CompletedIfReported(e: Engagement, xs: seq<Event>)
    requires IsNew(e) && Run(e, xs).stage == CLOSED && !ReopenedBy(e, xs)
    ensures Run(e, xs).status == if Run(e, xs).reportIssuedAt.Some? then COMPLETED else CANCELLED
    decreases |xs|
  {
    var n := |xs| - 1;
    var s := Run(e, xs[..n]);
    assert Run(e, xs) == Next(s, xs[n]);
    RunIsConsistent(e, xs[..n]);
    hide Next, EditsStatus, Consistent;
    if s.stage != CLOSED {
      ClosingSetsStatus(s, xs[n]);
    } else {
      CompletedIfReported(e, xs[..n]);
      ClosedKeepsStatus(s, xs[n]);
    }
  }

  /** Any new engagement can be cancelled and then set active again: a closed one need not have a final status. */
  lemma ClosedCanBeActive(e: Engagement, cancel: Event, activate: Event)
    requires IsNew(e)
    requires cancel.Transit? && cancel.action == Cancel && cancel.permissions == {"engagement:close"}
    requires activate.Update? && activate.edit.reportDocumentId.None? && activate.edit.status == Some(ACTIVE)
    ensures Run(e, [cancel, activate]).stage == CLOSED && Run(e, [cancel, activate]).status == ACTIVE
  {
    hide Attempted, Next;
    CancelWorks(e, cancel);
    CancelCloses(e, cancel);
    Reactivates(Next(e, cancel), activate);
    RunTwo(e, cancel, activate);
  }

  lemma CancelCloses(e: Engagement, x: Event)
    requires Does(e, x, Cancel) && Attempted(e, x).transition.to == CLOSED
    ensures Next(e, x).stage == CLOSED
  {
    hide Attempted;
  }

  lemma Reactivates(e: Engagement, x: Event)
    requires x.Update? && x.edit.reportDocumentId.None? && x.edit.status == Some(ACTIVE)
    ensures Next(e, x).stage == e.stage && Next(e, x).status == ACTIVE
  {
  }

  lemma RunTwo(e: Engagement, x: Event, y: Event)
    ensures Run(e, [x, y]) == Next(Next(e, x), y)
  {
    hide Next;
    assert [x, y][..1] == [x] && [x][..0] == [];
    assert Run(e, [x]) == Next(Run(e, []), x);
  }

  lemma CancelWorks(e: Engagement, x: Event)
    requires e.stage == PLANNING && x.Transit? && x.action == Cancel && x.permissions == {"engagement:close"}
    ensures Attempted(e, x).Accepted? && Attempted(e, x).transition.to == CLOSED
  {
    var ts := ENGAGEMENT_WORKFLOW.transitions;
    WorkflowIsUnambiguous();
    assert ts[8] in ts;
    FindIsTheOne(ts, ts[8]);
  }

  lemma WorkflowIsUnambiguous()
    ensures Unambiguous(ENGAGEMENT_WORKFLOW.transitions)
  {
  }

  /** The one way a draft comes to be in a closed engagement: a finding under management review is returned. */
  lemma DraftInClosed(e: Engagement, x: Event)
    requires e.stage == CLOSED && forall f :: f in e.findings ==> f.status != Findings.DRAFT
    ensures (exists f :: f in Next(e, x).findings && f.status == Findings.DRAFT) <==>
              && x.OnFinding? && x.index < |e.findings| && x.event.Transit? && x.event.action == Findings.ReturnToDraft
              && Findings.Attempted(e.findings[x.index], x.event).Accepted?
  {
    hide Attempted, Findings.Attempted, Findings.IsNew, Findings.UpdateAccepted, Findings.ExtendAccepted;
    if x.OnFinding? && x.index < |e.findings| {
      var f := e.findings[x.index];
      assert f in e.findings;
      var t := Next(e, x).findings;
      assert t[x.index] in t;
      if x.event.Transit? && Findings.Attempted(f, x.event).Accepted? {
        Findings.AcceptedLeads(f, x.event);
      }
    }
  }
}
