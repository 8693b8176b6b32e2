/** The life of an audit finding: editing, workflow transitions, extensions and reminders. */
module Findings {
  import opened Options
  import opened Workflows

  datatype Status = DRAFT | MANAGEMENT_REVIEW | AGREED | IMPLEMENTATION | VALIDATION | CLOSED | RISK_ACCEPTED

  datatype Action =
    | Submit | ReturnToDraft | Agree | AcceptRisk | StartImplementation | RequestValidation | RejectValidation
    | ValidateAndClose | UnknownAction

  datatype Guard =
    | HasConditionCriteria | HasRecommendation | HasManagementResponse | HasActionOwnerAndDueDate
    | HasImplementationEvidence | ValidatorIsNotActionOwner

  const FINDING_WORKFLOW: Machine<Status, Action, Guard> := Machine(DRAFT, [CLOSED, RISK_ACCEPTED], [
    Transition(DRAFT, MANAGEMENT_REVIEW, Submit, "finding:submit", [HasConditionCriteria, HasRecommendation]),
    Transition(MANAGEMENT_REVIEW, DRAFT, ReturnToDraft, "finding:manage", []),
    Transition(MANAGEMENT_REVIEW, AGREED, Agree, "finding:respond", [HasManagementResponse, HasActionOwnerAndDueDate]),
    Transition(MANAGEMENT_REVIEW, RISK_ACCEPTED, AcceptRisk, "finding:accept_risk", []),
    Transition(AGREED, IMPLEMENTATION, StartImplementation, "finding:respond", []),
    Transition(IMPLEMENTATION, VALIDATION, RequestValidation, "finding:respond", [HasImplementationEvidence]),
    Transition(VALIDATION, IMPLEMENTATION, RejectValidation, "finding:validate", []),
    Transition(VALIDATION, CLOSED, ValidateAndClose, "finding:validate", [])])

  predicate Actionable(s: Status) {
    s in {AGREED, IMPLEMENTATION, VALIDATION}
  }

  predicate Terminal(s: Status) {
    s in {CLOSED, RISK_ACCEPTED}
  }

  /** A text field; `None` is null or absent. */
  type Text = Option<string>

  /** The white space and line ends that `trim` takes off. */
  predicate IsSpace(c: char) {
    || '\t' <= c <= '\r' || c == ' ' || c == '\U{A0}' || c == '\U{1680}' || '\U{2000}' <= c <= '\U{200A}'
    || c in {'\U{2028}', '\U{2029}', '\U{202F}', '\U{205F}', '\U{3000}', '\U{FEFF}'}
  }

  predicate IsBlank(t: Text) {
    t.None? || forall c :: c in t.value ==> IsSpace(c)
  }

  function TrimStart(s: string): string {
    if s != "" && IsSpace(s[0]) then TrimStart(s[1..]) else s
  }

  function TrimEnd(s: string): string {
    if s != "" && IsSpace(s[|s| - 1]) then TrimEnd(s[..|s| - 1]) else s
  }

  lemma {:induction false} TrimStartLeaves(s: string)
    ensures TrimStart(s) == "" <==> forall c :: c in s ==> IsSpace(c)
    ensures forall c :: c in TrimStart(s) ==> c in s
    ensures TrimStart(s) != "" ==> !IsSpace(TrimStart(s)[0])
  {
    hide IsSpace;
    if s != "" && IsSpace(s[0]) {
      TrimStartLeaves(s[1..]);
      assert s == [s[0]] + s[1..];
    }
  }

  lemma {:induction false} TrimEndLeaves(s: string)
    ensures TrimEnd(s) == "" <==> forall c :: c in s ==> IsSpace(c)
  {
    hide IsSpace;
    if s != "" && IsSpace(s[|s| - 1]) {
      TrimEndLeaves(s[..|s| - 1]);
      assert s == s[..|s| - 1] + [s[|s| - 1]];
    }
  }

  /** A text is blank if it is absent or nothing is left of it once both ends are trimmed. */
  lemma BlankIsTrimmed(t: Text)
    ensures IsBlank(t) <==> t.None? || TrimEnd(TrimStart(t.value)) == ""
  {
    hide IsSpace;
    if t.Some? {
      TrimStartLeaves(t.value);
      TrimEndLeaves(TrimStart(t.value));
      if TrimStart(t.value) != "" {
        assert TrimStart(t.value)[0] in TrimStart(t.value);
      }
    }
  }

  datatype Texts = Texts(condition: Text, criteria: Text, recommendation: Text, managementResponse: Text)

  datatype Owner = Owner(id: Option<nat>, name: Text, email: Text)

  datatype Follow = Follow(implementedAt: Option<int>, validatedAt: Option<int>, extensionCount: nat,
                           escalationLevel: nat, lastReminderAt: Option<int>, reminderCount: nat)

  /** The row, with its status history. */
  datatype Finding = Finding(
    status: Status, texts: Texts, owner: Owner, dueDate: Option<int>, originalDueDate: Option<int>,
    agreedAt: Option<int>, validatedById: Option<nat>, closedAt: Option<int>, follow: Follow,
    history: seq<Change<Status>>)

  /**
   * What an edit sets: `None` leaves a field alone, `Some(None)` clears it. `evidence`: it replaces the linked
   * evidence; `other`: it sets a field that no rule depends on.
   */
  datatype Edit = Edit(
    condition: Option<string>, criteria: Option<string>, recommendation: Option<Text>, managementResponse: Option<Text>,
    actionOwnerId: Option<Option<nat>>, actionOwnerName: Option<Text>, actionOwnerEmail: Option<Text>,
    dueDate: Option<Option<int>>, evidence: bool, other: bool)

  /** What a guard looks up elsewhere: recommendations, and pieces of implementation evidence. */
  datatype Facts = Facts(recommendations: nat, evidence: nat)

  predicate HasOwner(f: Finding) {
    f.owner.id.Some? || !IsBlank(f.owner.name) || !IsBlank(f.owner.email)
  }

  predicate GuardHolds(f: Finding, user: nat, facts: Facts, g: Guard) {
    match g
    case HasConditionCriteria => !IsBlank(f.texts.condition) && !IsBlank(f.texts.criteria)
    case HasRecommendation => !IsBlank(f.texts.recommendation) || facts.recommendations > 0
    case HasManagementResponse => !IsBlank(f.texts.managementResponse)
    case HasActionOwnerAndDueDate => HasOwner(f) && f.dueDate.Some?
    case HasImplementationEvidence => facts.evidence > 0
    case ValidatorIsNotActionOwner => f.owner.id != Some(user)
  }

  function ExtraGuardsFor(a: Action): seq<Guard> {
    if a in {ValidateAndClose, RejectValidation} then [ValidatorIsNotActionOwner] else []
  }

  function Attempted(f: Finding, e: Event): Reply<Status, Action, Guard>
    requires e.Transit?
  {
    Attempt(FINDING_WORKFLOW, f.status, e.action, ActorOf(f, e), ExtraGuardsFor(e.action))
  }

  function ActorOf(f: Finding, e: Event): Actor<Guard>
    requires e.Transit?
  {
    Actor(e.user, e.permissions, g => GuardHolds(f, e.user, e.facts, g))
  }

  datatype Event =
    | Update(edit: Edit, permissions: set<string>, ownerIsActive: bool, evidenceIsKnown: bool)
    | Transit(action: Action, user: nat, permissions: set<string>, facts: Facts, now: int)
    | Extend(newDue: int)
    | Remind(now: int, level: nat)

  predicate Agrees(f: Finding, e: Event) {
    e.Transit? && e.action == Agree && Attempted(f, e).Accepted?
  }

  // ---------------------------------------------------------------------------
  // Each step as a function
  // ---------------------------------------------------------------------------

  function Set<T>(change: Option<T>, current: T): T {
    if change.Some? then change.value else current
  }

  function SetText(change: Option<string>, current: Text): Text {
    if change.Some? then change else current
  }

  predicate BusinessFieldsOnly(e: Edit) {
    e.condition.None? && e.criteria.None? && e.recommendation.None? && !e.evidence && !e.other
  }

  predicate UpdateAccepted(f: Finding, e: Event)
    requires e.Update?
  {
    && ("finding:manage" in e.permissions ||
        ("finding:respond" in e.permissions && BusinessFieldsOnly(e.edit) &&
         f.status in {MANAGEMENT_REVIEW, AGREED, IMPLEMENTATION}))
    && !Terminal(f.status)
    && (e.edit.actionOwnerId.Some? && e.edit.actionOwnerId.value.Some? ==> e.ownerIsActive)
    && (e.edit.evidence ==> e.evidenceIsKnown)
  }

  function Edited(f: Finding, d: Edit): Finding {
    f.(texts := Texts(SetText(d.condition, f.texts.condition), SetText(d.criteria, f.texts.criteria),
                      Set(d.recommendation, f.texts.recommendation),
                      Set(d.managementResponse, f.texts.managementResponse)),
       owner := Owner(Set(d.actionOwnerId, f.owner.id), Set(d.actionOwnerName, f.owner.name),
                      Set(d.actionOwnerEmail, f.owner.email)),
       dueDate := Set(d.dueDate, f.dueDate))
  }

  predicate ExtendAccepted(f: Finding, e: Event)
    requires e.Extend?
  {
    Actionable(f.status) && (f.dueDate.Some? ==> e.newDue > f.dueDate.value)
  }

  /** An accepted transition: what it stamps, the new status and the history entry. */
  function Moved(f: Finding, action: Action, to: Status, user: nat, now: int): Finding {
    var change := Change(Some(f.status), to, user);
    var g := f.(status := to, history := f.history + [change]);
    match action
    case Agree =>
      g.(agreedAt := Some(now), originalDueDate := if f.originalDueDate.None? then f.dueDate else f.originalDueDate)
    case RequestValidation => g.(follow := f.follow.(implementedAt := Some(now)))
    case ValidateAndClose =>
      g.(validatedById := Some(user), closedAt := Some(now), follow := f.follow.(validatedAt := Some(now)))
    case AcceptRisk => g.(closedAt := Some(now))
    case ReturnToDraft => g.(agreedAt := None)
    case _ => g
  }

  function Extended(f: Finding, newDue: int): Finding {
    f.(dueDate := Some(newDue), originalDueDate := if f.originalDueDate.Some? then f.originalDueDate else f.dueDate,
       follow := f.follow.(extensionCount := f.follow.extensionCount + 1, escalationLevel := 0))
  }

  function Reminded(f: Finding, now: int, level: nat): Finding {
    var before := f.follow;
    f.(follow := before.(reminderCount := before.reminderCount + 1, lastReminderAt := Some(now),
                         escalationLevel := if level > before.escalationLevel then level else before.escalationLevel))
  }

  function Next(f: Finding, e: Event): Finding {
    match e
    case Update(edit, _, _, _) => if UpdateAccepted(f, e) then Edited(f, edit) else f
    case Transit(action, user, _, _, now) =>
      var r := Attempted(f, e);
      if r.Accepted? then Moved(f, action, r.transition.to, user, now) else f
    case Extend(newDue) => if ExtendAccepted(f, e) then Extended(f, newDue) else f
    case Remind(now, level) => if Actionable(f.status) && f.dueDate.Some? then Reminded(f, now, level) else f
  }

  function Run(f: Finding, es: seq<Event>): Finding
    decreases |es|
  {
    if es == [] then f else Next(Run(f, es[..|es| - 1]), es[|es| - 1])
  }

  /** A new row: a draft without a management response. */
  function Created(texts: Texts, owner: Owner, dueDate: Option<int>, user: nat): Finding {
    Finding(DRAFT, texts.(managementResponse := None), owner, dueDate, None, None, None, None,
            Follow(None, None, 0, 0, None, 0), [Change(None, DRAFT, user)])
  }

  predicate IsNew(f: Finding) {
    && f.status == DRAFT && f.originalDueDate.None? && f.agreedAt.None? && f.closedAt.None? && f.validatedById.None?
    && |f.history| == 1 && f.history[0].from.None? && f.history[0].to == DRAFT
  }

  // ---------------------------------------------------------------------------
  // What transitions and edits come to
  // ---------------------------------------------------------------------------

  /** What an action needs: the status, the permission, what must be recorded, and who may not do it. */
  predicate MayDo(f: Finding, action: Action, user: nat, permissions: set<string>, facts: Facts) {
    match action
    case Submit =>
      && f.status == DRAFT && "finding:submit" in permissions
      && !IsBlank(f.texts.condition) && !IsBlank(f.texts.criteria)
      && (!IsBlank(f.texts.recommendation) || facts.recommendations > 0)
    case ReturnToDraft => f.status == MANAGEMENT_REVIEW && "finding:manage" in permissions
    case Agree =>
      && f.status == MANAGEMENT_REVIEW && "finding:respond" in permissions
      && !IsBlank(f.texts.managementResponse) && f.dueDate.Some?
      && (f.owner.id.Some? || !IsBlank(f.owner.name) || !IsBlank(f.owner.email))
    case AcceptRisk => f.status == MANAGEMENT_REVIEW && "finding:accept_risk" in permissions
    case StartImplementation => f.status == AGREED && "finding:respond" in permissions
    case RequestValidation =>
      f.status == IMPLEMENTATION && "finding:respond" in permissions && facts.evidence > 0
    case RejectValidation =>
      f.status == VALIDATION && "finding:validate" in permissions && f.owner.id != Some(user)
    case ValidateAndClose =>
      f.status == VALIDATION && "finding:validate" in permissions && f.owner.id != Some(user)
    case UnknownAction => false
  }

  /** The row after an accepted transition, field by field. */
  predicate IsMoved(f: Finding, g: Finding, action: Action, user: nat, now: int) {
    && Leads(action, f.status, g.status)
    && g.history == f.history + [Change(Some(f.status), g.status, user)]
    && g.agreedAt == (if action == Agree then Some(now) else if action == ReturnToDraft then None else f.agreedAt)
    && g.originalDueDate == (if action == Agree && f.originalDueDate.None? then f.dueDate else f.originalDueDate)
    && g.closedAt == (if action in {ValidateAndClose, AcceptRisk} then Some(now) else f.closedAt)
    && g.validatedById == (if action == ValidateAndClose then Some(user) else f.validatedById)
    && g.follow.implementedAt == (if action == RequestValidation then Some(now) else f.follow.implementedAt)
    && g.follow.validatedAt == (if action == ValidateAndClose then Some(now) else f.follow.validatedAt)
    && g.follow.extensionCount == f.follow.extensionCount && g.follow.escalationLevel == f.follow.escalationLevel
    && g.follow.lastReminderAt == f.follow.lastReminderAt && g.follow.reminderCount == f.follow.reminderCount
    && g.texts == f.texts && g.owner == f.owner && g.dueDate == f.dueDate
  }

  /** The row after an accepted edit, field by field. */
  predicate IsEdited(f: Finding, g: Finding, d: Edit) {
    && g.texts.condition == (if d.condition.Some? then d.condition else f.texts.condition)
    && g.texts.criteria == (if d.criteria.Some? then d.criteria else f.texts.criteria)
    && g.texts.recommendation == (if d.recommendation.Some? then d.recommendation.value else f.texts.recommendation)
    && g.texts.managementResponse == (if d.managementResponse.Some? then d.managementResponse.value
                                      else f.texts.managementResponse)
    && g.owner.id == (if d.actionOwnerId.Some? then d.actionOwnerId.value else f.owner.id)
    && g.owner.name == (if d.actionOwnerName.Some? then d.actionOwnerName.value else f.owner.name)
    && g.owner.email == (if d.actionOwnerEmail.Some? then d.actionOwnerEmail.value else f.owner.email)
    && g.dueDate == (if d.dueDate.Some? then d.dueDate.value else f.dueDate)
    && g.status == f.status && g.originalDueDate == f.originalDueDate && g.agreedAt == f.agreedAt
    && g.validatedById == f.validatedById && g.closedAt == f.closedAt && g.follow == f.follow && g.history == f.history
  }

  /** Row `k` of the table decides on its action. */
  lemma RowDecides(f: Finding, e: Event, k: nat)
    requires e.Transit? && k < |FINDING_WORKFLOW.transitions| && e.action == FINDING_WORKFLOW.transitions[k].action
    ensures var t := FINDING_WORKFLOW.transitions[k];
            Attempted(f, e).Accepted? <==>
              && f.status == t.from && t.permission in e.permissions
              && forall g :: g in t.guards + ExtraGuardsFor(e.action) ==> GuardHolds(f, e.user, e.facts, g)
  {
    var t := FINDING_WORKFLOW.transitions[k];
    WorkflowIsUnambiguous();
    AttemptMeans(FINDING_WORKFLOW, f.status, e.action, ActorOf(f, e), ExtraGuardsFor(e.action));
    if Attempted(f, e).Accepted? {
      AcceptedLeads(f, e);
      TableLeads(t);
    }
    hide Attempt, FINDING_WORKFLOW, GuardHolds, ExtraGuardsFor;
  }

  lemma RowOfOne(f: Finding, e: Event, k: nat, a: Guard)
    requires e.Transit? && k < |FINDING_WORKFLOW.transitions| && e.action == FINDING_WORKFLOW.transitions[k].action
    requires FINDING_WORKFLOW.transitions[k].guards + ExtraGuardsFor(e.action) == [a]
    ensures var t := FINDING_WORKFLOW.transitions[k];
            Attempted(f, e).Accepted? <==>
              f.status == t.from && t.permission in e.permissions && GuardHolds(f, e.user, e.facts, a)
  {
    RowDecides(f, e, k);
    hide Attempted, GuardHolds;
    assert a in [a];
  }

  lemma RowOfTwo(f: Finding, e: Event, k: nat, a: Guard, b: Guard)
    requires e.Transit? && k < |FINDING_WORKFLOW.transitions| && e.action == FINDING_WORKFLOW.transitions[k].action
    requires FINDING_WORKFLOW.transitions[k].guards + ExtraGuardsFor(e.action) == [a, b]
    ensures var t := FINDING_WORKFLOW.transitions[k];
            Attempted(f, e).Accepted? <==>
              && f.status == t.from && t.permission in e.permissions
              && GuardHolds(f, e.user, e.facts, a) && GuardHolds(f, e.user, e.facts, b)
  {
    RowDecides(f, e, k);
    hide Attempted, GuardHolds;
    var gs := [a, b];
    assert gs[0] in gs && gs[1] in gs;
  }

  /** A transition is accepted exactly if its action may be done. */
  lemma AcceptedExactly(f: Finding, e: Event)
    requires e.Transit?
    ensures Attempted(f, e).Accepted? <==> MayDo(f, e.action, e.user, e.permissions, e.facts)
  {
    hide Attempted, IsBlank;
    match e.action
    case Submit =>
      RowOfTwo(f, e, 0, HasConditionCriteria, HasRecommendation);
    case ReturnToDraft => RowDecides(f, e, 1);
    case Agree =>
      RowOfTwo(f, e, 2, HasManagementResponse, HasActionOwnerAndDueDate);
    case AcceptRisk => RowDecides(f, e, 3);
    case StartImplementation => RowDecides(f, e, 4);
    case RequestValidation => RowOfOne(f, e, 5, HasImplementationEvidence);
    case RejectValidation => RowOfOne(f, e, 6, ValidatorIsNotActionOwner);
    case ValidateAndClose => RowOfOne(f, e, 7, ValidatorIsNotActionOwner);
    case UnknownAction =>
      if Attempted(f, e).Accepted? {
        AcceptedLeads(f, e);
      }
  }

  // ---------------------------------------------------------------------------
  // The service
  // ---------------------------------------------------------------------------

  class FindingRecord {
    var row: Finding

    constructor (texts: Texts, owner: Owner, dueDate: Option<int>, user: nat)
      ensures IsNew(row) && row == Created(texts, owner, dueDate, user)
    {
      row := Created(texts, owner, dueDate, user);
    }

    method UpdateFinding(edit: Edit, permissions: set<string>, ownerIsActive: bool, evidenceIsKnown: bool)
      returns (ok: bool)
      modifies this
      ensures row == Next(old(row), Update(edit, permissions, ownerIsActive, evidenceIsKnown))
      ensures ok <==>
                && old(row).status !in {CLOSED, RISK_ACCEPTED}
                && ("finding:manage" in permissions ||
                    ("finding:respond" in permissions && old(row).status != DRAFT && old(row).status != VALIDATION
                     && edit.condition.None? && edit.criteria.None? && edit.recommendation.None?
                     && !edit.evidence && !edit.other))
                && (edit.actionOwnerId.None? || edit.actionOwnerId.value.None? || ownerIsActive)
                && (!edit.evidence || evidenceIsKnown)
      ensures !ok ==> row == old(row)
      ensures ok ==> IsEdited(old(row), row, edit)
    {
      if "finding:manage" !in permissions {
        if "finding:respond" !in permissions {
          return false;
        }
        if edit.condition.Some? || edit.criteria.Some? || edit.recommendation.Some? || edit.evidence || edit.other {
          return false;
        }
        if row.status !in {MANAGEMENT_REVIEW, AGREED, IMPLEMENTATION} {
          return false;
        }
      }
      if row.status == CLOSED || row.status == RISK_ACCEPTED {
        return false;
      }
      if edit.actionOwnerId.Some? && edit.actionOwnerId.value.Some? && !ownerIsActive {
        return false;
      }
      if edit.evidence && !evidenceIsKnown {
        return false;
      }
      row := Edited(row, edit);
      ok := true;
    }

    method TransitionFinding(action: Action, user: nat, permissions: set<string>, facts: Facts, now: int)
      returns (r: Reply<Status, Action, Guard>)
      modifies this
      ensures r == Attempted(old(row), Event.Transit(action, user, permissions, facts, now))
      ensures row == Next(old(row), Event.Transit(action, user, permissions, facts, now))
      ensures r.Accepted? <==> MayDo(old(row), action, user, permissions, facts)
      ensures if r.Accepted? then IsMoved(old(row), row, action, user, now) else row == old(row)
    {
      ghost var e := Event.Transit(action, user, permissions, facts, now);
      var f := row;
      var actor := Actor(user, permissions, g => GuardHolds(f, user, facts, g));
      assert actor == ActorOf(f, e);
      hide GuardHolds;
      r := Workflows.Transit(FINDING_WORKFLOW, f.status, action, actor, ExtraGuardsFor(action));
      hide Attempt, FINDING_WORKFLOW;
      AcceptedExactly(f, e);
      hide MayDo;
      if !r.Accepted? {
        return;
      }
      var data := f.(status := r.transition.to);
      match action {
        case Agree =>
          data := data.(agreedAt := Some(now));
          if f.originalDueDate.None? {
            data := data.(originalDueDate := f.dueDate);
          }
        case RequestValidation =>
          data := data.(follow := f.follow.(implementedAt := Some(now)));
        case ValidateAndClose =>
          data := data.(validatedById := Some(user), closedAt := Some(now),
                        follow := f.follow.(validatedAt := Some(now)));
        case AcceptRisk =>
          data := data.(closedAt := Some(now));
        case ReturnToDraft =>
          data := data.(agreedAt := None);
        case _ =>
      }
      row := data.(history := f.history + [Change(Some(f.status), r.transition.to, user)]);
      AcceptedLeads(f, e);
    }

    method ExtendFinding(newDue: int) returns (ok: bool)
      modifies this
      ensures row == Next(old(row), Extend(newDue))
      ensures ok <==>
                && old(row).status in {AGREED, IMPLEMENTATION, VALIDATION}
                && (old(row).dueDate.None? || newDue > old(row).dueDate.value)
      ensures !ok ==> row == old(row)
      ensures ok ==>
                && row.dueDate == Some(newDue)
                && row.originalDueDate == (if old(row).originalDueDate.Some? then old(row).originalDueDate
                                           else old(row).dueDate)
                && row.follow.extensionCount == old(row).follow.extensionCount + 1 && row.follow.escalationLevel == 0
                && row.(dueDate := None, originalDueDate := None, follow := old(row).follow)
                   == old(row).(dueDate := None, originalDueDate := None)
    {
      if row.status !in {AGREED, IMPLEMENTATION, VALIDATION} {
        return false;
      }
      if row.dueDate.Some? && newDue <= row.dueDate.value {
        return false;
      }
      row := row.(dueDate := Some(newDue),
                  originalDueDate := if row.originalDueDate.Some? then row.originalDueDate else row.dueDate,
                  follow := row.follow.(extensionCount := row.follow.extensionCount + 1, escalationLevel := 0));
      ok := true;
    }
  }

  // ---------------------------------------------------------------------------
  // What holds in every state
  // ---------------------------------------------------------------------------

  predicate AgreedOnce(s: Status) {
    s in {AGREED, IMPLEMENTATION, VALIDATION, CLOSED}
  }

  ghost predicate Consistent(f: Finding) {
    && (f.agreedAt.Some? <==> AgreedOnce(f.status))
    && (f.originalDueDate.Some? <==> AgreedOnce(f.status))
    && (f.closedAt.Some? <==> Terminal(f.status))
    && (f.validatedById.Some? <==> f.status == CLOSED)
    && (f.status == CLOSED ==> f.validatedById != f.owner.id)
    && IsChain(f.history, DRAFT, f.status)
  }

  predicate Leads(action: Action, from: Status, to: Status) {
    match action
    case Submit => from == DRAFT && to == MANAGEMENT_REVIEW
    case ReturnToDraft => from == MANAGEMENT_REVIEW && to == DRAFT
    case Agree => from == MANAGEMENT_REVIEW && to == AGREED
    case AcceptRisk => from == MANAGEMENT_REVIEW && to == RISK_ACCEPTED
    case StartImplementation => from == AGREED && to == IMPLEMENTATION
    case RequestValidation => from == IMPLEMENTATION && to == VALIDATION
    case RejectValidation => from == VALIDATION && to == IMPLEMENTATION
    case ValidateAndClose => from == VALIDATION && to == CLOSED
    case UnknownAction => false
  }

  lemma TableLeads(t: Transition<Status, Action, Guard>)
    requires t in FINDING_WORKFLOW.transitions
    ensures Leads(t.action, t.from, t.to)
    ensures t.action == Agree ==> HasActionOwnerAndDueDate in t.guards
  {
  }

  /** An accepted transition follows the table. */
  lemma AcceptedLeads(f: Finding, e: Event)
    requires e.Transit? && Attempted(f, e).Accepted?
    ensures Leads(e.action, f.status, Attempted(f, e).transition.to)
  {
    hide FINDING_WORKFLOW, Attempt, Leads, ActorOf, ExtraGuardsFor;
    AcceptedMeans(FINDING_WORKFLOW, f.status, e.action, ActorOf(f, e), ExtraGuardsFor(e.action));
    TableLeads(Attempted(f, e).transition);
  }

  /** Nothing is agreed without an owner and a due date. */
  lemma AgreementHasDueDate(f: Finding, e: Event)
    requires Agrees(f, e)
    ensures f.dueDate.Some? && HasOwner(f)
  {
    hide FINDING_WORKFLOW, Attempt, ExtraGuardsFor, HasOwner;
    AcceptedMeans(FINDING_WORKFLOW, f.status, e.action, ActorOf(f, e), ExtraGuardsFor(e.action));
    TableLeads(Attempted(f, e).transition);
    assert ActorOf(f, e).holds(HasActionOwnerAndDueDate);
  }

  /** Nobody validates, or rejects, the finding they own. */
  lemma ValidatorIsAnother(f: Finding, e: Event)
    requires e.Transit? && Attempted(f, e).Accepted? && e.action in {RejectValidation, ValidateAndClose}
    ensures f.owner.id != Some(e.user)
  {
    hide FINDING_WORKFLOW, Attempt, HasOwner;
    AcceptedMeans(FINDING_WORKFLOW, f.status, e.action, ActorOf(f, e), ExtraGuardsFor(e.action));
    assert ExtraGuardsFor(e.action) == [ValidatorIsNotActionOwner];
    assert ActorOf(f, e).holds(ValidatorIsNotActionOwner);
  }

  lemma MovedIsConsistent(f: Finding, action: Action, to: Status, user: nat, now: int)
    requires Consistent(f) && Leads(action, f.status, to)
    requires action == Agree ==> f.dueDate.Some?
    requires action == ValidateAndClose ==> f.owner.id != Some(user)
    ensures Consistent(Moved(f, action, to, user, now))
  {
    hide IsChain;
    ChainSnoc(f.history, DRAFT, f.status, to, user);
  }

  lemma TransitIsConsistent(f: Finding, e: Event)
    requires Consistent(f) && e.Transit? && Attempted(f, e).Accepted?
    ensures Consistent(Next(f, e))
  {
    hide Attempted, Consistent, Leads, Moved, HasOwner;
    AcceptedLeads(f, e);
    if e.action == Agree {
      AgreementHasDueDate(f, e);
    } else if e.action == ValidateAndClose {
      ValidatorIsAnother(f, e);
    }
    MovedIsConsistent(f, e.action, Attempted(f, e).transition.to, e.user, e.now);
  }

  lemma NextIsConsistent(f: Finding, e: Event)
    requires Consistent(f)
    ensures Consistent(Next(f, e))
  {
    hide IsChain, Attempted, Moved;
    if e.Transit? && Attempted(f, e).Accepted? {
      TransitIsConsistent(f, e);
    }
  }

  /**
   * In every state that a new finding can reach: the date of agreement and the original due date are set exactly from
   * agreement on, the closing date exactly in a terminal state, the validator of a closed finding is not its action
   * owner, and the history is a chain that ends at the current status.
   */
  lemma {:induction false} RunIsConsistent(f: Finding, es: seq<Event>)
    requires IsNew(f)
    ensures Consistent(Run(f, es))
    decreases |es|
  {
    if es != [] {
      RunIsConsistent(f, es[..|es| - 1]);
      hide Consistent, IsNew, Next;
      NextIsConsistent(Run(f, es[..|es| - 1]), es[|es| - 1]);
    }
  }

  /** The steps of a run that are agreements. */
  function Agreements(f: Finding, es: seq<Event>): (ks: seq<nat>)
    ensures forall i :: 0 <= i < |ks| ==> ks[i] < |es|
    decreases |es|
  {
    if es == [] then []
    else
      var n := |es| - 1;
      Agreements(f, es[..n]) + if Agrees(Run(f, es[..n]), es[n]) then [n] else []
  }

  /**
   * A finding from agreement on was agreed in exactly one step, and others in none. The date of agreement and the
   * original due date are those of that step, through all later edits and extensions.
   */
  lemma {:induction false} OriginalDueDateIsAgreed(f: Finding, es: seq<Event>)
    requires IsNew(f)
    ensures var t, ks := Run(f, es), Agreements(f, es);
            if AgreedOnce(t.status) then
              && |ks| == 1 && es[ks[0]].Transit?
              && var s := Run(f, es[..ks[0]]);
                 s.dueDate.Some? && t.originalDueDate == s.dueDate && t.agreedAt == Some(es[ks[0]].now)
            else ks == []
    decreases |es|
  {
    if es != [] {
      var n := |es| - 1;
      hide Next, Agrees, Consistent, IsNew, AgreedOnce;
      OriginalDueDateIsAgreed(f, es[..n]);
      RunIsConsistent(f, es[..n]);
      var s := Run(f, es[..n]);
      if Agrees(s, es[n]) {
        AgreementIsRecorded(s, es[n]);
      } else {
        AgreementStays(s, es[n]);
      }
      var ks := Agreements(f, es[..n]);
      assert ks != [] ==> es[..n][..ks[0]] == es[..ks[0]];
    } else {
      NewIsNotAgreed(f);
    }
  }

  lemma NewIsNotAgreed(f: Finding)
    requires IsNew(f)
    ensures !AgreedOnce(f.status)
  {
  }

  lemma MovedAgreement(f: Finding, action: Action, to: Status, user: nat, now: int)
    requires Consistent(f) && Leads(action, f.status, to) && action != Agree
    ensures var t := Moved(f, action, to, user, now);
            AgreedOnce(f.status) == AgreedOnce(t.status)
            && (AgreedOnce(f.status) ==> t.originalDueDate == f.originalDueDate && t.agreedAt == f.agreedAt)
  {
    hide IsChain;
  }

  lemma AgreementIsRecorded(f: Finding, e: Event)
    requires Consistent(f) && Agrees(f, e)
    ensures var t := Next(f, e);
            && !AgreedOnce(f.status) && AgreedOnce(t.status) && f.dueDate.Some?
            && t.originalDueDate == f.dueDate && t.agreedAt == Some(e.now)
  {
    hide IsChain, Attempted, HasOwner;
    AcceptedLeads(f, e);
    AgreementHasDueDate(f, e);
  }

  /** Every other step leaves what was agreed alone. */
  lemma AgreementStays(f: Finding, e: Event)
    requires Consistent(f) && !Agrees(f, e)
    ensures var t := Next(f, e);
            && AgreedOnce(f.status) == AgreedOnce(t.status)
            && (AgreedOnce(f.status) ==> t.originalDueDate == f.originalDueDate && t.agreedAt == f.agreedAt)
  {
    hide IsChain, Attempted, Moved, Leads;
    if e.Transit? && Attempted(f, e).Accepted? {
      AcceptedLeads(f, e);
      MovedAgreement(f, e.action, Attempted(f, e).transition.to, e.user, e.now);
    }
  }

  lemma NextOfTerminal(f: Finding, e: Event)
    requires Terminal(f.status)
    ensures Next(f, e) == f
  {
    hide Attempted, Moved;
    if e.Transit? && Attempted(f, e).Accepted? {
      AcceptedLeads(f, e);
    }
  }

  /** A closed or risk-accepted finding never changes again. */
  lemma {:induction false} TerminalIsFinal(f: Finding, es: seq<Event>)
    requires Terminal(f.status)
    ensures Run(f, es) == f
    decreases |es|
  {
    hide Next;
    if es != [] {
      TerminalIsFinal(f, es[..|es| - 1]);
      NextOfTerminal(f, es[|es| - 1]);
    }
  }

  predicate Extends(f: Finding, e: Event) {
    e.Extend? && ExtendAccepted(f, e)
  }

  lemma LevelStays(f: Finding, e: Event)
    requires !Extends(f, e)
    ensures Next(f, e).follow.escalationLevel >= f.follow.escalationLevel
  {
    hide Attempted;
  }

  /** From step `n` on no extension is accepted. */
  ghost predicate NotExtendedSince(f: Finding, es: seq<Event>, n: nat) {
    forall k :: n <= k < |es| ==> !Extends(Run(f, es[..k]), es[k])
  }

  lemma NotExtendedBefore(f: Finding, es: seq<Event>, n: nat)
    requires n < |es| && NotExtendedSince(f, es, n)
    ensures var m := |es| - 1;
            NotExtendedSince(f, es[..m], n) && !Extends(Run(f, es[..m]), es[m])
  {
    hide Run, Extends;
    var m := |es| - 1;
    forall k | n <= k < m
      ensures !Extends(Run(f, es[..m][..k]), es[..m][k])
    {
      assert es[..m][..k] == es[..k];
    }
  }

  /**
   * Whatever reminders, edits and transitions come in between, the escalation level never falls until the next
   * extension.
   */
  lemma {:induction false} LevelNeverFalls(f: Finding, es: seq<Event>, n: nat)
    requires n <= |es| && NotExtendedSince(f, es, n)
    ensures Run(f, es[..n]).follow.escalationLevel <= Run(f, es).follow.escalationLevel
    decreases |es|
  {
    hide Next, Extends;
    if n == |es| {
      assert es[..n] == es;
    } else {
      var m := |es| - 1;
      NotExtendedBefore(f, es, n);
      hide NotExtendedSince;
      assert es[..m][..n] == es[..n];
      LevelNeverFalls(f, es[..m], n);
      LevelStays(Run(f, es[..m]), es[m]);
    }
  }

  lemma WorkflowIsUnambiguous()
    ensures Unambiguous(FINDING_WORKFLOW.transitions)
  {
  }

  /** The actions offered for a finding are exactly those that will be accepted. */
  lemma OfferedActionsAreAccepted(f: Finding, e: Event)
    requires e.Transit?
    ensures Attempted(f, e).Accepted? <==>
              exists t :: t in Leaving(FINDING_WORKFLOW.transitions, f.status) && t.action == e.action
                          && Allowed(t, ActorOf(f, e), ExtraGuardsFor(t.action))
  {
    WorkflowIsUnambiguous();
    hide FINDING_WORKFLOW, Attempt, Leaving, Allowed, ActorOf, ExtraGuardsFor;
    OfferedIsAccepted(FINDING_WORKFLOW, f.status, e.action, ActorOf(f, e), a => ExtraGuardsFor(a));
  }
}
