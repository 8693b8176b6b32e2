module AuditRecords {
  /** The kinds of source that the audit search reads. */
  datatype Kind =
    | Entity | Process | Engagement | Risk | Control | Procedure | Workpaper | Finding | ActionPlan
    | Evidence | ControlTest | ReviewNote | Document | Comment
}
