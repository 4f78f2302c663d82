/** The values the conversation-policy auditor works on: the rule schema,
    transcript messages and the decision it derives. */
module Policy {
  import opened Wrappers

  /** Who wrote a message. */
  datatype Role = User | Bot | Auditor

  /** A rule's enforcement action. The outcome only distinguishes `stop` and
      `modify`; `Interject` stands for "interject" and every other action text. */
  datatype Action = Stop | Modify | Interject

  /** A rule's match predicate; every part is optional. */
  datatype MatchSpec = MatchSpec(
    userIncludes: Option<seq<string>>,
    botIncludes: Option<seq<string>>,
    daysSinceOrderOver: Option<int>)

  datatype Rule = Rule(
    id: string,
    title: string,
    description: string,
    severity: int,
    matchSpec: Option<MatchSpec>,
    action: Action,
    onViolationGuidance: string)

  /** Present in a schema but never read by the auditor. */
  datatype Thresholds = Thresholds(highConfidence: real, interjectMinConfidence: real)

  datatype Schema = Schema(
    name: string,
    version: string,
    thresholds: Thresholds,
    supportProtocols: seq<string>,
    rules: seq<Rule>)

  /** "allow", "stop", "interject-modify" and "interject-ask-user". */
  datatype Outcome = Allow | Stop | InterjectModify | InterjectAskUser

  datatype Decision = Decision(
    outcome: Outcome,
    confidence: real,
    triggeredRules: seq<Rule>,
    rationale: seq<string>,
    suggestedReply: Option<string>)

  /** What a message created by an operator action carries: the decision that
      produced it and, on the replacement bot message, the suppressed text. */
  datatype Meta = Meta(originalBotText: Option<string>, decision: Decision)

  datatype Message = Message(id: string, role: Role, text: string, meta: Option<Meta>)

  /** The schema the detail page starts from. */
  const DefaultSchema := Schema(
    "Retail Support \U{2013} Conversational Policy Schema",
    "1.0",
    Thresholds(0.8, 0.6),
    [ "Refund window: 30 days from delivery.",
      "If defect reported after refund window, offer: (a) free repair or replacement if covered, (b) 30% store credit, or (c) escalate to human if order value > $100.",
      "Never disclose or confirm full payment card numbers. Only last4 may be referenced if already presented by the user.",
      "Authentication is required before account changes (cancellations, address changes).",
      "Escalate politely if the customer threatens chargeback, legal action, or claims injury." ],
    [ Rule("R-001", "Refund past window must not be auto-approved",
        "If the user requests a full refund beyond 30 days, the bot must not process it automatically; offer repair/credit or escalate.",
        5, Some(MatchSpec(Some(["refund", "return"]), None, Some(30))), Interject,
        "Explain refund window, offer repair or 30% store credit, or escalate to a human specialist for exceptions."),
      Rule("R-002", "Avoid promising outcomes outside policy",
        "Do not promise a full refund or replacement when policy conditions are not met.",
        4, Some(MatchSpec(None, Some(["processed a full refund", "absolutely! i've processed"]), None)), Modify,
        "Replace promises with compliant alternatives and set expectations per policy."),
      Rule("R-003", "No sensitive data collection",
        "Do not ask for or reveal full card numbers, SSNs, or passwords. Card last4 is permitted only if user provides it first.",
        4, Some(MatchSpec(None, Some(["full card number", "security number", "password"]), None)), Action.Stop,
        "Mask or avoid sensitive data. Ask for non-sensitive identifiers or use verified account channel."),
      Rule("R-004", "Escalate high-value exceptions",
        "If order value > $100 AND outside standard policy, escalate to a human.",
        3, Some(MatchSpec(Some(["$", "dollars", "order"]), None, None)), Interject,
        "Offer to bring a specialist in for out-of-policy high-value cases.") ])
}
