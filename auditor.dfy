/** `audit`: matches the schema's rules against the last user message and
    the last bot message, weighs the triggered rules' severities into a
    confidence, classifies the outcome by action precedence and writes a
    suggested reply. `AuditOf` is the specification; the method `Audit`
    follows the source's loop and is proved to compute it. */
module Auditor {
  import opened Wrappers
  import opened Text
  import opened Extractors
  import opened Policy

  // ---- locating the messages ----

  /** `conversation.findLast(m => m.role === role)`, as an index. */
  function LastIndexOf(conversation: seq<Message>, role: Role): (r: Option<nat>)
    ensures r.Some? ==> r.value < |conversation| && conversation[r.value].role == role &&
                        forall j :: r.value < j < |conversation| ==> conversation[j].role != role
    ensures r.None? <==> forall j :: 0 <= j < |conversation| ==> conversation[j].role != role
  {
    if |conversation| == 0 then None
    else if conversation[|conversation| - 1].role == role then Some(|conversation| - 1)
    else LastIndexOf(conversation[..|conversation| - 1], role)
  }

  // ---- rule matching ----

  /** What the rules are matched against. */
  datatype Features = Features(userText: string, botText: string, days: int, orderValue: real)

  /** The lower-cased texts, the day count (null read as 0) and the order value (null read as 0). */
  function FeaturesOf(user: Message, bot: Message): Features {
    Features(ToLower(user.text), ToLower(bot.text),
             DetectDaysSinceMention(user.text).GetOr(0),
             DetectOrderValue(user.text).GetOr(0.0))
  }

  /** A rule is hit by a user keyword OR a bot keyword OR a day count above its threshold. */
  predicate Fires(rule: Rule, f: Features) {
    match rule.matchSpec
    case None => false
    case Some(m) =>
      (m.userIncludes.Some? && AnyKeywordIn(f.userText, m.userIncludes.value)) ||
      (m.botIncludes.Some? && AnyKeywordIn(f.botText, m.botIncludes.value)) ||
      (m.daysSinceOrderOver.Some? && f.days > m.daysSinceOrderOver.value)
  }

  /** The rules that fire, in schema order. */
  function FiringRules(rules: seq<Rule>, f: Features): (r: seq<Rule>)
    ensures |r| <= |rules|
    ensures forall x :: x in r <==> x in rules && Fires(x, f)
  {
    if |rules| == 0 then []
    else
      var last := rules[|rules| - 1];
      var front := FiringRules(rules[..|rules| - 1], f);
      assert rules == rules[..|rules| - 1] + [last];
      front + (if Fires(last, f) then [last] else [])
  }

  // ---- confidence ----

  function SeveritySum(rules: seq<Rule>): int {
    if |rules| == 0 then 0 else SeveritySum(rules[..|rules| - 1]) + rules[|rules| - 1].severity
  }

  /** The sum of all severities, with 0 replaced by 1. */
  function SeverityCeiling(rules: seq<Rule>): (c: int)
    ensures c != 0
  {
    var total := SeveritySum(rules);
    if total == 0 then 1 else total
  }

  function MinReal(a: real, b: real): real {
    if a <= b then a else b
  }

  function MaxReal(a: real, b: real): real {
    if a >= b then a else b
  }

  /** The additive bonus for an order value above $100. */
  function HighValueBonus(orderValue: real): real {
    if orderValue > 100.0 then 0.1 else 0.0
  }

  /** `min(1, sevSum / ceiling + bonus)`, then clamped into [0, 1]. */
  function Confidence(sevSum: int, ceiling: int, orderValue: real): (c: real)
    requires ceiling != 0
    ensures 0.0 <= c <= 1.0
  {
    var raw := MinReal(1.0, sevSum as real / ceiling as real + HighValueBonus(orderValue));
    MaxReal(0.0, MinReal(raw, 1.0))
  }

  // ---- outcome ----

  predicate HasAction(rules: seq<Rule>, a: Action) {
    exists i | 0 <= i < |rules| :: rules[i].action == a
  }

  /** No rule: allow; else any stop: stop; else any modify: interject-modify; else interject-ask-user. */
  function OutcomeOf(triggered: seq<Rule>): Outcome {
    if |triggered| == 0 then Allow
    else if HasAction(triggered, Action.Stop) then Outcome.Stop
    else if HasAction(triggered, Modify) then InterjectModify
    else InterjectAskUser
  }

  // ---- ordering: the stable severity-descending sort ----

  predicate SortedBySeverity(s: seq<Rule>) {
    forall i, j :: 0 <= i < j < |s| ==> s[i].severity >= s[j].severity
  }

  /** The rules of `s` with severity `v`, in their order in `s`. */
  function WithSeverity(s: seq<Rule>, v: int): seq<Rule> {
    if |s| == 0 then []
    else (if s[0].severity == v then [s[0]] else []) + WithSeverity(s[1..], v)
  }

  /** Put `r` after every rule of at least its severity: the place a stable
      descending sort gives a rule that comes last in its input. */
  function InsertBySeverity(sorted: seq<Rule>, r: Rule): seq<Rule> {
    if |sorted| == 0 then [r]
    else if sorted[0].severity >= r.severity then [sorted[0]] + InsertBySeverity(sorted[1..], r)
    else [r] + sorted
  }

  /** `rules.sort((a, b) => b.severity - a.severity)`, a stable sort. */
  function SortBySeverity(s: seq<Rule>): seq<Rule> {
    if |s| == 0 then [] else InsertBySeverity(SortBySeverity(s[..|s| - 1]), s[|s| - 1])
  }

  lemma {:induction false} WithSeverityConcat(a: seq<Rule>, b: seq<Rule>, v: int)
    ensures WithSeverity(a + b, v) == WithSeverity(a, v) + WithSeverity(b, v)
  {
    if |a| == 0 {
      assert a + b == b;
    } else {
      assert (a + b)[1..] == a[1..] + b;
      WithSeverityConcat(a[1..], b, v);
    }
  }

  lemma {:induction false} WithSeverityNone(s: seq<Rule>, v: int)
    requires forall i :: 0 <= i < |s| ==> s[i].severity != v
    ensures WithSeverity(s, v) == []
  {
    if |s| > 0 {
      WithSeverityNone(s[1..], v);
    }
  }

  /** Every rule of `s` has severity at most `bound`. */
  predicate SeverityAtMost(s: seq<Rule>, bound: int) {
    forall i :: 0 <= i < |s| ==> s[i].severity <= bound
  }

  lemma {:induction false} InsertKeepsBound(sorted: seq<Rule>, r: Rule, bound: int)
    requires SeverityAtMost(sorted, bound) && r.severity <= bound
    ensures SeverityAtMost(InsertBySeverity(sorted, r), bound)
  {
    if |sorted| > 0 && sorted[0].severity >= r.severity {
      InsertKeepsBound(sorted[1..], r, bound);
    }
  }

  lemma {:induction false} InsertKeepsSorted(sorted: seq<Rule>, r: Rule)
    requires SortedBySeverity(sorted)
    ensures SortedBySeverity(InsertBySeverity(sorted, r))
  {
    if |sorted| > 0 {
      var s0 := sorted[0];
      if s0.severity >= r.severity {
        var rest := InsertBySeverity(sorted[1..], r);
        InsertKeepsSorted(sorted[1..], r);
        assert SeverityAtMost(sorted[1..], s0.severity) by {
          forall i | 0 <= i < |sorted[1..]| ensures sorted[1..][i].severity <= s0.severity {
            assert sorted[1..][i] == sorted[i + 1];
          }
        }
        InsertKeepsBound(sorted[1..], r, s0.severity);
        assert InsertBySeverity(sorted, r) == [s0] + rest;
      } else {
        assert InsertBySeverity(sorted, r) == [r] + sorted;
      }
    }
  }

  lemma {:induction false} InsertAddsOne(sorted: seq<Rule>, r: Rule)
    ensures multiset(InsertBySeverity(sorted, r)) == multiset(sorted) + multiset{r}
  {
    if |sorted| > 0 && sorted[0].severity >= r.severity {
      InsertAddsOne(sorted[1..], r);
      assert sorted == [sorted[0]] + sorted[1..];
    }
  }

  /** Inserting `r` adds it at the end of its severity class and leaves the other classes alone. */
  lemma {:induction false} InsertJoinsClassAtEnd(sorted: seq<Rule>, r: Rule, v: int)
    requires SortedBySeverity(sorted)
    ensures WithSeverity(InsertBySeverity(sorted, r), v) ==
            WithSeverity(sorted, v) + (if r.severity == v then [r] else [])
  {
    var tail := if r.severity == v then [r] else [];
    if |sorted| == 0 {
      assert WithSeverity([r], v) == tail + WithSeverity([], v);
    } else if sorted[0].severity >= r.severity {
      var s0 := sorted[0];
      var rest := InsertBySeverity(sorted[1..], r);
      InsertJoinsClassAtEnd(sorted[1..], r, v);
      assert InsertBySeverity(sorted, r) == [s0] + rest;
      assert WithSeverity([s0] + rest, v) == (if s0.severity == v then [s0] else []) + WithSeverity(rest, v) by {
        assert ([s0] + rest)[1..] == rest;
      }
    } else {
      WithSeverityConcat([r], sorted, v);
      assert WithSeverity([r], v) == tail + WithSeverity([], v);
      if r.severity == v {
        WithSeverityNone(sorted, v);
      }
    }
  }

  lemma {:induction false} SortBySeverityIsSorted(s: seq<Rule>)
    ensures SortedBySeverity(SortBySeverity(s))
  {
    if |s| > 0 {
      SortBySeverityIsSorted(s[..|s| - 1]);
      InsertKeepsSorted(SortBySeverity(s[..|s| - 1]), s[|s| - 1]);
    }
  }

  lemma {:induction false} SortBySeverityPermutes(s: seq<Rule>)
    ensures multiset(SortBySeverity(s)) == multiset(s)
  {
    if |s| > 0 {
      SortBySeverityPermutes(s[..|s| - 1]);
      InsertAddsOne(SortBySeverity(s[..|s| - 1]), s[|s| - 1]);
      assert s == s[..|s| - 1] + [s[|s| - 1]];
    }
  }

  lemma {:induction false} SortBySeverityKeepsClass(s: seq<Rule>, v: int)
    ensures WithSeverity(SortBySeverity(s), v) == WithSeverity(s, v)
  {
    if |s| > 0 {
      var front := s[..|s| - 1];
      var last := s[|s| - 1];
      SortBySeverityKeepsClass(front, v);
      SortBySeverityIsSorted(front);
      InsertJoinsClassAtEnd(SortBySeverity(front), last, v);
      assert s == front + [last];
      WithSeverityConcat(front, [last], v);
      assert WithSeverity([last], v) == (if last.severity == v then [last] else []) + WithSeverity([], v);
    }
  }

  /** The sort orders by descending severity, keeps every rule, and keeps the
      order of equally severe rules (each severity class comes out as it went in). */
  lemma SortBySeverityIsStableSort(s: seq<Rule>)
    ensures SortedBySeverity(SortBySeverity(s))
    ensures multiset(SortBySeverity(s)) == multiset(s)
    ensures forall v :: WithSeverity(SortBySeverity(s), v) == WithSeverity(s, v)
  {
    SortBySeverityIsSorted(s);
    SortBySeverityPermutes(s);
    forall v ensures WithSeverity(SortBySeverity(s), v) == WithSeverity(s, v) {
      SortBySeverityKeepsClass(s, v);
    }
  }

  // ---- rationale and suggested reply ----

  /** "<id>: <title> (severity <n>)". */
  function RationaleLine(r: Rule): string {
    r.id + ": " + r.title + " (severity " + IntToString(r.severity) + ")"
  }

  function RationaleLines(rules: seq<Rule>): (lines: seq<string>)
    ensures |lines| == |rules|
    ensures forall i :: 0 <= i < |rules| ==> lines[i] == RationaleLine(rules[i])
  {
    seq(|rules|, i requires 0 <= i < |rules| => RationaleLine(rules[i]))
  }

  /** "• (<id>) <guidance>". */
  function GuidanceLine(r: Rule): string {
    "\U{2022} (" + r.id + ") " + r.onViolationGuidance
  }

  function GuidanceLines(rules: seq<Rule>): (lines: seq<string>)
    ensures |lines| == |rules|
    ensures forall i :: 0 <= i < |rules| ==> lines[i] == GuidanceLine(rules[i])
  {
    seq(|rules|, i requires 0 <= i < |rules| => GuidanceLine(rules[i]))
  }

  /** The fixed explanation the suggested reply opens with (the source
      splices its local `refundWindow = 30` into it). */
  const BaseReply: string := "Thanks for flagging this. I can't process a full refund because it's beyond our 30-day refund window. I can offer a free repair/replacement if covered or a 30% store credit. If you prefer, I can bring in a human specialist to review exceptions."

  const GuidanceHeader := "\n\nGuidance applied:\n"

  function SuggestedReplyFor(sorted: seq<Rule>): string {
    BaseReply + GuidanceHeader + Join(GuidanceLines(sorted), "\n")
  }

  // ---- the decision ----

  const InsufficientContext := Decision(Allow, 0.0, [], ["Insufficient context to audit (need user + bot)."], None)

  /** The features `audit` extracts, when both messages exist. */
  function FeaturesFor(conversation: seq<Message>): Option<Features> {
    var u := LastIndexOf(conversation, User);
    var b := LastIndexOf(conversation, Bot);
    if u.None? || b.None? then None
    else Some(FeaturesOf(conversation[u.value], conversation[b.value]))
  }

  /** The rules the decision reports: sorted by severity once anything fires. */
  function Reported(fired: seq<Rule>): seq<Rule> {
    if OutcomeOf(fired) != Allow then SortBySeverity(fired) else fired
  }

  /** The decision for the extracted features. */
  function DecideOn(f: Features, rules: seq<Rule>): Decision {
    var fired := FiringRules(rules, f);
    var outcome := OutcomeOf(fired);
    var triggered := Reported(fired);
    Decision(outcome, Confidence(SeveritySum(fired), SeverityCeiling(rules), f.orderValue),
             triggered, RationaleLines(triggered),
             if outcome != Allow then Some(SuggestedReplyFor(triggered)) else None)
  }

  /** The decision `audit` returns for a conversation and a parsed schema. */
  function AuditOf(conversation: seq<Message>, schema: Schema): Decision {
    match FeaturesFor(conversation)
    case None => InsufficientContext
    case Some(f) => DecideOn(f, schema.rules)
  }

  const InvalidSchema := Decision(Allow, 0.0, [], ["Invalid schema"], None)

  /** The page's decision: the fixed fallback while the schema text does not
      parse, otherwise `audit` of the conversation. */
  function DecisionOf(parsed: Option<Schema>, conversation: seq<Message>): Decision {
    match parsed
    case None => InvalidSchema
    case Some(schema) => AuditOf(conversation, schema)
  }

  // ---- what the decision promises ----

  /** A rule without a match predicate never fires. */
  lemma RuleWithoutMatchNeverFires(rules: seq<Rule>, f: Features)
    requires forall i :: 0 <= i < |rules| ==> rules[i].matchSpec.None?
    ensures FiringRules(rules, f) == []
  {
  }

  lemma HasActionMeansMember(s: seq<Rule>, a: Action)
    ensures HasAction(s, a) <==> exists r :: r in s && r.action == a
  {
    if exists r :: r in s && r.action == a {
      var r :| r in s && r.action == a;
      var i :| 0 <= i < |s| && s[i] == r;
    }
  }

  /** Some rule among `rules` fires and carries action `a`. */
  ghost predicate FiredWith(rules: seq<Rule>, f: Features, a: Action) {
    exists r :: r in rules && Fires(r, f) && r.action == a
  }

  /** The outcome follows the action precedence: allow exactly when no rule
      fires, stop exactly when a stop rule fires, interject-modify exactly when
      a modify rule but no stop rule fires, interject-ask-user otherwise. */
  lemma OutcomePrecedence(rules: seq<Rule>, f: Features)
    ensures var o := OutcomeOf(FiringRules(rules, f));
            (o == Allow <==> forall r :: r in rules ==> !Fires(r, f)) &&
            (o == Outcome.Stop <==> FiredWith(rules, f, Action.Stop)) &&
            (o == InterjectModify <==> !FiredWith(rules, f, Action.Stop) && FiredWith(rules, f, Modify)) &&
            (o == InterjectAskUser <==>
               (exists r :: r in rules && Fires(r, f)) &&
               !FiredWith(rules, f, Action.Stop) && !FiredWith(rules, f, Modify))
  {
    var fired := FiringRules(rules, f);
    HasActionMeansMember(fired, Action.Stop);
    HasActionMeansMember(fired, Modify);
    if |fired| > 0 {
      assert fired[0] in fired;
    }
  }

  /** The reported rules are exactly the firing ones, ordered by descending
      severity, rules of equal severity keeping their schema order. */
  lemma ReportedIsStableSort(rules: seq<Rule>, f: Features)
    ensures var fired := FiringRules(rules, f);
            var t := Reported(fired);
            multiset(t) == multiset(fired) &&
            (forall r :: r in t <==> r in rules && Fires(r, f)) &&
            SortedBySeverity(t) &&
            forall v :: WithSeverity(t, v) == WithSeverity(fired, v)
  {
    var fired := FiringRules(rules, f);
    var t := Reported(fired);
    if |fired| > 0 {
      assert OutcomeOf(fired) != Allow;
      SortBySeverityIsStableSort(fired);
      forall r ensures r in t <==> r in fired {
        assert r in t <==> r in multiset(t);
        assert r in fired <==> r in multiset(fired);
      }
    } else {
      assert t == [];
    }
  }

  /** With non-negative severities the fired part of the total never exceeds it. */
  lemma {:induction false} FiredSeverityAtMostTotal(rules: seq<Rule>, f: Features)
    requires forall i :: 0 <= i < |rules| ==> rules[i].severity >= 0
    ensures 0 <= SeveritySum(FiringRules(rules, f)) <= SeveritySum(rules)
  {
    if |rules| > 0 {
      var front := rules[..|rules| - 1];
      var last := rules[|rules| - 1];
      FiredSeverityAtMostTotal(front, f);
      var ff := FiringRules(front, f);
      if Fires(last, f) {
        assert (ff + [last])[..|ff + [last]| - 1] == ff;
      } else {
        assert ff + [] == ff;
      }
    }
  }

  /** With non-negative severities the confidence is the fired share of the
      total severity plus the high-value bonus, capped at 1 (the clamp to
      [0, 1] never bites); so it is at least the bonus, exactly the bonus when
      nothing fires, and 1 when every rule of a positive total fires. */
  lemma ConfidenceIsFiredShare(rules: seq<Rule>, f: Features)
    requires forall i :: 0 <= i < |rules| ==> rules[i].severity >= 0
    ensures var fired := FiringRules(rules, f);
            var c := Confidence(SeveritySum(fired), SeverityCeiling(rules), f.orderValue);
            c == MinReal(1.0, SeveritySum(fired) as real / SeverityCeiling(rules) as real + HighValueBonus(f.orderValue)) &&
            HighValueBonus(f.orderValue) <= c &&
            (fired == [] ==> c == HighValueBonus(f.orderValue)) &&
            (fired == rules && SeveritySum(rules) > 0 ==> c == 1.0)
  {
    var fired := FiringRules(rules, f);
    FiredSeverityAtMostTotal(rules, f);
    ConfidenceOfShare(SeveritySum(fired), SeverityCeiling(rules), f.orderValue);
  }

  /** The confidence formula on a share `sum` of a positive `ceiling`. */
  lemma ConfidenceOfShare(sum: int, ceiling: int, orderValue: real)
    requires 0 <= sum <= ceiling && ceiling >= 1
    ensures var c := Confidence(sum, ceiling, orderValue);
            c == MinReal(1.0, sum as real / ceiling as real + HighValueBonus(orderValue)) &&
            HighValueBonus(orderValue) <= c &&
            (sum == 0 ==> c == HighValueBonus(orderValue)) &&
            (sum == ceiling ==> c == 1.0)
  {
    var q := sum as real / ceiling as real;
    assert q * ceiling as real == sum as real;
    assert 0.0 <= q;
  }

  /** For a conversation with both a user and a bot message, the decision's
      outcome follows the action precedence of the firing rules, its
      triggered rules are those rules sorted stably by descending severity,
      and its confidence is their severity share plus the bonus. */
  lemma AuditDecision(conversation: seq<Message>, schema: Schema)
    requires FeaturesFor(conversation).Some?
    requires forall i :: 0 <= i < |schema.rules| ==> schema.rules[i].severity >= 0
    ensures var f := FeaturesFor(conversation).value;
            var d := AuditOf(conversation, schema);
            var fired := FiringRules(schema.rules, f);
            (d.outcome == Allow <==> forall r :: r in schema.rules ==> !Fires(r, f)) &&
            (d.outcome == Outcome.Stop <==> FiredWith(schema.rules, f, Action.Stop)) &&
            (d.outcome == InterjectModify <==>
               !FiredWith(schema.rules, f, Action.Stop) && FiredWith(schema.rules, f, Modify)) &&
            (forall r :: r in d.triggeredRules <==> r in schema.rules && Fires(r, f)) &&
            multiset(d.triggeredRules) == multiset(fired) &&
            SortedBySeverity(d.triggeredRules) &&
            (forall v :: WithSeverity(d.triggeredRules, v) == WithSeverity(fired, v)) &&
            d.confidence == MinReal(1.0, SeveritySum(fired) as real / SeverityCeiling(schema.rules) as real
                                         + HighValueBonus(f.orderValue))
  {
    var f := FeaturesFor(conversation).value;
    OutcomePrecedence(schema.rules, f);
    ReportedIsStableSort(schema.rules, f);
    ConfidenceIsFiredShare(schema.rules, f);
  }

  /** Every decision has a suggested reply exactly when its outcome is not
      allow; the reply is the fixed explanation followed by one guidance line
      per triggered rule, in order; and, once both messages exist, one
      rationale line per triggered rule. */
  lemma DecisionShape(parsed: Option<Schema>, conversation: seq<Message>)
    ensures var d := DecisionOf(parsed, conversation);
            (d.suggestedReply.Some? <==> d.outcome != Allow) &&
            (d.suggestedReply.Some? ==>
               d.suggestedReply.value == BaseReply + GuidanceHeader + Join(GuidanceLines(d.triggeredRules), "\n")) &&
            (parsed.Some? && FeaturesFor(conversation).Some? ==>
               |d.rationale| == |d.triggeredRules| &&
               forall i :: 0 <= i < |d.rationale| ==> d.rationale[i] == RationaleLine(d.triggeredRules[i]))
  {
  }

  /** The fallback decisions: an unparsable schema, or a conversation without
      both a user and a bot message, allow with confidence 0, no rule and the
      fixed explanation as the only rationale. */
  lemma DecisionFallbacks(parsed: Option<Schema>, conversation: seq<Message>)
    ensures parsed.None? ==> DecisionOf(parsed, conversation).rationale == ["Invalid schema"]
    ensures parsed.Some? && FeaturesFor(conversation).None? ==>
              DecisionOf(parsed, conversation).rationale == ["Insufficient context to audit (need user + bot)."]
    ensures parsed.None? || FeaturesFor(conversation).None? ==>
              var d := DecisionOf(parsed, conversation);
              d.outcome == Allow && d.confidence == 0.0 && d.triggeredRules == [] && d.suggestedReply.None?
  {
  }

  // ---- the source's loop ----

  /** The loop over the schema's rules: each hit is appended, so the result
      keeps schema order. */
  method MatchRules(rules: seq<Rule>, f: Features) returns (triggered: seq<Rule>)
    ensures triggered == FiringRules(rules, f)
  {
    triggered := [];
    for i := 0 to |rules|
      invariant triggered == FiringRules(rules[..i], f)
    {
      var rule := rules[i];
      var hit := false;
      var m := rule.matchSpec.GetOr(MatchSpec(None, None, None));
      if m.userIncludes.Some? {
        hit := hit || AnyKeywordIn(f.userText, m.userIncludes.value);
      }
      if m.botIncludes.Some? {
        hit := hit || AnyKeywordIn(f.botText, m.botIncludes.value);
      }
      if m.daysSinceOrderOver.Some? {
        if f.days > m.daysSinceOrderOver.value {
          hit := true;
        }
      }
      assert hit == Fires(rule, f);
      assert rules[..i + 1][..i] == rules[..i];
      if hit {
        triggered := triggered + [rule];
      }
    }
    assert rules[..|rules|] == rules;
  }

  /** `audit(conversation, schema)`, step by step as the source does it. */
  method Audit(conversation: seq<Message>, schema: Schema) returns (d: Decision)
    ensures d == AuditOf(conversation, schema)
  {
    var user := LastIndexOf(conversation, User);
    var bot := LastIndexOf(conversation, Bot);
    if user.None? || bot.None? {
      return InsufficientContext;
    }
    var userText := ToLower(conversation[user.value].text);
    var botText := ToLower(conversation[bot.value].text);
    var daysMentioned := DetectDaysSinceMention(conversation[user.value].text).GetOr(0);
    var orderValue := DetectOrderValue(conversation[user.value].text).GetOr(0.0);
    var f := Features(userText, botText, daysMentioned, orderValue);

    var triggered := MatchRules(schema.rules, f);

    var maxSeverity := SeverityCeiling(schema.rules);
    var sevSum := SeveritySum(triggered);
    var confidence := Confidence(sevSum, maxSeverity, orderValue);

    var outcome := OutcomeOf(triggered);

    var suggestedReply: Option<string> := None;
    if outcome != Allow {
      triggered := SortBySeverity(triggered);
      suggestedReply := Some(SuggestedReplyFor(triggered));
    }
    var rationale := RationaleLines(triggered);
    d := Decision(outcome, confidence, triggered, rationale, suggestedReply);
  }

  /** The page's decision, computed with `Audit`. */
  method Decide(parsed: Option<Schema>, conversation: seq<Message>) returns (d: Decision)
    ensures d == DecisionOf(parsed, conversation)
  {
    if parsed.None? {
      return InvalidSchema;
    }
    d := Audit(conversation, parsed.value);
  }
}
