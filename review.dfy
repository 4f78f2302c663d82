/** The incident detail page's review state: the transcript being reviewed,
    the schema the auditor applies, and the three operator actions (apply the
    suggestion, allow the original reply, request a human), each of which
    records an auditor message in the transcript. */
module Review {
  import opened Wrappers
  import opened Text
  import opened Policy
  import opened Auditor

  const ModifiedNotice := "AI Auditor interjected and modified the bot response."
  const OverrideNotice := "AI Auditor was overridden by user. Original bot response sent."
  const HumanNotice := "AI Auditor stopped the bot and requested human interjection."

  /** Some message of the transcript was written by the auditor. */
  predicate HasAuditorMessage(conversation: seq<Message>) {
    exists i | 0 <= i < |conversation| :: conversation[i].role == Auditor
  }

  /** The violation banner: the auditor objects and nobody has acted on it yet. */
  predicate Unresolved(conversation: seq<Message>, d: Decision) {
    !HasAuditorMessage(conversation) && d.outcome != Allow
  }

  /** A suggestion exists only where a bot message exists, so the source's
      last-bot index is always defined when the suggestion is applied. */
  lemma SuggestionNeedsBot(parsed: Option<Schema>, conversation: seq<Message>)
    ensures DecisionOf(parsed, conversation).suggestedReply.Some? ==> LastIndexOf(conversation, Bot).Some?
  {
    if parsed.Some? && FeaturesFor(conversation).None? {
      assert AuditOf(conversation, parsed.value) == InsufficientContext;
    }
  }

  /** The transcript after applying the suggestion: everything up to the last
      bot message, then an auditor notice, then the suggested reply as the new
      bot message, which keeps the replaced text. Whatever followed the last
      bot message is dropped. */
  function WithSuggestion(conversation: seq<Message>, d: Decision, now: nat): (r: seq<Message>)
    requires d.suggestedReply.Some? && LastIndexOf(conversation, Bot).Some?
    ensures var k := LastIndexOf(conversation, Bot).value;
            |r| == k + 3 && r[..k + 1] == conversation[..k + 1] &&
            r[k + 1].role == Auditor && r[k + 1].text == ModifiedNotice &&
            r[k + 1].meta == Some(Meta(None, d)) &&
            r[k + 2].role == Bot && r[k + 2].text == d.suggestedReply.value &&
            r[k + 2].meta == Some(Meta(Some(conversation[k].text), d))
    ensures LastIndexOf(r, Bot) == Some(|r| - 1)
    ensures HasAuditorMessage(r)
  {
    var k := LastIndexOf(conversation, Bot).value;
    var r := conversation[..k + 1] +
      [ Message("auditor-" + NatToString(now), Auditor, ModifiedNotice, Some(Meta(None, d))),
        Message("bot-modified-" + NatToString(now), Bot, d.suggestedReply.value,
                Some(Meta(Some(conversation[k].text), d))) ];
    assert r[k + 1].role == Auditor;
    r
  }

  /** The transcript with an auditor notice appended. */
  function WithNotice(conversation: seq<Message>, id: string, text: string, d: Decision): (r: seq<Message>)
    ensures |r| == |conversation| + 1 && r[..|conversation|] == conversation
    ensures r[|conversation|].role == Auditor && r[|conversation|].text == text
    ensures r[|conversation|].id == id && r[|conversation|].meta == Some(Meta(None, d))
    ensures HasAuditorMessage(r)
  {
    var r := conversation + [Message(id, Auditor, text, Some(Meta(None, d)))];
    assert r[|conversation|].role == Auditor;
    r
  }

  /** An appended auditor notice changes neither the last user nor the last
      bot message, so the audit of the transcript stays the same. */
  lemma NoticeKeepsDecision(conversation: seq<Message>, id: string, text: string, d: Decision, parsed: Option<Schema>)
    ensures DecisionOf(parsed, WithNotice(conversation, id, text, d)) == DecisionOf(parsed, conversation)
  {
    var r := WithNotice(conversation, id, text, d);
    assert r[..|r| - 1] == conversation;
    assert FeaturesFor(r) == FeaturesFor(conversation);
  }

  /** Once any operator action has recorded an auditor message, no violation
      is reported as unresolved, whatever the schema says. */
  lemma ActionsResolve(conversation: seq<Message>, d: Decision, now: nat, id: string, text: string, d': Decision)
    ensures !Unresolved(WithNotice(conversation, id, text, d), d')
    ensures d.suggestedReply.Some? && LastIndexOf(conversation, Bot).Some? ==>
              !Unresolved(WithSuggestion(conversation, d, now), d')
  {
  }

  /** After the suggestion is applied, the audit sees the suggested reply as
      the bot's last message. */
  lemma AppliedReplyIsAudited(conversation: seq<Message>, d: Decision, now: nat)
    requires d.suggestedReply.Some? && LastIndexOf(conversation, Bot).Some?
    requires FeaturesFor(WithSuggestion(conversation, d, now)).Some?
    ensures FeaturesFor(WithSuggestion(conversation, d, now)).value.botText == ToLower(d.suggestedReply.value)
  {
  }

  /** What loading the user's record yields: the stored transcript (absent in
      a record that has none) or a failed request. */
  datatype FetchResult = Fetched(history: Option<seq<Message>>) | FetchFailed

  class ReviewPage {
    var initialConversation: seq<Message>
    var conversation: seq<Message>
    var parsed: Option<Schema>
    var error: string

    /** The page before the user's record arrives, with the default schema. */
    constructor()
      ensures initialConversation == [] && conversation == []
      ensures parsed == Some(DefaultSchema) && error == ""
    {
      initialConversation := [];
      conversation := [];
      parsed := Some(DefaultSchema);
      error := "";
    }

    /** The auditor's decision on the current transcript. */
    function CurrentDecision(): Decision
      reads this
    {
      DecisionOf(parsed, conversation)
    }

    predicate HasUnresolvedViolations()
      reads this
    {
      Unresolved(conversation, CurrentDecision())
    }

    /** Loading the record sets the initial transcript (empty when the record
        has none), which the page then takes as the transcript under review;
        a failed request only sets the error. */
    method LoadUserData(fetched: FetchResult)
      modifies this
      ensures fetched.Fetched? ==>
                initialConversation == fetched.history.GetOr([]) &&
                conversation == initialConversation && error == ""
      ensures fetched.FetchFailed? ==>
                initialConversation == old(initialConversation) &&
                conversation == old(conversation) && error == "Failed to load user data"
      ensures parsed == old(parsed)
    {
      match fetched
      case Fetched(history) =>
        initialConversation := history.GetOr([]);
        conversation := initialConversation;
        error := "";
      case FetchFailed =>
        error := "Failed to load user data";
    }

    /** Editing the schema text: `p` is what parsing the new text yields. */
    method EditSchema(p: Option<Schema>)
      modifies this
      ensures parsed == p
      ensures initialConversation == old(initialConversation) && conversation == old(conversation)
      ensures error == old(error)
    {
      parsed := p;
    }

    /** `applySuggestion` at time `now`: does nothing without a suggestion. */
    method ApplySuggestion(now: nat)
      modifies this
      ensures var d := old(CurrentDecision());
              if d.suggestedReply.None? then conversation == old(conversation)
              else LastIndexOf(old(conversation), Bot).Some? &&
                   conversation == WithSuggestion(old(conversation), d, now) &&
                   !HasUnresolvedViolations()
      ensures initialConversation == old(initialConversation) && parsed == old(parsed)
      ensures error == old(error)
    {
      var d := Decide(parsed, conversation);
      if d.suggestedReply.None? {
        return;
      }
      SuggestionNeedsBot(parsed, conversation);
      conversation := WithSuggestion(conversation, d, now);
    }

    /** `allowOriginal` at time `now`: records the override; the audit is unchanged. */
    method AllowOriginal(now: nat)
      modifies this
      ensures conversation ==
                WithNotice(old(conversation), "auditor-override-" + NatToString(now), OverrideNotice, old(CurrentDecision()))
      ensures CurrentDecision() == old(CurrentDecision()) && !HasUnresolvedViolations()
      ensures initialConversation == old(initialConversation) && parsed == old(parsed)
      ensures error == old(error)
    {
      var d := Decide(parsed, conversation);
      NoticeKeepsDecision(conversation, "auditor-override-" + NatToString(now), OverrideNotice, d, parsed);
      conversation := WithNotice(conversation, "auditor-override-" + NatToString(now), OverrideNotice, d);
    }

    /** `requestHuman` at time `now`: records the request; the audit is unchanged. */
    method RequestHuman(now: nat)
      modifies this
      ensures conversation ==
                WithNotice(old(conversation), "auditor-human-" + NatToString(now), HumanNotice, old(CurrentDecision()))
      ensures CurrentDecision() == old(CurrentDecision()) && !HasUnresolvedViolations()
      ensures initialConversation == old(initialConversation) && parsed == old(parsed)
      ensures error == old(error)
    {
      var d := Decide(parsed, conversation);
      NoticeKeepsDecision(conversation, "auditor-human-" + NatToString(now), HumanNotice, d, parsed);
      conversation := WithNotice(conversation, "auditor-human-" + NatToString(now), HumanNotice, d);
    }

    /** `resetDemo`: back to the transcript as loaded. */
    method ResetDemo()
      modifies this
      ensures conversation == initialConversation
      ensures initialConversation == old(initialConversation) && parsed == old(parsed)
      ensures error == old(error)
    {
      conversation := initialConversation;
    }
  }
}
