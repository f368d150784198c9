/** The offline reply of the chat pages (main.py `local_fallback_reply`):
    when no language model is available, the app answers with a fixed
    template that echoes the learner's latest message. */
module Chat {
  import opened Text

  /** A chat message as the fallback reads it: its "role" when that is a
      string (None when the key is missing or holds another value), and the
      text its "content" renders to in an f-string (None when the key is
      missing). */
  datatype Message = Message(role: Option<string>, content: Option<string>)

  predicate IsUser(m: Message) {
    m.role == Some("user")
  }

  /** `m.get("content", "")`, as it appears in the reply. */
  function ContentOf(m: Message): string {
    if m.content.Some? then m.content.value else ""
  }

  /** The content of the latest user message, or "" when there is none: a
      non-empty result is always the content of some user message. */
  function LastUserContent(messages: seq<Message>): (r: string)
    ensures r == "" || exists i :: 0 <= i < |messages| && IsUser(messages[i]) && ContentOf(messages[i]) == r
    decreases |messages|
  {
    if messages == [] then ""
    else if IsUser(messages[|messages| - 1]) then ContentOf(messages[|messages| - 1])
    else LastUserContent(messages[..|messages| - 1])
  }

  const ReplyLead: string := "(ローカル簡易応答) I understood your message and will keep it short.\nYou said: "
  const ReplyMid: string := "\nJP: あなたの入力は『"
  const ReplyTail: string := "』でした。"

  /** The reply template around the echoed message: it always opens with the
      local-reply marker and closes the Japanese quotation. */
  function FallbackReplyText(lastUser: string): (r: string)
    ensures IsPrefix(ReplyLead, r)
    ensures |r| >= |ReplyTail| && r[|r| - |ReplyTail|..] == ReplyTail
  {
    ReplyLead + lastUser + ReplyMid + lastUser + ReplyTail
  }

  /** `local_fallback_reply`: scan the messages from the newest, stop at the
      first user message, and fill the template with its content. */
  method LocalFallbackReply(messages: seq<Message>) returns (reply: string)
    ensures reply == FallbackReplyText(LastUserContent(messages))
  {
    var lastUser := "";
    var i := |messages|;
    assert messages[..i] == messages;
    while i > 0
      invariant 0 <= i <= |messages|
      invariant lastUser == ""
      invariant LastUserContent(messages) == LastUserContent(messages[..i])
    {
      assert messages[..i][..i - 1] == messages[..i - 1];
      var m := messages[i - 1];
      if IsUser(m) {
        lastUser := ContentOf(m);
        break;
      }
      i := i - 1;
    }
    reply := FallbackReplyText(lastUser);
  }

  /** The reply echoes the content of the latest user message: every user
      message after position `i` is absent, so position `i`'s content is
      the one taken. */
  lemma {:induction false} LatestUserTaken(messages: seq<Message>, i: int)
    requires 0 <= i < |messages| && IsUser(messages[i])
    requires forall j :: i < j < |messages| ==> !IsUser(messages[j])
    ensures LastUserContent(messages) == ContentOf(messages[i])
    decreases |messages|
  {
    var n := |messages|;
    if i < n - 1 {
      var init := messages[..n - 1];
      forall j | i < j < |init| ensures !IsUser(init[j]) {
        assert init[j] == messages[j];
      }
      LatestUserTaken(init, i);
    }
  }

  /** Without any user message the echoed text is empty. */
  lemma {:induction false} NoUserMessage(messages: seq<Message>)
    requires forall j :: 0 <= j < |messages| ==> !IsUser(messages[j])
    ensures LastUserContent(messages) == ""
    decreases |messages|
  {
    if messages != [] {
      var init := messages[..|messages| - 1];
      forall j | 0 <= j < |init| ensures !IsUser(init[j]) {
        assert init[j] == messages[j];
      }
      NoUserMessage(init);
    }
  }

  /** Assistant or system messages added after the conversation do not
      change what is echoed. */
  lemma {:induction false} LaterNonUserIgnored(messages: seq<Message>, later: seq<Message>)
    requires forall j :: 0 <= j < |later| ==> !IsUser(later[j])
    ensures LastUserContent(messages + later) == LastUserContent(messages)
    decreases |later|
  {
    if later != [] {
      var init := later[..|later| - 1];
      assert (messages + later)[..|messages + later| - 1] == messages + init;
      assert (messages + later)[|messages + later| - 1] == later[|later| - 1];
      forall j | 0 <= j < |init| ensures !IsUser(init[j]) {
        assert init[j] == later[j];
      }
      LaterNonUserIgnored(messages, init);
    } else {
      assert messages + later == messages;
    }
  }

  /** The message appears twice in the reply: after "You said: " and
      inside the Japanese quotation marks. */
  lemma ReplyEchoes(u: string)
    ensures OccursAt(u, FallbackReplyText(u), |ReplyLead|)
    ensures OccursAt(u, FallbackReplyText(u), |ReplyLead| + |u| + |ReplyMid|)
  {
    PlacedTwice(ReplyLead, u, ReplyMid, ReplyTail);
  }

  /** Different echoed texts give different replies. */
  lemma ReplyInjective(u: string, v: string)
    requires FallbackReplyText(u) == FallbackReplyText(v)
    ensures u == v
  {
    ReplyEchoes(u);
    ReplyEchoes(v);
    assert |u| == |v|;
  }
}
