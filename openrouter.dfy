/**
 * The OpenRouter client helpers (`openrouter.ts`, `openrouter_client.py`):
 * pulling the JSON text out of a model answer that may be wrapped in a
 * markdown code fence, and the chat-completion call of the Python port.
 */
module OpenRouter {
  import opened Wrappers
  import opened Text

  const Fence := "```"
  const JsonTag := "json"

  /** A fence (three backticks) starts at k. */
  predicate FenceAt(s: string, k: nat) {
    k + 3 <= |s| && s[k] == '`' && s[k + 1] == '`' && s[k + 2] == '`'
  }

  /** The tag `json` starts at k. */
  predicate JsonAt(s: string, k: nat) {
    k + 4 <= |s| && s[k] == 'j' && s[k + 1] == 's' && s[k + 2] == 'o' && s[k + 3] == 'n'
  }

  lemma FenceAtMeaning(s: string, k: nat)
    ensures FenceAt(s, k) <==> OccursAt(s, Fence, k)
  {
    if OccursAt(s, Fence, k) {
      assert s[k..k + 3][1] == s[k + 1];
    }
    if FenceAt(s, k) {
      assert s[k..k + 3] == Fence;
    }
  }

  /** First fence at or after i. */
  function FindFence(s: string, i: nat): (r: Option<nat>)
    ensures r.Some? ==> i <= r.value && FenceAt(s, r.value)
    ensures r.Some? ==> forall k | i <= k < r.value :: !FenceAt(s, k)
    ensures r.None? ==> forall k | i <= k :: !FenceAt(s, k)
    decreases |s| - i
  {
    if i + 3 > |s| then None
    else if FenceAt(s, i) then Some(i)
    else FindFence(s, i + 1)
  }

  /** Where the fenced text starts: after the opening fence and an immediately following `json` tag. */
  function ContentStart(text: string, open: nat): (c: nat)
    requires FenceAt(text, open)
    ensures c <= |text|
    ensures c == open + 3 || (c == open + 7 && JsonAt(text, open + 3))
  {
    if JsonAt(text, open + 3) then open + 7 else open + 3
  }

  /**
   * `extractJson` / `extract_json`: the regular expression
   * ```` ```(?:json)?\s*([\s\S]*?)``` ```` finds the first fence, drops a `json`
   * tag, and takes the shortest text up to the next fence; the capture (or,
   * without a match, the whole text) is trimmed.  A skipped white-space run
   * holds no backtick, so the capture differs from the text between the tag
   * and the closing fence only by white space the trim removes.  When the
   * first fence has no closing fence after it, no later one has either, so
   * there is no match at all.
   */
  function ExtractJson(text: string): (r: string)
    ensures Trimmed(r)
  {
    match FindFence(text, 0)
    case None => Trim(text)
    case Some(open) =>
      var c := ContentStart(text, open);
      match FindFence(text, c)
      case None => Trim(text)
      case Some(close) => Trim(text[c..close])
  }

  /** No backtick in s[i..j]. */
  predicate NoBacktickIn(s: string, i: nat, j: nat) {
    forall k | i <= k < j && k < |s| :: s[k] != '`'
  }

  predicate NoBacktick(s: string) {
    NoBacktickIn(s, 0, |s|)
  }

  /** The first fence at or after i is at j when none starts in between. */
  lemma {:induction false} FindFenceIs(s: string, i: nat, j: nat)
    requires i <= j && FenceAt(s, j) && NoBacktickIn(s, i, j)
    ensures FindFence(s, i) == Some(j)
    decreases j - i
  {
    if i < j {
      FindFenceIs(s, i + 1, j);
    }
  }

  /** Text without any fence is only trimmed. */
  lemma NoFence(text: string)
    requires !Contains(text, Fence)
    ensures ExtractJson(text) == Trim(text)
  {
    match FindFence(text, 0) {
      case None =>
      case Some(open) =>
        FenceAtMeaning(text, open);
        assert false;
    }
  }

  /** A first fence at n followed by `json` and the next fence at close: the trimmed text between them. */
  lemma TaggedMatch(text: string, n: nat, close: nat)
    requires FindFence(text, 0) == Some(n) && JsonAt(text, n + 3) && FindFence(text, n + 7) == Some(close)
    ensures ExtractJson(text) == Trim(text[n + 7..close])
  {
  }

  /** A first fence at n not followed by `json` and the next fence at close: the trimmed text between them. */
  lemma UntaggedMatch(text: string, n: nat, close: nat)
    requires FindFence(text, 0) == Some(n) && !JsonAt(text, n + 3) && FindFence(text, n + 3) == Some(close)
    ensures ExtractJson(text) == Trim(text[n + 3..close])
  {
  }

  /** Searching from the end of pre, the first fence is the one right after a backtick-free mid. */
  lemma FenceAfter(pre: string, mid: string, rest: string)
    requires NoBacktick(mid)
    ensures FindFence(pre + mid + Fence + rest, |pre|) == Some(|pre| + |mid|)
  {
    var s := pre + mid + Fence + rest;
    var n := |pre| + |mid|;
    assert forall k | |pre| <= k < n :: s[k] == mid[k - |pre|];
    assert s[n] == '`' && s[n + 1] == '`' && s[n + 2] == '`';
    FindFenceIs(s, |pre|, n);
  }

  /** Concatenation regrouped to the right. */
  lemma Regroup(x: string, a: string, b: string)
    ensures x + a + b == x + (a + b)
  {
  }

  /** A backtick-free prefix puts the first fence right after it. */
  lemma Opens(pre: string, rest: string)
    requires NoBacktick(pre)
    ensures FindFence(pre + Fence + rest, 0) == Some(|pre|)
  {
    var s := pre + Fence + rest;
    var n := |pre|;
    assert forall k | 0 <= k < n :: s[k] == pre[k];
    assert s[n] == '`' && s[n + 1] == '`' && s[n + 2] == '`';
    FindFenceIs(s, 0, n);
  }

  /** The middle part of a concatenation, recovered by slicing. */
  lemma Between(pre: string, mid: string, a: string, b: string)
    ensures (pre + mid + a + b)[|pre|..|pre| + |mid|] == mid
  {
  }

  /** A `json` tag right after the opening fence. */
  lemma Tagged(pre: string, body: string, post: string)
    ensures JsonAt(pre + Fence + JsonTag + body + Fence + post, |pre| + 3)
  {
    var s := pre + Fence + JsonTag + body + Fence + post;
    var n := |pre|;
    assert s[n + 3] == 'j' && s[n + 4] == 's' && s[n + 5] == 'o' && s[n + 6] == 'n';
  }

  /** A backtick-free body that does not start with `json` leaves no `json` tag after the opening fence. */
  lemma NotTagged(pre: string, body: string, rest: string)
    requires NoBacktick(body) && !StartsWith(body, JsonTag)
    ensures !JsonAt(pre + Fence + body + Fence + rest, |pre| + 3)
  {
    var s := pre + Fence + body + Fence + rest;
    var n, m := |pre|, |body|;
    assert forall k | n + 3 <= k < n + 3 + m :: s[k] == body[k - n - 3];
    assert s[n + 3 + m] == '`';
    if m >= 4 {
      assert body[..4] != JsonTag;
      assert body[..4] == [body[0], body[1], body[2], body[3]];
    }
  }

  /** A block tagged `json` yields its trimmed body, without the tag. */
  lemma JsonBlock(pre: string, body: string, post: string)
    requires NoBacktick(pre) && NoBacktick(body)
    ensures ExtractJson(pre + Fence + JsonTag + body + Fence + post) == Trim(body)
  {
    var text := pre + Fence + JsonTag + body + Fence + post;
    var n, m := |pre|, |body|;
    assert FindFence(text, 0) == Some(n) by {
      Regroup(pre + Fence + JsonTag + body, Fence, post);
      Regroup(pre + Fence + JsonTag, body, Fence + post);
      Regroup(pre + Fence, JsonTag, body + (Fence + post));
      Opens(pre, JsonTag + (body + (Fence + post)));
    }
    assert JsonAt(text, n + 3) by {
      Tagged(pre, body, post);
    }
    assert FindFence(text, n + 7) == Some(n + 7 + m) by {
      FenceAfter(pre + Fence + JsonTag, body, post);
    }
    assert text[n + 7..n + 7 + m] == body by {
      Between(pre + Fence + JsonTag, body, Fence, post);
    }
    TaggedMatch(text, n, n + 7 + m);
  }

  /**
   * A block with no tag, or with any tag other than `json`, yields its
   * trimmed text with the tag kept.
   */
  lemma UntaggedBlock(pre: string, body: string, post: string)
    requires NoBacktick(pre) && NoBacktick(body) && !StartsWith(body, JsonTag)
    ensures ExtractJson(pre + Fence + body + Fence + post) == Trim(body)
  {
    var text := pre + Fence + body + Fence + post;
    var n, m := |pre|, |body|;
    assert FindFence(text, 0) == Some(n) by {
      Regroup(pre + Fence + body, Fence, post);
      Regroup(pre + Fence, body, Fence + post);
      Opens(pre, body + (Fence + post));
    }
    assert !JsonAt(text, n + 3) by {
      NotTagged(pre, body, post);
    }
    assert FindFence(text, n + 3) == Some(n + 3 + m) by {
      FenceAfter(pre + Fence, body, post);
    }
    assert text[n + 3..n + 3 + m] == body by {
      Between(pre + Fence, body, Fence, post);
    }
    UntaggedMatch(text, n, n + 3 + m);
  }

  /** An opening fence without a closing one leaves the text only trimmed. */
  lemma UnclosedFence(pre: string, rest: string)
    requires NoBacktick(pre) && !Contains(rest, Fence)
    ensures ExtractJson(pre + Fence + rest) == Trim(pre + Fence + rest)
  {
    var a := pre + Fence;
    var text := a + rest;
    var n := |pre|;
    Opens(pre, rest);
    forall k | n + 3 <= k ensures !FenceAt(text, k) {
      if FenceAt(text, k) {
        assert FenceAt(rest, k - n - 3);
        FenceAtMeaning(rest, k - n - 3);
        assert false;
      }
    }
  }

  /** Only the first block counts: a second fenced block is ignored. */
  lemma FirstBlockWins(body: string, other: string)
    requires NoBacktick(body) && NoBacktick(other)
    ensures ExtractJson(Fence + JsonTag + body + Fence + Fence + JsonTag + other + Fence) == Trim(body)
  {
    assert Fence + JsonTag + body + Fence + Fence + JsonTag + other + Fence ==
      [] + Fence + JsonTag + body + Fence + (Fence + JsonTag + other + Fence);
    JsonBlock([], body, Fence + JsonTag + other + Fence);
  }

  // ---------------------------------------------------------------- chat_completion

  /** The message part of one choice. */
  datatype Message = Message(content: Option<string>)
  datatype Choice = Choice(message: Option<Message>)

  /** A decoded response body; `choices` is None when the key is absent. */
  datatype Body = Body(choices: Option<seq<Choice>>)

  /** What the HTTP exchange produced: a transport error, or a status with a body that may not decode. */
  datatype Exchange = TransportError | Response(status: int, body: Option<Body>)

  /** A call returns the content (possibly None) or raises. */
  datatype Completion = Raised | Returned(content: Option<string>)

  /** The outcome of `chat_completion` and whether a request was sent. */
  datatype Call = Call(requested: bool, outcome: Completion)

  /** `raise_for_status`: client and server errors. */
  predicate ErrorStatus(status: int) {
    400 <= status < 600
  }

  /** `data.get("choices", [{}])[0].get("message", {}).get("content")`; an empty list raises. */
  function ContentOf(b: Body): Completion {
    match b.choices
    case None => Returned(None)
    case Some(cs) =>
      if cs == [] then Raised
      else match cs[0].message
        case None => Returned(None)
        case Some(m) => Returned(m.content)
  }

  /**
   * `chat_completion`: no request and None without an API key; otherwise the
   * exchange's content, with every failure raised again after logging.
   */
  function ChatCompletion(apiKey: string, exchange: Exchange): (r: Call)
    ensures r.requested <==> apiKey != ""
    ensures apiKey == "" ==> r.outcome == Returned(None)
    ensures r.outcome == Raised <==>
      (apiKey != "" && (exchange.TransportError? || ErrorStatus(exchange.status) || exchange.body.None? ||
        exchange.body.value.choices == Some([])))
    ensures r.outcome.Returned? && r.outcome.content.Some? ==>
      exchange.Response? && exchange.body.Some? && exchange.body.value.choices.Some? &&
      exchange.body.value.choices.value[0].message == Some(Message(r.outcome.content))
  {
    if apiKey == "" then Call(false, Returned(None))
    else match exchange
      case TransportError => Call(true, Raised)
      case Response(status, body) =>
        if ErrorStatus(status) then Call(true, Raised)
        else match body
          case None => Call(true, Raised)
          case Some(b) => Call(true, ContentOf(b))
  }
}
