// The `/ask` handler: validate `message`, forward it trimmed and cut to 1200
// characters, and answer with the brand-filtered reply; an exception becomes a
// 500 with a fixed reply.
module AskRoute {
  import opened Wrappers
  import opened Strings
  import opened Json
  import opened Brand
  import opened Provider

  const MaxMessageLength: nat := 1200
  const UsageReply: string := "SzalAI: wyślij pole message jako tekst."
  const ServerErrorReply: string := "SzalAI: błąd serwera \U{1F635}"

  /** The HTTP status and `{reply}` body sent back, and the message handed to
      `callOpenAI` (None when it was not called). */
  datatype Response = Response(status: nat, reply: string, forwarded: Option<string>)

  /** `req.body?.message` when it is a string with non-blank text. */
  function AcceptedMessage(body: Option<Json>): (r: Option<string>)
    ensures r.Some? ==> Get(body, "message") == Some(JStr(r.value)) && !AllWs(r.value)
    ensures (exists m :: Get(body, "message") == Some(JStr(m)) && !AllWs(m)) ==> r.Some?
  {
    match AsString(Get(body, "message"))
    case Some(m) => if Trim(m) != "" then Some(m) else None
    case None => None
  }

  /** `message.trim().slice(0, 1200)`. */
  function SafeMessage(m: string): (s: string)
    ensures s <= Trim(m)
    ensures |s| == if |Trim(m)| <= MaxMessageLength then |Trim(m)| else MaxMessageLength
  {
    SafeSlice(Some(Trim(m)), MaxMessageLength)
  }

  /** The handler, given the request body, whether the key is configured, and
      what each upstream attempt with the forwarded message would produce. */
  function Ask(body: Option<Json>, hasKey: bool, primary: Attempt, fallback: Attempt): (r: Response)
    ensures r.status in {200, 400, 500}
    ensures r.status == 400 <==> AcceptedMessage(body).None?
    ensures r.status == 400 ==> r.reply == UsageReply && r.forwarded == None
    ensures r.status != 400 ==> r.forwarded.Some? && r.forwarded.value != ""
    ensures r.status == 500 ==> r.reply == ServerErrorReply
    ensures r.status == 200 ==> Free(r.reply, ChatGpt) && Free(r.reply, OpenAi)
  {
    match AcceptedMessage(body)
    case None => Response(400, UsageReply, None)
    case Some(m) =>
      var safe := SafeMessage(m);
      match CallOpenAI(hasKey, primary, fallback)
      case Raised => Response(500, ServerErrorReply, Some(safe))
      case Returned(reply) =>
        BrandSwapRemovesNames(Some(Render(reply)));
        Response(200, BrandSwap(Some(Render(reply))), Some(safe))
  }

  /** A missing, non-string or blank message is refused before any upstream
      call: the response does not depend on the key or on the attempts. */
  lemma RejectsWithoutCalling(body: Option<Json>, k1: bool, p1: Attempt, f1: Attempt,
                              k2: bool, p2: Attempt, f2: Attempt)
    requires AcceptedMessage(body).None?
    ensures Ask(body, k1, p1, f1) == Ask(body, k2, p2, f2) == Response(400, UsageReply, None)
  {
  }

  /** An accepted message is forwarded trimmed and cut to its first 1200
      characters, so it is non-blank and starts with a non-space. */
  lemma ForwardsTrimmedPrefix(body: Option<Json>, hasKey: bool, primary: Attempt, fallback: Attempt)
    requires AcceptedMessage(body).Some?
    ensures var m := AcceptedMessage(body).value;
      var fwd := Ask(body, hasKey, primary, fallback).forwarded;
      && fwd.Some? && fwd.value <= Trim(m)
      && |fwd.value| == (if |Trim(m)| <= MaxMessageLength then |Trim(m)| else MaxMessageLength)
      && |fwd.value| > 0 && !IsWs(fwd.value[0])
  {
  }

  /** A reply is filtered exactly once, and filtering again would change nothing. */
  lemma RepliesBrandedOnce(body: Option<Json>, hasKey: bool, primary: Attempt, fallback: Attempt)
    requires AcceptedMessage(body).Some?
    requires CallOpenAI(hasKey, primary, fallback).Returned?
    ensures var r := Ask(body, hasKey, primary, fallback);
      && r.status == 200
      && r.reply == BrandSwap(Some(Render(CallOpenAI(hasKey, primary, fallback).reply)))
      && BrandSwap(Some(r.reply)) == r.reply
  {
    BrandSwapIdempotent(Some(Render(CallOpenAI(hasKey, primary, fallback).reply)));
  }

  /** The only 500 is a throw escaping `callOpenAI`. */
  lemma ServerErrorOnlyOnThrow(body: Option<Json>, hasKey: bool, primary: Attempt, fallback: Attempt)
    requires AcceptedMessage(body).Some?
    ensures Ask(body, hasKey, primary, fallback).status == 500
            <==> CallOpenAI(hasKey, primary, fallback).Raised?
  {
  }
}
