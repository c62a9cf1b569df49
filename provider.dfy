// `callOpenAI(message)`: the decision chain over the two upstream attempts.
// The network is not modelled: each attempt is given as its outcome, either a
// thrown error (network failure, abort on the 15-second timeout) or the
// response's status, its body as text (a failed body read gives ""), and the
// result of `JSON.parse` on that text (None when it throws).
module Provider {
  import opened Wrappers
  import opened Strings
  import opened Json
  import opened Responses

  datatype Attempt =
    | Threw
    | Responded(status: nat, raw: string, parsed: Option<Json>)

  /** `Response.ok`: a status in the range 200-299. */
  predicate Ok(status: nat)
    ensures Ok(status) <==> status / 100 == 2
  {
    200 <= status <= 299
  }

  /** Length of the body preview in a diagnostic. */
  const PreviewLength: nat := 160

  /** `safeSlice(raw, 160)`. */
  function Preview(raw: string): (p: string)
    ensures p <= raw
    ensures |p| == if |raw| <= PreviewLength then |raw| else PreviewLength
  {
    SafeSlice(Some(raw), PreviewLength)
  }

  /** The failure categories the function reports as reply text. */
  datatype Diagnostic =
    | MissingKey
    | ResponsesStatus(status: nat, preview: string)
    | ResponsesNotJson(preview: string)
    | ChatStatus(status: nat, preview: string)
    | ChatNotJson(preview: string)
    | NoAnswer

  datatype Reply = Answer(text: string) | Diag(diagnostic: Diagnostic)

  /** The function either resolves with a reply or rejects (throws). */
  datatype CallOutcome = Returned(reply: Reply) | Raised

  const BrandTag: string := "SzalAI: "

  /** The reply text the function resolves with. */
  function Render(r: Reply): (s: string)
    ensures r.Answer? ==> s == r.text
    ensures r.Diag? ==> BrandTag <= s
    ensures r.Diag? && !r.diagnostic.MissingKey? && !r.diagnostic.NoAnswer? ==>
              |r.diagnostic.preview| <= |s| && s[|s| - |r.diagnostic.preview|..] == r.diagnostic.preview
  {
    match r
    case Answer(t) => t
    case Diag(MissingKey) =>
      BrandTag + "brak OPENAI_API_KEY na Render (Environment Variables) \U{1F511}"
    case Diag(ResponsesStatus(st, p)) =>
      BrandTag + "błąd OpenAI /responses (" + NatToString(st) + ") " + p
    case Diag(ResponsesNotJson(p)) =>
      BrandTag + "/responses zwróciło nie-JSON: " + p
    case Diag(ChatStatus(st, p)) =>
      BrandTag + "błąd OpenAI /chat (" + NatToString(st) + ") " + p
    case Diag(ChatNotJson(p)) =>
      BrandTag + "/chat zwróciło nie-JSON: " + p
    case Diag(NoAnswer) =>
      BrandTag + "brak odpowiedzi \U{1F605}"
  }

  /** What `data2?.choices?.[0]?.message?.content` holds, as far as the
      following `?.trim()` cares: nothing (undefined or null), a string, or
      something else, on which calling `trim` throws a TypeError. */
  datatype Content = Missing | Text(s: string) | NotTrimmable

  function ChatContent(data: Json): (c: Content)
    ensures c != Missing ==> data.JObj? && "choices" in data.fields
  {
    match Get(Get(Index0(Get(Some(data), "choices")), "message"), "content")
    case None => Missing
    case Some(JNull) => Missing
    case Some(JStr(s)) => Text(s)
    case Some(_) => NotTrimmable
  }

  /** The primary attempt reaches the fallback: it threw, or it was a JSON
      success from which no text could be extracted. */
  predicate ReachesFallback(primary: Attempt)
    ensures primary.Responded? && (!Ok(primary.status) || primary.parsed.None?) ==> !ReachesFallback(primary)
  {
    || primary.Threw?
    || (Ok(primary.status) && primary.parsed.Some? && ResponsesText(primary.parsed.value) == "")
  }

  /** The `/chat/completions` attempt; a throw there escapes the function. */
  function Fallback(fallback: Attempt): (r: CallOutcome)
    ensures r.Raised? <==> fallback.Threw? || (Ok(fallback.status) && fallback.parsed.Some?
                                              && ChatContent(fallback.parsed.value).NotTrimmable?)
  {
    match fallback
    case Threw => Raised
    case Responded(st, raw, parsed) =>
      if !Ok(st) then Returned(Diag(ChatStatus(st, Preview(raw))))
      else match parsed
        case None => Returned(Diag(ChatNotJson(Preview(raw))))
        case Some(data) =>
          match ChatContent(data)
          case NotTrimmable => Raised
          case Missing => Returned(Diag(NoAnswer))
          case Text(s) => if Trim(s) != "" then Returned(Answer(Trim(s))) else Returned(Diag(NoAnswer))
  }

  /** `callOpenAI(message)`, given whether the key is configured and what each
      attempt with that message would produce. */
  function CallOpenAI(hasKey: bool, primary: Attempt, fallback: Attempt): (r: CallOutcome)
    ensures r == Returned(Diag(MissingKey)) <==> !hasKey
    ensures r.Raised? ==> hasKey && ReachesFallback(primary)
    ensures r.Returned? ==> Render(r.reply) != ""
    ensures r.Returned? && r.reply.Answer? ==> IsTrimmed(r.reply.text)
  {
    if !hasKey then Returned(Diag(MissingKey))
    else match primary
      case Threw => Fallback(fallback)
      case Responded(st, raw, parsed) =>
        if !Ok(st) then Returned(Diag(ResponsesStatus(st, Preview(raw))))
        else match parsed
          case None => Returned(Diag(ResponsesNotJson(Preview(raw))))
          case Some(data) =>
            var text := ResponsesText(data);
            if text != "" then Returned(Answer(text)) else Fallback(fallback)
  }

  /** Without a key nothing is attempted: the outcomes of the attempts do not matter. */
  lemma MissingKeyMakesNoAttempt(p1: Attempt, f1: Attempt, p2: Attempt, f2: Attempt)
    ensures CallOpenAI(false, p1, f1) == CallOpenAI(false, p2, f2) == Returned(Diag(MissingKey))
  {
  }

  /** A non-ok primary status is reported at once, with the status and the
      body's first 160 characters; the fallback is not consulted. */
  lemma PrimaryStatusStops(status: nat, raw: string, parsed: Option<Json>, fallback: Attempt)
    requires !Ok(status)
    ensures CallOpenAI(true, Responded(status, raw, parsed), fallback)
            == Returned(Diag(ResponsesStatus(status, Preview(raw))))
  {
  }

  /** A successful primary response whose body is not JSON is reported at once. */
  lemma PrimaryNotJsonStops(status: nat, raw: string, fallback: Attempt)
    requires Ok(status)
    ensures CallOpenAI(true, Responded(status, raw, None), fallback)
            == Returned(Diag(ResponsesNotJson(Preview(raw))))
  {
  }

  /** Text extracted from the primary response is the reply, unchanged. */
  lemma PrimaryTextIsReply(status: nat, raw: string, data: Json, fallback: Attempt)
    requires Ok(status) && ResponsesText(data) != ""
    ensures CallOpenAI(true, Responded(status, raw, Some(data)), fallback)
            == Returned(Answer(ResponsesText(data)))
  {
  }

  /** The fallback is consulted exactly when the primary attempt threw or
      extracted nothing: then its outcome decides the result, and otherwise
      it makes no difference. */
  lemma FallbackConsultedIff(primary: Attempt)
    ensures ReachesFallback(primary) <==>
            CallOpenAI(true, primary, Threw) != CallOpenAI(true, primary, Responded(500, "", None))
  {
  }

  lemma FallbackIgnoredOtherwise(primary: Attempt, f1: Attempt, f2: Attempt)
    requires !ReachesFallback(primary)
    ensures CallOpenAI(true, primary, f1) == CallOpenAI(true, primary, f2)
  {
  }

  /** A primary that extracted nothing is treated like one that threw. */
  lemma EmptyExtractionLikeThrow(primary: Attempt, fallback: Attempt)
    requires ReachesFallback(primary)
    ensures CallOpenAI(true, primary, fallback) == CallOpenAI(true, Threw, fallback)
  {
  }

  /** The fallback's outcome table, once it is reached. */
  lemma FallbackTable(primary: Attempt, fallback: Attempt)
    requires ReachesFallback(primary)
    ensures var r := CallOpenAI(true, primary, fallback);
      && (fallback.Threw? ==> r.Raised?)
      && (fallback.Responded? && !Ok(fallback.status) ==>
            r == Returned(Diag(ChatStatus(fallback.status, Preview(fallback.raw)))))
      && (fallback.Responded? && Ok(fallback.status) && fallback.parsed.None? ==>
            r == Returned(Diag(ChatNotJson(Preview(fallback.raw)))))
      && (fallback.Responded? && Ok(fallback.status) && fallback.parsed.Some? ==>
            match ChatContent(fallback.parsed.value)
            case NotTrimmable => r.Raised?
            case Missing => r == Returned(Diag(NoAnswer))
            case Text(s) => r == Returned(if AllWs(s) then Diag(NoAnswer) else Answer(Trim(s))))
  {
  }

  /** The Chat Completions envelope `{"choices": [{"message": {"content": s}}]}`. */
  function ChatEnvelope(s: string): Json
  {
    JObj(map["choices" := JArr([JObj(map["message" := JObj(map["content" := JStr(s)])])])])
  }

  /** The fallback reads the content of the envelope's first choice, and an
      ok reply with non-blank content is answered with that content trimmed. */
  lemma FallbackAnswersContent(status: nat, raw: string, s: string)
    requires Ok(status)
    ensures ChatContent(ChatEnvelope(s)) == Text(s)
    ensures !AllWs(s) ==> Fallback(Responded(status, raw, Some(ChatEnvelope(s)))) == Returned(Answer(Trim(s)))
    ensures AllWs(s) ==> Fallback(Responded(status, raw, Some(ChatEnvelope(s)))) == Returned(Diag(NoAnswer))
  {
    var msg := JObj(map["content" := JStr(s)]);
    var choice := JObj(map["message" := msg]);
    assert Get(Some(ChatEnvelope(s)), "choices") == Some(JArr([choice]));
    assert Index0(Some(JArr([choice]))) == Some(choice);
    assert Get(Some(choice), "message") == Some(msg);
    assert Get(Some(msg), "content") == Some(JStr(s));
  }
}
