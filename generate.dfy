/**
 * POST /api/generate: check the idea, build the chat request for the OpenRouter
 * completions endpoint, then turn the upstream reply into the landing-page JSON
 * or a 500 carrying the error message.
 */
module Generate {
  import opened Wrappers
  import opened Text
  import opened Json
  import opened Normalise
  import opened Records

  /** The model used when `AI_MODEL` is unset or empty. */
  const DefaultModel := "meta-llama/llama-4-maverick:free"

  /** The prompt up to the opening quote around the idea. */
  const PromptLead := "Create a professional startup landing page for: \""

  /**
   * The prompt after the closing quote around the idea, line by line (it starts with the
   * line break that ends the idea's line): the JSON schema, then the page brief.
   */
  const PromptTailLines: seq<string> :=
    [
      "",
      "",
      "Return ONLY valid JSON (no markdown, no code blocks):",
      "{",
      "  \"startupName\": \"Name\",",
      "  \"tagline\": \"Tagline\",",
      "  \"description\": \"Description\",",
      "  \"targetAudience\": \"Audience\",",
      "  \"keyFeatures\": [\"feature1\", \"feature2\", \"feature3\", \"feature4\", \"feature5\"],",
      "  \"colorScheme\": {\"primary\": \"#3b82f6\", \"secondary\": \"#1f2937\", \"accent\": \"#ef4444\"},",
      "  \"landingPageHtml\": \"Complete HTML\"",
      "}",
      "",
      "For landingPageHtml, generate complete, valid HTML5 with:",
      "",
      "1. Full structure: <!DOCTYPE html><html><head>...</head><body>...</body></html>",
      "2. Responsive navbar with mobile hamburger menu that toggles dropdown",
      "3. Hero section with headline, description, and CTA buttons",
      "4. Features section with 6 cards in grid layout",
      "5. How it works section with 4 numbered steps",
      "6. Pricing section with 3 pricing tiers",
      "7. Contact/CTA section",
      "8. Footer with links",
      "",
      "Design requirements:",
      "- Use the provided color scheme (primary, secondary, accent)",
      "- Clean, minimal design with proper spacing",
      "- Responsive: works on mobile, tablet, desktop",
      "- Smooth scroll navigation when clicking navbar links",
      "- Mobile menu dropdown with smooth animation",
      "- All sections have proper IDs for linking",
      "- Professional typography and spacing",
      "- Subtle shadows and hover effects",
      "- All content is visible and readable",
      "",
      "Include complete CSS in <style> tag and JavaScript in <script> tag for:",
      "- Mobile menu toggle functionality",
      "- Smooth scroll to sections",
      "- Responsive design",
      "",
      "Return ONLY the JSON object."
    ]

  function PromptTail(): string
  {
    Join(PromptTailLines, "\n")
  }

  /** The prompt with the idea interpolated between double quotes. */
  function Prompt(idea: string): string
  {
    PromptLead + idea + "\"" + PromptTail()
  }

  /** Reads the idea back out of a prompt. */
  function IdeaOfPrompt(p: string): string
    requires |p| >= |PromptLead| + 1 + |PromptTail()|
  {
    p[|PromptLead|..|p| - 1 - |PromptTail()|]
  }

  /** The idea sits verbatim right after the lead, followed by the closing quote; reading it back gives it again. */
  lemma PromptEmbedsIdea(idea: string)
    ensures |Prompt(idea)| == |PromptLead| + |idea| + 1 + |PromptTail()|
    ensures Prompt(idea)[..|PromptLead|] == PromptLead
    ensures Prompt(idea)[|PromptLead|..|PromptLead| + |idea|] == idea
    ensures Prompt(idea)[|PromptLead| + |idea|] == '"'
    ensures IdeaOfPrompt(Prompt(idea)) == idea
  {
    Quoted(PromptLead, idea, PromptTail());
  }

  lemma Quoted(lead: string, x: string, tail: string)
    ensures |lead + x + "\"" + tail| == |lead| + |x| + 1 + |tail|
    ensures (lead + x + "\"" + tail)[..|lead|] == lead
    ensures (lead + x + "\"" + tail)[|lead|..|lead| + |x|] == x
    ensures (lead + x + "\"" + tail)[|lead| + |x|] == '"'
    ensures (lead + x + "\"" + tail)[|lead|..|lead + x + "\"" + tail| - 1 - |tail|] == x
  {
  }

  /** Different ideas give different prompts. */
  lemma PromptInjective(a: string, b: string)
    requires Prompt(a) == Prompt(b)
    ensures a == b
  {
    PromptEmbedsIdea(a);
    PromptEmbedsIdea(b);
  }

  /**
   * The chat-completions request sent upstream, as the handler determines it: the model, the
   * idea the prompt is built from, the temperature and the token cap.
   */
  datatype ChatRequest = ChatRequest(model: string, idea: string, temperature: real, maxTokens: nat)

  /** One entry of the request's `messages` array. */
  datatype ChatMessage = ChatMessage(role: string, content: string)

  /** `process.env.AI_MODEL || DefaultModel`: an unset or empty variable selects the default. */
  function ModelName(envModel: Option<string>): (m: string)
    ensures envModel.Some? && envModel.value != "" ==> m == envModel.value
    ensures envModel.None? || envModel.value == "" ==> m == DefaultModel
  {
    if envModel.Some? && envModel.value != "" then envModel.value else DefaultModel
  }

  /** The request for an idea: the configured model, temperature 0.7, at most 8000 tokens. */
  function Request(envModel: Option<string>, idea: string): ChatRequest
  {
    ChatRequest(ModelName(envModel), idea, 0.7, 8000)
  }

  /** The request's `messages`: one user message whose content is the prompt, from which the idea reads back verbatim. */
  function Messages(r: ChatRequest): (ms: seq<ChatMessage>)
    ensures |ms| == 1 && ms[0].role == "user"
    ensures |ms[0].content| >= |PromptLead| + 1 + |PromptTail()| && IdeaOfPrompt(ms[0].content) == r.idea
  {
    PromptEmbedsIdea(r.idea);
    [ChatMessage("user", Prompt(r.idea))]
  }

  // ---------------------------------------------------------------------------
  // The upstream reply

  /** What `fetch` gave back: an HTTP reply (status and body text), or a rejection with its message. */
  datatype Upstream = Reply(status: nat, text: string) | Rejected(message: string)

  /** `response.ok`. */
  predicate Ok2xx(status: nat) { 200 <= status <= 299 }

  const EmptyBodyMessage := "OpenRouter API returned empty or whitespace-only response"
  const EmptyContentMessage := "AI model returned empty content. The model may be unavailable or rate-limited."
  /** The message V8 gives when `data` is `null` and `data.choices` is read. */
  const NullEnvelopeMessage := "Cannot read properties of null (reading 'choices')"
  const UndefinedEnvelopeMessage := "Cannot read properties of undefined (reading 'choices')"
  /** The message V8 gives when `content` is truthy but not a string. */
  const NotStringMessage := "content.trim is not a function"

  const UpstreamErrorPrefix := "OpenRouter API error: "
  const InvalidJsonPrefix := "Invalid JSON response from OpenRouter: "
  const ParseFailurePrefix := "Failed to parse AI response: "

  function UpstreamErrorMessage(status: nat, text: string): string
  {
    UpstreamErrorPrefix + NatToString(status) + " - " + text
  }

  /**
   * `data.choices?.[0]?.message?.content`; reading `choices` of `null` throws. For an object
   * envelope: the `content` of the first choice's `message`, and `undefined` when `choices`,
   * its first element or `message` is missing.
   */
  function ReplyContent(data: Value): (r: Result<Value, string>)
    ensures IsNullish(data) <==> r.Err?
    ensures data.Null? ==> r == Err(NullEnvelopeMessage)
    ensures !data.Obj? && !IsNullish(data) ==> r == Ok(Undefined)
    ensures data.Obj? && ("choices" !in data.fields || data.fields["choices"] == Arr([])) ==> r == Ok(Undefined)
    ensures data.Obj? && "choices" in data.fields && data.fields["choices"].Arr? && data.fields["choices"].elems != [] ==>
      var choice := data.fields["choices"].elems[0];
      && (IsNullish(choice) || (choice.Obj? && "message" !in choice.fields) ==> r == Ok(Undefined))
      && (choice.Obj? && "message" in choice.fields && choice.fields["message"].Obj? ==>
            var message := choice.fields["message"].fields;
            r == Ok(if "content" in message then message["content"] else Undefined))
  {
    if data.Null? then Err(NullEnvelopeMessage)
    else if data.Undefined? then Err(UndefinedEnvelopeMessage)
    else Ok(Chain(Chain(ChainIndex0(Prop(data, "choices")), "message"), "content"))
  }

  /** The message content accepted for normalising: a string that is not blank. */
  function ContentText(content: Value): (r: Result<string, string>)
    ensures r.Ok? <==> content.Str? && !IsBlank(content.s)
    ensures r.Ok? ==> r.value == content.s
    ensures (!Truthy(content) || content.Str?) && r.Err? ==> r.error == EmptyContentMessage
  {
    if !Truthy(content) then Err(EmptyContentMessage)
    else if !content.Str? then Err(NotStringMessage)
    else if Trim(content.s) == [] then (TrimEmptyIffBlank(content.s); Err(EmptyContentMessage))
    else (TrimEmptyIffBlank(content.s); Ok(content.s))
  }

  /** The text between the outer `try` and the response: every failure carries its message. */
  function Process(up: Upstream, parse: string -> ParseResult): Result<Value, string>
  {
    match up
    case Rejected(m) => Err(m)
    case Reply(status, text) =>
      if !Ok2xx(status) then Err(UpstreamErrorMessage(status, text))
      else if Trim(text) == [] then Err(EmptyBodyMessage)
      else
        match parse(text)
        case SyntaxError(m) => Err(InvalidJsonPrefix + m)
        case Parsed(data) =>
          match ReplyContent(data)
          case Err(m) => Err(m)
          case Ok(content) =>
            match ContentText(content)
            case Err(m) => Err(m)
            case Ok(c) =>
              match parse(Clean(Candidate(c)))
              case SyntaxError(m) => Err(ParseFailurePrefix + m)
              case Parsed(v) => Ok(v)
  }

  // ---------------------------------------------------------------------------
  // The handler

  /** The response, and the chat request sent upstream if one was. */
  datatype Outcome = Outcome(response: Response, sent: Option<ChatRequest>)

  const InvalidIdeaMessage := "Invalid idea input"
  const FailureMessage := "Failed to generate startup details"

  /** `{ error: "Failed to generate startup details", details }`. */
  function FailureBody(details: string): (v: Value)
    ensures v.Obj? && v.fields.Keys == {"error", "details"}
    ensures v.fields["error"] == Str(FailureMessage) && v.fields["details"] == Str(details)
  {
    Obj(map["error" := Str(FailureMessage), "details" := Str(details)])
  }

  /** `const { idea } = await request.json()`: destructuring `null` or `undefined` throws. */
  /** The messages V8 gives when a `null` or `undefined` body is destructured. */
  const NullBodyMessage := "Cannot destructure property 'idea' of '(intermediate value)' as it is null."
  const UndefinedBodyMessage := "Cannot destructure property 'idea' of '(intermediate value)' as it is undefined."

  function ReadIdea(body: ParseResult): (r: Result<Value, string>)
    ensures r.Ok? <==> body.Parsed? && !IsNullish(body.value)
    ensures r.Ok? ==> r.value == Prop(body.value, "idea")
    ensures body.SyntaxError? ==> r == Err(body.message)
  {
    match body
    case SyntaxError(m) => Err(m)
    case Parsed(v) =>
      if v.Null? then Err(NullBodyMessage)
      else if v.Undefined? then Err(UndefinedBodyMessage)
      else Ok(Prop(v, "idea"))
  }

  /** `!idea || typeof idea !== "string"` is false: a non-empty string. */
  predicate AcceptedIdea(idea: Value)
  {
    Truthy(idea) && idea.Str?
  }

  /** POST /api/generate, given the request body, `AI_MODEL`, the upstream reply and `JSON.parse`. */
  function HandleGenerate(body: ParseResult, envModel: Option<string>, up: Upstream, parse: string -> ParseResult): (o: Outcome)
    ensures o.response.status in {200, 400, 500}
    ensures o.sent.Some? <==> o.response.status != 400 && ReadIdea(body).Ok?
    ensures o.response.status == 400 <==> ReadIdea(body).Ok? && !AcceptedIdea(ReadIdea(body).value)
    ensures o.response.status == 400 ==> o == Outcome(Response(400, ErrorBody(InvalidIdeaMessage)), None)
  {
    match ReadIdea(body)
    case Err(m) => Outcome(Response(500, FailureBody(m)), None)
    case Ok(idea) =>
      if !AcceptedIdea(idea) then Outcome(Response(400, ErrorBody(InvalidIdeaMessage)), None)
      else
        var request := Request(envModel, idea.s);
        match Process(up, parse)
        case Err(m) => Outcome(Response(500, FailureBody(m)), Some(request))
        case Ok(v) => Outcome(Response(200, v), Some(request))
  }

  /**
   * The answer is 400 "Invalid idea input" exactly when the body is an object-like value whose
   * `idea` is missing, empty or not a string; nothing is sent upstream then.
   */
  lemma InvalidIdeaIff(body: ParseResult, envModel: Option<string>, up: Upstream, parse: string -> ParseResult)
    ensures HandleGenerate(body, envModel, up, parse).response.status == 400
        <==> body.Parsed? && !IsNullish(body.value)
             && !(Prop(body.value, "idea").Str? && Prop(body.value, "idea").s != "")
    ensures HandleGenerate(body, envModel, up, parse).response.status == 400
        ==> HandleGenerate(body, envModel, up, parse) == Outcome(Response(400, ErrorBody(InvalidIdeaMessage)), None)
  {
    if body.Parsed? && !IsNullish(body.value) {
      var idea := Prop(body.value, "idea");
      assert ReadIdea(body) == Ok(idea);
      assert AcceptedIdea(idea) <==> idea.Str? && idea.s != "";
    }
  }

  /** Any non-empty string idea, whitespace-only included, is embedded in a request that is sent. */
  lemma AcceptedIdeaIsSent(v: Value, envModel: Option<string>, up: Upstream, parse: string -> ParseResult)
    requires !IsNullish(v) && Prop(v, "idea").Str? && Prop(v, "idea").s != ""
    ensures HandleGenerate(Parsed(v), envModel, up, parse).sent == Some(ChatRequest(ModelName(envModel), Prop(v, "idea").s, 0.7, 8000))
    ensures HandleGenerate(Parsed(v), envModel, up, parse).response.status != 400
  {
    assert ReadIdea(Parsed(v)) == Ok(Prop(v, "idea"));
    assert AcceptedIdea(Prop(v, "idea"));
  }

  /** Every failure past the idea check is a 500 whose `details` is the error's message. */
  lemma FailureIs500(v: Value, envModel: Option<string>, up: Upstream, parse: string -> ParseResult)
    requires !IsNullish(v) && AcceptedIdea(Prop(v, "idea"))
    requires Process(up, parse).Err?
    ensures HandleGenerate(Parsed(v), envModel, up, parse).response
         == Response(500, FailureBody(Process(up, parse).error))
  {
  }

  /** A 200 carries the value the parser returned for the cleaned candidate, unchanged: there is no schema check. */
  lemma SuccessIff(body: ParseResult, envModel: Option<string>, up: Upstream, parse: string -> ParseResult)
    ensures HandleGenerate(body, envModel, up, parse).response.status == 200
        <==> ReadIdea(body).Ok? && AcceptedIdea(ReadIdea(body).value) && Process(up, parse).Ok?
    ensures HandleGenerate(body, envModel, up, parse).response.status == 200
        ==> HandleGenerate(body, envModel, up, parse).response.body == Process(up, parse).value
  {
  }

  /** The upstream checks, in order: status, blank body, envelope syntax. */
  lemma UpstreamFailures(status: nat, text: string, parse: string -> ParseResult)
    ensures !Ok2xx(status) ==> Process(Reply(status, text), parse) == Err(UpstreamErrorMessage(status, text))
    ensures Ok2xx(status) && IsBlank(text) ==> Process(Reply(status, text), parse) == Err(EmptyBodyMessage)
    ensures Ok2xx(status) && !IsBlank(text) && parse(text).SyntaxError?
        ==> Process(Reply(status, text), parse) == Err(InvalidJsonPrefix + parse(text).message)
  {
    TrimEmptyIffBlank(text);
  }

  /**
   * Missing, non-truthy or whitespace-only content fails with the empty-content message,
   * whatever the parser would do with any other text: no fence matching or parsing happens.
   */
  lemma EmptyContentShortCircuits(status: nat, text: string, data: Value, p1: string -> ParseResult, p2: string -> ParseResult)
    requires Ok2xx(status) && !IsBlank(text)
    requires p1(text) == Parsed(data) && p2(text) == Parsed(data)
    requires !IsNullish(data)
    requires var c := ReplyContent(data).value; !Truthy(c) || (c.Str? && IsBlank(c.s))
    ensures Process(Reply(status, text), p1) == Err(EmptyContentMessage)
    ensures Process(Reply(status, text), p2) == Err(EmptyContentMessage)
  {
    TrimEmptyIffBlank(text);
  }

  /** With usable content, the result is the parse of the cleaned candidate, or "Failed to parse AI response: ...". */
  lemma ContentIsNormalised(status: nat, text: string, data: Value, c: string, parse: string -> ParseResult)
    requires Ok2xx(status) && !IsBlank(text)
    requires parse(text) == Parsed(data) && !IsNullish(data)
    requires ReplyContent(data) == Ok(Str(c)) && !IsBlank(c)
    ensures parse(Clean(Candidate(c))).Parsed? ==> Process(Reply(status, text), parse) == Ok(parse(Clean(Candidate(c))).value)
    ensures parse(Clean(Candidate(c))).SyntaxError?
        ==> Process(Reply(status, text), parse) == Err(ParseFailurePrefix + parse(Clean(Candidate(c))).message)
  {
    TrimEmptyIffBlank(text);
    assert Trim(text) != [];
    assert ContentText(Str(c)) == Ok(c);
  }
}
