# Ignitia request logic, modelled in Dafny

Ignitia is a Next.js app. A signed-in user types a startup idea. An LLM turns the idea into a
startup name, tagline, description, audience, feature list, colour scheme and a landing page.
The user can then save, list, preview, delete and export these generations. This project
models the four pieces of sequential string and record logic inside the request handlers and
the dashboard component, and proves what each one promises:

- `POST /api/generate` (modules `Generate`, `Normalise`). It checks the idea and embeds it in the
  prompt. It then checks the upstream reply in order: status, blank body, envelope syntax, blank
  content. It extracts a fenced JSON block with the two regular expressions. It strips the four
  instruction-template tokens, trims, and parses. Every failure becomes a 500 carrying its message.
- `POST /api/export/pdf` (modules `ExportPdf`, `PrintPage`). It parses the Cookie header. It
  captures the cookies the auth client wants to set. It answers 401/500/400/404 in order, and on
  success renders the printable pitch page. That page gets its filename slug and one Set-Cookie
  header per captured cookie, with "; Secure" only in production.
- `POST`/`GET /api/generations` (module `Generations`). POST maps the camelCase body to snake_case
  columns, always under the session user's id. GET lists the caller's rows, newest first.
- The dashboard component (module `Dashboard`). It covers view, confirmed delete (filter by id)
  and the HTML download with its filename slug.

Shared modules:

- `Text`: the JavaScript string operations involved (`trim`, `split`, `join`, a single-pass
  `replace(/t/g, "")`, `replace(/\s+/g, "-")`, decimal `String(n)`).
- `Json`: JavaScript values after `JSON.parse`, with `?.`, `??`, truthiness and `String(v)`.
- `Records`: the table row and the JSON responses.
- `Wrappers`: `Option` and `Result`.

Stateful parts are classes, each method stating its whole new state:

- `Generations.Table`: the table as a sequence of rows.
- `ExportPdf.RouteClient`: the cookie adapter and its captured `setCookies`.
- `ExportPdf.HttpResponse`: its header list, which the Set-Cookie loop appends to.
- `Dashboard.DashboardState`: `generations`, `selectedGeneration`, `isDialogOpen`.

Everything else is functions and lemmas.

External inputs are parameters:

- The JSON parser is a function `string -> ParseResult`.
- The upstream reply is an `Upstream` value.
- The session user is an `Option<string>`.
- A failed database query is a `bool`.
- The row id and timestamp the database assigns are arguments.
- The date formatter is a function `int -> string`.

Two behaviours of the code are worth knowing:

- The normaliser never tries a direct `JSON.parse` of the content first; fence extraction always
  runs. So content that is valid JSON but holds a fenced block inside a string value is not
  parsed as a whole (`Normalise.FencedBlockInsideJsonString`).
- A 2xx reply with a blank body fails with a fixed message ("OpenRouter API returned empty or
  whitespace-only response"). Only a non-2xx status puts the status code and the body text into
  the message (`Generate.UpstreamFailures`).

## Model

| member | source | states |
|---|---|---|
| Text.TrimStart | app/api/generate/route.ts:127 | the result is a suffix of the input, not longer, and starts with a non-space character unless empty |
| Text.TrimStartDropsSpace | app/api/generate/route.ts:127 | everything `trimStart` dropped is whitespace |
| Text.TrimEnd | app/api/generate/route.ts:127 | the result is a prefix of the input, ends with a non-space character unless empty, and is non-empty when the input starts with a non-space character |
| Text.TrimEndDropsSpace | app/api/generate/route.ts:127 | everything `trimEnd` dropped is whitespace |
| Text.Trim | app/api/generate/route.ts:127 | the result is no longer than the input and has no leading or trailing whitespace |
| Text.TrimDropsSpace | app/api/generate/route.ts:127 | `trim` keeps a prefix of what `trimStart` keeps, itself a suffix of the input, and everything dropped at either end is whitespace |
| Text.TrimEmptyIffBlank | app/api/generate/route.ts:89 | `s.trim().length === 0` holds exactly when every character of `s` is whitespace |
| Text.TrimOfTrimmed | app/api/generate/route.ts:127 | a string without surrounding whitespace is left unchanged by `trim` |
| Text.Split | app/api/export/pdf/route.ts:9 | `split` on one character gives at least one piece, and no piece contains the separator |
| Text.JoinSplit | app/api/export/pdf/route.ts:12-13 | joining the pieces of a split with the same separator gives the string back |
| Text.Join | app/api/export/pdf/route.ts:13 | `rest.join("=")` puts the separator between consecutive pieces; `JoinSplit` and `SplitJoin` state that it undoes `split` and is undone by it |
| Text.SplitJoin | app/api/export/pdf/route.ts:9 | separator-free pieces joined and split again come back unchanged |
| Text.SplitNoSeparator | app/api/export/pdf/route.ts:12 | a string without the separator splits into itself |
| Text.SplitAfterPiece | app/api/export/pdf/route.ts:9 | the first piece of `p + c + t` is `p` when `p` has no `c`; the rest are the pieces of `t` |
| Text.RemoveAll | app/api/generate/route.ts:123-126 | a global literal replacement with "" never lengthens the string |
| Text.RemoveAbsent | app/api/generate/route.ts:123-126 | a pass for a token that does not occur changes nothing |
| Text.RemoveLeading | app/api/generate/route.ts:123-126 | an occurrence at the front is dropped and the pass continues after it |
| Text.RemoveKeepsPrefix | app/api/generate/route.ts:123-126 | text in which no occurrence starts is copied unchanged |
| Text.Slug | app/api/export/pdf/route.ts:152 | `replace(/\s+/g, "-")` never lengthens the string |
| Text.SlugNoSpace | app/api/export/pdf/route.ts:152 | no whitespace is left after the replacement |
| Text.TrimStartChars | app/api/export/pdf/route.ts:152 | `trimStart()` keeps only characters of its input, and every non-whitespace one |
| Text.SlugChars | app/api/export/pdf/route.ts:152 | the slug holds exactly the input's non-whitespace characters, plus "-" |
| Text.SlugOfNoSpace | components/dashboard-content.tsx:89 | a string without whitespace is its own slug |
| Text.SlugIdempotent | components/dashboard-content.tsx:89 | slugging twice is slugging once |
| Text.SlugAppend | app/api/export/pdf/route.ts:152 | when the first part ends in a non-space character, the slug of a concatenation is the concatenation of the slugs |
| Text.SlugJoinsRun | app/api/export/pdf/route.ts:152 | a maximal whitespace run between non-space characters becomes exactly one "-" |
| Text.SlugOfBlankLead | app/api/export/pdf/route.ts:152 | a leading whitespace run becomes exactly one "-" |
| Text.SlugWithSuffix | components/dashboard-content.tsx:89 | a slug followed by a whitespace-free suffix has no whitespace and is its own slug |
| Text.TrimStartAppend | app/api/export/pdf/route.ts:152 | trimming the start of `x + y` stays within `x` when `x` ends in a non-space character |
| Text.TrimStartBlank | app/api/export/pdf/route.ts:12 | trimming the start of a blank run before a non-space start leaves exactly the rest |
| Text.NatToString | app/api/generate/route.ts:82 | the decimal text of a status code is non-empty, all digits, and has no leading zero |
| Text.NatToStringValue | app/api/generate/route.ts:82 | the decimal text reads back, digit by digit, as the number it was written from |
| Text.NatToStringInjective | app/api/generate/route.ts:82 | different status codes give different texts |
| Json.Prop | app/api/generate/route.ts:5 | a property of a non-nullish value is the object's own field, or `undefined` when the field is missing or the value is not an object |
| Json.Chain | app/api/export/pdf/route.ts:55 | `v?.name` is `undefined` for nullish `v` and `v.name` otherwise |
| Json.ChainIndex0 | app/api/generate/route.ts:104 | `v?.[0]` is the first element of an array or the first character of a string, and `undefined` for nullish, boolean and number values |
| Json.Truthy | app/api/generate/route.ts:7 | `!v` holds exactly for `undefined`, `null`, `false`, `0` and `""`; every object and array is truthy |
| Json.Display | app/api/export/pdf/route.ts:78 | `${v}` and `String(v)`: a string as itself, `null` and `undefined` by name, an array as its elements joined by "," with nullish elements empty, an object as "[object Object]"; the lemmas about `Slots`, `PitchFilename` and `ExportHtml` use it |
| Json.DisplayOr | app/api/export/pdf/route.ts:102 | `v ?? fallback` interpolated: the fallback for null and undefined, the string itself for a string |
| Records.ErrorBody | app/api/generations/route.ts:13 | the error body is an object with the single key "error" holding the message |
| Records.RowJson | app/api/generations/route.ts:42 | a returned row is an object with exactly the eleven snake_case columns: the id, owner and creation time, and each of the eight generated fields under its column name |
| Normalise.BodyStart | app/api/generate/route.ts:118 | the capture starts right after the marker, or one character later when a newline follows it |
| Normalise.FirstClose | app/api/generate/route.ts:118 | the lazy capture ends at the first position from which "```" or "\n```" follows, and none earlier; none means no closing fence |
| Normalise.FindFence | app/api/generate/route.ts:118 | the match found is a full match (opening marker, optional newline, lazy body, closing fence) and no earlier opening can match; no result means no position can |
| Normalise.FindFenceIsLeftmostMatch | app/api/generate/route.ts:118 | any match with no earlier possible opening is exactly the one found |
| Normalise.CaptureHasNoFence | app/api/generate/route.ts:118 | a captured block never contains "```" |
| Normalise.Candidate | app/api/generate/route.ts:118-119 | the candidate is never longer than the content |
| Normalise.CandidateWithoutFence | app/api/generate/route.ts:119 | content without "```" is its own candidate |
| Normalise.NoCloseInRegion | app/api/generate/route.ts:118 | no closing fence starts inside fence-free text |
| Normalise.NoFenceAfterPrefix | app/api/generate/route.ts:118 | a backtick-free prefix cannot complete a fence with fence-free text |
| Normalise.CandidateOfJsonFence | app/api/generate/route.ts:118-119 | for "```json\n" + x + "\n```" after backtick-free text, the candidate is exactly `x`, with the newlines on both sides dropped |
| Normalise.FencedBlockInsideJsonString | app/api/generate/route.ts:118-119 | content that is itself a JSON object whose string value holds a fenced block yields the block, not the object |
| Normalise.CandidateOfUpperCaseTag | app/api/generate/route.ts:118 | with "```JSON" the plain pattern applies and "JSON\n" stays at the start of the candidate |
| Normalise.TokenShape | app/api/generate/route.ts:123-126 | each token starts with "<" or "[", ends with ">" or "]", and has neither opener nor closer anywhere else |
| Normalise.Lit | app/api/generate/route.ts:123-126 | the four tokens the replaces remove, "<s>", "</s>", "[INST]" and "[/INST]"; `TokenShape` states their shape |
| Normalise.Strip | app/api/generate/route.ts:123-126 | the four passes never lengthen the candidate |
| Normalise.Clean | app/api/generate/route.ts:122-127 | the cleaned candidate is never longer and has no surrounding whitespace |
| Normalise.CleanOnlyTrims | app/api/generate/route.ts:122-127 | a candidate with none of the four tokens is only trimmed |
| Normalise.Pass | app/api/generate/route.ts:123-126 | on text made of tokens and token-free pieces, one pass removes exactly that token's occurrences and keeps the text |
| Normalise.RenderWithoutAll | app/api/generate/route.ts:123-126 | the four passes in order leave only the text pieces |
| Normalise.CleanRemovesTokens | app/api/generate/route.ts:122-127 | tokens placed anywhere around token-free text are all removed, also inside JSON string values, and the rest is trimmed |
| Normalise.TokenHeadIsClear | app/api/generate/route.ts:123-126 | no other token starts inside a token |
| Normalise.TextHeadIsClear | app/api/generate/route.ts:123-126 | no token starts inside token-free text that is followed by a token or nothing |
| Normalise.SinglePassCanLeaveToken | app/api/generate/route.ts:126 | "[/I[/INST]NST]" cleans to "[/INST]": a single pass can create a new occurrence |
| Generate.Prompt | app/api/generate/route.ts:28-68 | the prompt text: `PromptEmbedsIdea` and `PromptInjective` state that the idea sits verbatim between the lead text and the closing quote and can be read back |
| Generate.PromptEmbedsIdea | app/api/generate/route.ts:28-68 | the prompt is the lead text, the idea verbatim, a closing quote, then the fixed instructions, and the idea can be read back from it |
| Generate.PromptInjective | app/api/generate/route.ts:28 | different ideas give different prompts |
| Generate.ModelName | app/api/generate/route.ts:11 | `AI_MODEL` when set and non-empty, otherwise the default model |
| Generate.Request | app/api/generate/route.ts:23-72 | the request body: the model `ModelName` picks, the idea, temperature 0.7 and `max_tokens` 8000; `AcceptedIdeaIsSent` states that an accepted idea is sent with exactly these |
| Generate.Messages | app/api/generate/route.ts:23-73 | the request carries one message, from the "user" role, whose content is a prompt the idea reads back from verbatim |
| Generate.ReplyContent | app/api/generate/route.ts:104 | reading `choices` fails exactly for a null or undefined envelope; for a non-object the content is undefined; for an object it is the `content` of the first choice's `message`, and undefined when `choices` is missing or empty or the first choice is nullish or has no `message` |
| Generate.AcceptedIdea | app/api/generate/route.ts:7 | the idea passes the check: it is truthy and a string, so a non-empty string; `InvalidIdeaIff` ties it to the 400 |
| Generate.ContentText | app/api/generate/route.ts:106-109 | content is accepted exactly when it is a non-blank string, and then unchanged; missing, falsy or blank content fails with the empty-content message |
| Generate.ReadIdea | app/api/generate/route.ts:5 | destructuring succeeds exactly for a parsed non-nullish body and yields its `idea`; a body syntax error keeps its message |
| Generate.HandleGenerate | app/api/generate/route.ts:3-150 | the status is 200, 400 or 500; 400 exactly when the body destructured and its idea is not accepted, and then the answer is "Invalid idea input" with nothing sent; a request goes upstream exactly when the body destructured and the status is not 400 |
| Generate.InvalidIdeaIff | app/api/generate/route.ts:7-9 | 400 "Invalid idea input" exactly when `idea` is missing, empty or not a string, with nothing sent |
| Generate.AcceptedIdeaIsSent | app/api/generate/route.ts:7-28 | any non-empty string idea, whitespace-only included, is sent in a request for the configured model, temperature 0.7 and 8000 max tokens, and is never answered with 400 |
| Generate.FailureIs500 | app/api/generate/route.ts:140-148 | every failure past the idea check is a 500 whose `details` is that failure's message |
| Generate.FailureBody | app/api/generate/route.ts:142-146 | the 500 body has exactly the keys "error" and "details": the fixed "Failed to generate startup details" and the failure's message |
| Generate.SuccessIff | app/api/generate/route.ts:129-139 | 200 exactly when the idea is accepted and processing succeeds, and the body is the parsed value unchanged |
| Generate.UpstreamFailures | app/api/generate/route.ts:79-102 | a non-2xx status, a blank body and an unparsable envelope fail in that order with their messages |
| Generate.Process | app/api/generate/route.ts:79-139 | the checks after the request; `UpstreamFailures`, `EmptyContentShortCircuits` and `ContentIsNormalised` state its order of failures and its result |
| Generate.EmptyContentShortCircuits | app/api/generate/route.ts:104-109 | falsy or blank content fails with the empty-content message whatever the parser does with other text |
| Generate.ContentIsNormalised | app/api/generate/route.ts:114-139 | with usable content the result is the parse of the cleaned candidate, or "Failed to parse AI response: " and the parser's message |
| Generations.ToColumns | app/api/generations/route.ts:17-33 | the insert's columns; `ColumnsRoundTrip` and `ExtraKeysIgnored` state that each field lands in its column and nothing else matters |
| Generations.Column | app/api/generations/route.ts:17-33 | a present body field is stored unchanged; an absent one becomes null |
| Generations.BodyOf | app/api/generations/route.ts:17-18 | a client body holds exactly the eight fields the insert reads |
| Generations.ColumnsRoundTrip | app/api/generations/route.ts:17-33 | each of the eight camelCase fields lands unchanged in its snake_case column |
| Generations.ExtraKeysIgnored | app/api/generations/route.ts:17-33 | any other body key, such as `userId`, has no effect on the stored columns |
| Generations.Owned | app/api/generations/route.ts:65 | the owner filter keeps only that user's rows |
| Generations.OwnedIff | app/api/generations/route.ts:65 | a row is listed exactly when it is in the table and belongs to the user |
| Generations.OwnedAppend | app/api/generations/route.ts:65 | the filter keeps table order |
| Generations.InsertDesc | app/api/generations/route.ts:66 | inserting adds exactly one row |
| Generations.SortDesc | app/api/generations/route.ts:66 | sorting keeps the number of rows |
| Generations.SortedCons | app/api/generations/route.ts:66 | a row no older than every row of a sorted list heads a sorted list |
| Generations.InsertDescBound | app/api/generations/route.ts:66 | insertion keeps an upper bound on `created_at` |
| Generations.InsertDescSorted | app/api/generations/route.ts:66 | insertion keeps the list newest first |
| Generations.InsertDescMultiset | app/api/generations/route.ts:66 | insertion adds the row and loses nothing |
| Generations.SortDescProps | app/api/generations/route.ts:66 | the sort is newest first and a permutation of its input |
| Generations.Table.constructor | app/api/generations/route.ts:21-22 | the table starts with the given rows |
| Generations.Table.Post | app/api/generations/route.ts:4-47 | no user: 401 and nothing inserted; otherwise one row under the session user's id with the body's columns, returned as JSON, or 500 "Failed to save generation" with nothing inserted |
| Generations.Table.List | app/api/generations/route.ts:49-78 | no user: 401; query error: 500 "Failed to fetch generations"; otherwise exactly the caller's rows, newest first, as a permutation of the owner filter |
| Generations.SavedRowIsListed | app/api/generations/route.ts:24 | a saved row shows up in its owner's listing and changes no one else's |
| ExportPdf.NonEmpty | app/api/export/pdf/route.ts:10 | `filter(Boolean)` keeps no empty segment and drops nothing else: a string is kept exactly when it was a segment and is not empty |
| ExportPdf.NonEmptyAppend | app/api/export/pdf/route.ts:10 | the filter of `a + b` is the filter of `a` followed by the filter of `b` |
| ExportPdf.NonEmptyDropsEmpty | app/api/export/pdf/route.ts:10 | an empty segment inserted anywhere is dropped by the filter |
| ExportPdf.NonEmptyKeeps | app/api/export/pdf/route.ts:10 | segments that are all non-empty are all kept |
| ExportPdf.CookieEntry | app/api/export/pdf/route.ts:11-14 | a parsed cookie name never contains "=" |
| ExportPdf.EntryOfTrimmed | app/api/export/pdf/route.ts:12-13 | the name is the text before the first "=" |
| ExportPdf.ParseCookieHeader | app/api/export/pdf/route.ts:5-14 | there are never more cookies than ";"-segments, and no parsed name contains "=" |
| ExportPdf.Entries | app/api/export/pdf/route.ts:11-14 | `.map` gives one cookie per segment |
| ExportPdf.EmptyCookieHeader | app/api/export/pdf/route.ts:5-10 | a missing or empty Cookie header parses to no cookies |
| ExportPdf.ParseSegments | app/api/export/pdf/route.ts:8-14 | for any ";"-free segments, empty ones included, the header joined from them parses to one cookie per non-empty segment, in order |
| ExportPdf.ParseNonEmptySegments | app/api/export/pdf/route.ts:8-14 | when no segment is empty, every segment gives its cookie |
| ExportPdf.EmptySegmentIgnored | app/api/export/pdf/route.ts:9-10 | an empty segment, as in "a=1;;b=2", changes nothing in the parse |
| ExportPdf.CookieEntryParts | app/api/export/pdf/route.ts:12-13 | with an "=" in the trimmed segment, name + "=" + value is that segment, so later "=" stay in the value; without one the value is "" |
| ExportPdf.BlankSegment | app/api/export/pdf/route.ts:10-13 | a whitespace-only segment is kept, with name "" and value "" |
| ExportPdf.Segments | app/api/export/pdf/route.ts:8 | a header written from cookies has one segment per cookie |
| ExportPdf.TrimPadded | app/api/export/pdf/route.ts:12 | trimming blank padding before text without surrounding whitespace gives the text |
| ExportPdf.EntryOfPair | app/api/export/pdf/route.ts:12-13 | "name=value" with an "="-free name reads back as that cookie |
| ExportPdf.EntryOfSegment | app/api/export/pdf/route.ts:11-14 | a padded "name=value" segment reads back as that cookie |
| ExportPdf.PairEnds | app/api/export/pdf/route.ts:12 | a serialisable pair has no surrounding whitespace |
| ExportPdf.CookieRoundTrip | app/api/export/pdf/route.ts:8-14 | serialising cookies as "a=1; b=2" and parsing gives them back, "=" in values included |
| ExportPdf.PairHasNoSemicolon | app/api/export/pdf/route.ts:163 | "name=value" has no ";" when neither part has one |
| ExportPdf.FirstSegment | app/api/export/pdf/route.ts:9 | text before the first ";" is the first segment |
| ExportPdf.EntryOfPairText | app/api/export/pdf/route.ts:12-13 | "name=value" reads back as the cookie |
| ExportPdf.FirstSegmentIsCookie | app/api/export/pdf/route.ts:163 | a line that starts with a pair and ";" carries that cookie in its first segment |
| ExportPdf.SetCookieCarriesCookie | app/api/export/pdf/route.ts:161-164 | a Set-Cookie line's first segment parses back to the captured cookie |
| ExportPdf.RouteClient.constructor | app/api/export/pdf/route.ts:4-17 | the adapter holds the parsed Cookie header and no captured cookies |
| ExportPdf.RouteClient.SetAll | app/api/export/pdf/route.ts:25-27 | `setAll` replaces the captured cookies |
| ExportPdf.RouteClient.GetSetCookies | app/api/export/pdf/route.ts:38 | `getSetCookies()` returns what `setAll` last captured; `SendPage` attaches exactly these |
| ExportPdf.HttpResponse.constructor | app/api/export/pdf/route.ts:149-154 | the response starts with the given status, body and headers |
| ExportPdf.HttpResponse.Append | app/api/export/pdf/route.ts:161-164 | `headers.append` adds one header at the end and changes nothing else |
| ExportPdf.SetCookieLine | app/api/export/pdf/route.ts:163 | the header value; `SecureOnlyInProduction`, `SetCookieCarriesCookie` and `FirstSegmentIsCookie` state its shape and that its first segment reads back as the cookie |
| ExportPdf.Attributes | app/api/export/pdf/route.ts:159-163 | the attributes start with ";" |
| ExportPdf.SecureOnlyInProduction | app/api/export/pdf/route.ts:159-163 | the production line is the development line plus "; Secure" |
| ExportPdf.SetCookieHeaders | app/api/export/pdf/route.ts:156-165 | one Set-Cookie header per captured cookie, in order, each "name=value; Path=/; HttpOnly; SameSite=Lax" with "; Secure" in production |
| ExportPdf.FirstRejected | app/api/export/pdf/route.ts:156-165 | the index of the first cookie whose Set-Cookie line is not a valid header value: every earlier line is valid and the line there is not |
| ExportPdf.AttachSetCookies | app/api/export/pdf/route.ts:156-165 | the loop appends those headers after the existing ones, up to the first line `append` refuses; it reports success exactly when no line is refused, and leaves status and body alone |
| ExportPdf.Matches | app/api/export/pdf/route.ts:61-65 | a row matches exactly when it is in the table with that id and that owner |
| ExportPdf.Lookup | app/api/export/pdf/route.ts:61-66 | `.single()` returns a row exactly when the query succeeded and one row has that id and owner, and then it is that row |
| ExportPdf.Decide | app/api/export/pdf/route.ts:43-70 | 401 exactly without a user; 500 exactly for an unreadable body; 400 exactly for a falsy `generationId`; 404 exactly when the query failed or did not match one row by id and owner; found exactly when it did, and the row is in the table, owned by the user, with the requested id |
| ExportPdf.MatchesOwned | app/api/export/pdf/route.ts:64-65 | the lookup only ever sees the caller's rows |
| ExportPdf.OtherOwnersInvisible | app/api/export/pdf/route.ts:61-70 | the decision is the same over the whole table and over the caller's rows |
| ExportPdf.ForeignRowChangesNothing | app/api/export/pdf/route.ts:61-70 | another owner's generation answers like a missing one |
| ExportPdf.PitchFilename | app/api/export/pdf/route.ts:152 | the inline file name is the slug of `String(startup_name)` and "-pitch.html"; `PitchFilenameClean` states what the slug guarantees |
| ExportPdf.ContentDisposition | app/api/export/pdf/route.ts:152 | `inline; filename="…"` around the pitch filename; `DispositionAccepted` states when `Headers` accepts it |
| ExportPdf.HeaderByte | app/api/export/pdf/route.ts:149-164 | a character Fetch allows in a header value: at most U+00FF (the ByteString conversion) and not NUL, LF or CR |
| ExportPdf.ValidHeaderValue | app/api/export/pdf/route.ts:149-164 | the value the `NextResponse` headers and `append` accept, character by character; on any other they throw and the catch answers 500 (`SendPage`) |
| ExportPdf.ValidHeaderValueChars | app/api/export/pdf/route.ts:149-154 | Fetch accepts a header value exactly when each character is a byte (at most U+00FF) other than NUL, LF and CR |
| ExportPdf.ValidHeaderValueAppend | app/api/export/pdf/route.ts:149-154 | a concatenation is a valid header value exactly when both parts are |
| ExportPdf.ValidSlug | app/api/export/pdf/route.ts:152 | the slug is a valid header value exactly when every non-whitespace character of its input is a byte other than NUL |
| ExportPdf.DispositionAccepted | app/api/export/pdf/route.ts:149-154 | the Content-Disposition value is accepted exactly when every non-whitespace character of `String(startup_name)` lies in U+0001..U+00FF |
| ExportPdf.TrademarkNameRejected | app/api/export/pdf/route.ts:149-154 | the startup name "Nova™" gives a Content-Disposition value that `Headers` refuses, so that export answers 500 |
| ExportPdf.PitchFilenameClean | app/api/export/pdf/route.ts:152 | the pitch filename has no whitespace and is its own slug |
| ExportPdf.SendPage | app/api/export/pdf/route.ts:148-170 | 200 with the rendered page, Content-Type, Content-Disposition and then the Set-Cookie headers exactly when the Content-Disposition value and every Set-Cookie line are valid header values; otherwise the catch's 500 "Failed to export PDF" |
| ExportPdf.Export | app/api/export/pdf/route.ts:41-172 | each decision's status and JSON error, carrying only the `content-type: application/json` header that `NextResponse.json` sets; for a found row, the reply of `SendPage`: the page with its headers, or 500 when a header value is refused |
| PrintPage.PieceText | app/api/export/pdf/route.ts:73-146 | the fixed text between the holes of the template literal, piece by piece; `PrintTemplate` lists the 35 parts in source order |
| PrintPage.Fill | app/api/export/pdf/route.ts:73-146 | the template literal's evaluation: each fixed piece as written and each hole as its slot's text, in order; `FillAppend` and `FillPlacesHole` state it |
| PrintPage.FillAppend | app/api/export/pdf/route.ts:73-146 | filling a template is filling its pieces in order |
| PrintPage.FillPlacesHole | app/api/export/pdf/route.ts:73-146 | a hole's slot text sits between the text of the parts before it and of the parts after it |
| PrintPage.HoleTextOccurs | app/api/export/pdf/route.ts:73-146 | the text of the slot at a hole occurs in the filled template |
| PrintPage.HoleShown | app/api/export/pdf/route.ts:73-146 | a slot with a hole anywhere in a template has its text in the filled template |
| PrintPage.Items | app/api/export/pdf/route.ts:118 | each feature mapped to `<li>${f}</li>` and joined with "": one item per feature, with `String(f)` unescaped; `ItemsAppend`, `ItemsSingle` and `FeatureItemsSnoc` state it |
| PrintPage.ItemsAppend | app/api/export/pdf/route.ts:118 | the list items of `a + b` are those of `a` then those of `b` |
| PrintPage.ItemsSingle | app/api/export/pdf/route.ts:118 | one feature gives exactly "<li>" + its text + "</li>", with no escaping |
| PrintPage.FeatureItemsSnoc | app/api/export/pdf/route.ts:118 | one more feature adds exactly its `<li>` item at the end of the list |
| PrintPage.FeatureItems | app/api/export/pdf/route.ts:118 | a non-array `key_features` gives no items; an array gives its items |
| PrintPage.Slots | app/api/export/pdf/route.ts:78-142 | absent tagline, description and audience render as ""; an absent primary colour gives "#000" in accents and "#fff" in the swatch; swatches default to "#fff" and labels to ""; a string primary colour fills accent, swatch and label, and a string secondary or accent colour fills its swatch and label; the name is `String(startup_name)` |
| PrintPage.PrintHtml | app/api/export/pdf/route.ts:73-146 | the page is `PrintTemplate`, the 35 parts of the template literal in source order, filled from the row's slots; `SlotShown` states that every slot's text appears |
| PrintPage.SlotShown | app/api/export/pdf/route.ts:73-146 | every slot's text appears in the page: the name, the tagline, the description, the audience, the feature items, the colours and their labels, and the date |
| Dashboard.WithoutId | components/dashboard-content.tsx:49 | no generation with the deleted id remains |
| Dashboard.WithoutIdMembers | components/dashboard-content.tsx:49 | a generation remains exactly when it was listed and has another id |
| Dashboard.WithoutIdAppend | components/dashboard-content.tsx:49 | the kept generations stay in their relative order |
| Dashboard.WithoutAbsentId | components/dashboard-content.tsx:49 | a list without that id is unchanged |
| Dashboard.WithoutIdIdempotent | components/dashboard-content.tsx:49 | deleting the same id twice is deleting it once |
| Dashboard.DashboardState.constructor | components/dashboard-content.tsx:28-30 | the initial list, nothing selected, dialog closed |
| Dashboard.DashboardState.View | components/dashboard-content.tsx:32-35 | the generation is selected and the dialog opened; the list is unchanged |
| Dashboard.DashboardState.Delete | components/dashboard-content.tsx:37-54 | a request goes out exactly when confirmed; the list is filtered only after a confirmed ok response; declined, non-ok and thrown requests leave it unchanged, the last two with an alert |
| Dashboard.ExportHtml | components/dashboard-content.tsx:84-94 | a download exists exactly when `startup_name` is a string; its content is `landing_page_html`, unchanged when a string, as "text/html", under the landing-page file name of that name |
| Dashboard.LandingFilename | components/dashboard-content.tsx:89 | the download name is the slug of `startup_name` and "-landing-page.html"; `LandingFilenameClean` states what the slug guarantees |
| Dashboard.LandingFilenameClean | components/dashboard-content.tsx:89 | the filename has no whitespace, is its own slug, and keeps a whitespace-free name as is |

## Left out

- The network call to OpenRouter is not modelled: its status and body text, or a thrown fetch, arrive as an `Upstream` value.
- `JSON.parse` and `request.json()` are parameters or `ParseResult` inputs, because the parser is a foreign call.
  V8's exact error texts are written out only where the handler forwards them.
- Supabase is not modelled: client construction, `auth.getUser`, token refresh and the table queries.
  - The user, the query error flag, the assigned id and `created_at`, and the cookies passed to `setAll` are inputs.
  - Ordering ties on `created_at` are not pinned down. The model proves "newest first and a permutation".
- `toLocaleDateString` is a `formatDate` parameter, and `created_at` is an integer timestamp.
- JSON numbers are integers; fractional numbers and their `String()` forms are not modelled.
- Strings are sequences of characters; UTF-16 code units and surrogate pairs are not modelled.
  A character above U+00FF is refused in a header value either way, so header validity does not depend on this.
- Fetch strips leading and trailing whitespace from a header value before checking it; the model checks each value as built.
  The Content-Disposition value never has such whitespace. A Set-Cookie line has it only when a captured cookie name starts with whitespace.
- Logging is not modelled.
- The browser side of the dashboard is not modelled: Blob, object URLs, the download anchor, `window.open`, printing, `confirm` and `alert`.
  - These become the `confirmed` input, the `alerted` output and the `Download` value.
  - React's asynchronous state updates and the stale `generations` closure in `handleDelete` are not modelled: the filter applies to the current list.
  - `handleExportPDF` (components/dashboard-content.tsx:56-82) only fetches and prints. Its request is the `Export` handler modelled here.
- The DELETE route app/api/generations/[id]/route.ts is not part of this model; the dashboard sees only its status.
- PrintPage.Slots: the page is stated through `Fill` over the template, and `SlotShown` proves that each slot's text occurs in it. The fixed text around each hole is not spelled out in a lemma.
- Normalise.Clean: does not claim that no token remains. One pass can create a new occurrence (`SinglePassCanLeaveToken`), so the proved statement covers tokens around token-free text.
- Generations.Column: an absent body field is stored as `null`. This assumes the database client drops `undefined` properties and the column has no default.
