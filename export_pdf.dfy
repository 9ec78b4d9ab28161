/**
 * POST /api/export/pdf: the cookie adapter handed to the Supabase client, the
 * authorisation and lookup decisions, the printable pitch page, its file name and
 * the Set-Cookie headers that pass refreshed session cookies back to the browser.
 */
module ExportPdf {
  import opened Wrappers
  import opened Text
  import opened Json
  import opened Records
  import opened Generations
  import PrintPage

  // ---------------------------------------------------------------------------
  // Cookie header

  datatype Cookie = Cookie(name: string, value: string)

  /** `.filter(Boolean)` on strings: drops the empty ones (a blank one stays). */
  function NonEmpty(ss: seq<string>): (r: seq<string>)
    ensures |r| <= |ss|
    ensures forall k :: 0 <= k < |r| ==> r[k] != ""
    ensures forall x :: x in r <==> x in ss && x != ""
  {
    if ss == [] then []
    else if ss[0] == "" then NonEmpty(ss[1..])
    else [ss[0]] + NonEmpty(ss[1..])
  }

  /** The filter keeps the non-empty strings in their order: filtering `a + b` is filtering `a`, then `b`. */
  lemma {:induction false} NonEmptyAppend(a: seq<string>, b: seq<string>)
    ensures NonEmpty(a + b) == NonEmpty(a) + NonEmpty(b)
  {
    if a != [] {
      assert (a + b)[1..] == a[1..] + b;
      NonEmptyAppend(a[1..], b);
    } else {
      assert a + b == b;
    }
  }

  lemma {:induction false} NonEmptyKeeps(ss: seq<string>)
    requires forall k :: 0 <= k < |ss| ==> ss[k] != ""
    ensures NonEmpty(ss) == ss
  {
    if ss != [] {
      NonEmptyKeeps(ss[1..]);
      assert ss == [ss[0]] + ss[1..];
    }
  }

  /** One segment: trimmed, split on "=", the first piece is the name and the others, joined by "=", the value. */
  function CookieEntry(seg: string): (c: Cookie)
    ensures '=' !in c.name
  {
    EntryOfTrimmed(Trim(seg))
  }

  function EntryOfTrimmed(t: string): (c: Cookie)
    ensures '=' !in c.name
  {
    var pieces := Split(t, '=');
    Cookie(pieces[0], Join(pieces[1..], "="))
  }

  /** `request.headers.get("cookie") ?? ""`, split on ";", empty segments dropped, one entry per remaining segment. */
  function ParseCookieHeader(header: Option<string>): (cs: seq<Cookie>)
    ensures |cs| <= |Split(if header.Some? then header.value else "", ';')|
    ensures forall k :: 0 <= k < |cs| ==> '=' !in cs[k].name
  {
    Entries(NonEmpty(Split(if header.Some? then header.value else "", ';')))
  }

  /** One cookie per segment, in order. */
  function Entries(segs: seq<string>): (cs: seq<Cookie>)
    ensures |cs| == |segs|
  {
    seq(|segs|, k requires 0 <= k < |segs| => CookieEntry(segs[k]))
  }

  /** An absent or empty Cookie header gives no cookies. */
  lemma EmptyCookieHeader()
    ensures ParseCookieHeader(None) == []
    ensures ParseCookieHeader(Some("")) == []
  {
    assert Split("", ';') == [""];
  }

  /** One entry per non-empty segment, in order; empty segments ("a=1;;b=2", a trailing ";") give none. */
  lemma ParseSegments(segs: seq<string>)
    requires forall k :: 0 <= k < |segs| ==> ';' !in segs[k]
    ensures ParseCookieHeader(Some(Join(segs, ";"))) == Entries(NonEmpty(segs))
  {
    if segs == [] {
      assert Split("", ';') == [""];
      assert NonEmpty([""]) == [];
    } else {
      SplitJoin(segs, ';');
    }
  }

  /** A header whose segments are all non-empty gives one entry per segment. */
  lemma ParseNonEmptySegments(segs: seq<string>)
    requires forall k :: 0 <= k < |segs| ==> segs[k] != "" && ';' !in segs[k]
    ensures ParseCookieHeader(Some(Join(segs, ";"))) == Entries(segs)
  {
    ParseSegments(segs);
    NonEmptyKeeps(segs);
  }

  /** An empty segment anywhere, between two ";" or after the last one, changes nothing. */
  lemma EmptySegmentIgnored(a: seq<string>, b: seq<string>)
    requires forall k :: 0 <= k < |a| ==> ';' !in a[k]
    requires forall k :: 0 <= k < |b| ==> ';' !in b[k]
    ensures ParseCookieHeader(Some(Join(a + [""] + b, ";"))) == ParseCookieHeader(Some(Join(a + b, ";")))
  {
    SemicolonFreeConcat(a, [""]);
    SemicolonFreeConcat(a + [""], b);
    SemicolonFreeConcat(a, b);
    ParseSegments(a + [""] + b);
    ParseSegments(a + b);
    NonEmptyDropsEmpty(a, b);
  }

  lemma SemicolonFreeConcat(x: seq<string>, y: seq<string>)
    requires forall k :: 0 <= k < |x| ==> ';' !in x[k]
    requires forall k :: 0 <= k < |y| ==> ';' !in y[k]
    ensures forall k :: 0 <= k < |x + y| ==> ';' !in (x + y)[k]
  {
    forall k | 0 <= k < |x + y| ensures ';' !in (x + y)[k] {
      if k >= |x| {
        assert (x + y)[k] == y[k - |x|];
      }
    }
  }

  /** The filter drops an inserted empty segment. */
  lemma NonEmptyDropsEmpty(a: seq<string>, b: seq<string>)
    ensures NonEmpty(a + [""] + b) == NonEmpty(a + b)
  {
    NonEmptyAppend(a + [""], b);
    NonEmptyAppend(a, [""]);
    NonEmptyAppend(a, b);
    assert NonEmpty([""]) == [];
  }

  /**
   * The name stops at the first "=" and the value is everything after it, later "="
   * included: name + "=" + value is the trimmed segment. Without "=", the value is "".
   */
  lemma CookieEntryParts(seg: string)
    ensures '=' in Trim(seg) ==> CookieEntry(seg).name + "=" + CookieEntry(seg).value == Trim(seg)
    ensures '=' !in Trim(seg) ==> CookieEntry(seg) == Cookie(Trim(seg), "")
  {
    var t := Trim(seg);
    var pieces := Split(t, '=');
    JoinSplit(t, '=');
    if '=' in t {
      assert Join(pieces, "=") == pieces[0] + "=" + Join(pieces[1..], "=");
    } else {
      SplitNoSeparator(t, '=');
    }
  }

  /** A blank, non-empty segment (" " between two ";") gives a cookie with empty name and value. */
  lemma BlankSegment(seg: string)
    requires IsBlank(seg)
    ensures CookieEntry(seg) == Cookie("", "")
  {
    TrimEmptyIffBlank(seg);
    EmptyTrimEntry(seg);
  }

  lemma EmptyTrimEntry(seg: string)
    requires Trim(seg) == ""
    ensures CookieEntry(seg) == Cookie("", "")
  {
    EntryOfEmpty();
    assert CookieEntry(seg) == EntryOfTrimmed("");
  }

  lemma EntryOfEmpty()
    ensures EntryOfTrimmed("") == Cookie("", "")
  {
    var pieces := Split("", '=');
    assert pieces == [""];
    assert pieces[1..] == [];
    assert Join(pieces[1..], "=") == "";
  }

  /** A cookie that `document.cookie` style serialisation can carry unchanged. */
  predicate Serialisable(c: Cookie)
  {
    '=' !in c.name && ';' !in c.name && ';' !in c.value
    && (c.name == [] || !IsSpace(c.name[0]))
    && (c.value == [] || !IsSpace(c.value[|c.value| - 1]))
  }

  /** The segments of "n1=v1; n2=v2; ...": the ones after the first keep the blank after ";". */
  function Segments(cs: seq<Cookie>): (segs: seq<string>)
    ensures |segs| == |cs|
  {
    seq(|cs|, k requires 0 <= k < |cs| => (if k == 0 then "" else " ") + cs[k].name + "=" + cs[k].value)
  }

  /** The Cookie header a browser sends for `cs`. */
  function SerialiseCookies(cs: seq<Cookie>): string
  {
    Join(Segments(cs), ";")
  }

  lemma TrimPadded(p: string, t: string)
    requires IsBlank(p) && t != [] && !IsSpace(t[0]) && !IsSpace(t[|t| - 1])
    ensures Trim(p + t) == t
  {
    TrimStartBlank(p, t);
    TrimStartBlank([], t);
    assert [] + t == t;
    TrimOfTrimmed(t);
  }

  lemma EntryOfPair(c: Cookie)
    requires '=' !in c.name
    ensures EntryOfTrimmed(c.name + "=" + c.value) == c
  {
    assert c.name + "=" + c.value == c.name + ['='] + c.value;
    SplitAfterPiece(c.name, c.value, '=');
    JoinSplit(c.value, '=');
  }

  lemma EntryOfSegment(p: string, c: Cookie)
    requires Serialisable(c) && IsBlank(p)
    ensures CookieEntry(p + c.name + "=" + c.value) == c
  {
    PairEnds(c);
    TrimPadded(p, c.name + "=" + c.value);
    Assoc(p, c.name, "=");
    Assoc(p, c.name + "=", c.value);
    EntryOfPair(c);
  }

  lemma PairEnds(c: Cookie)
    requires Serialisable(c)
    ensures var t := c.name + "=" + c.value; t != [] && !IsSpace(t[0]) && !IsSpace(t[|t| - 1])
  {
    var t := c.name + "=" + c.value;
    assert t[0] == (if c.name == [] then '=' else c.name[0]);
    assert t[|t| - 1] == (if c.value == [] then '=' else c.value[|c.value| - 1]);
  }

  /** One serialised segment is non-empty, has no ";", and reads back as its cookie. */
  lemma SegmentReadsBack(p: string, c: Cookie)
    requires Serialisable(c) && (p == "" || p == " ")
    ensures var seg := p + c.name + "=" + c.value; seg != "" && ';' !in seg && CookieEntry(seg) == c
  {
    var pair := c.name + "=" + c.value;
    PairHasNoSemicolon(c);
    Assoc(p, c.name, "=");
    Assoc(p, c.name + "=", c.value);
    assert p + c.name + "=" + c.value == p + pair;
    EntryOfSegment(p, c);
  }

  /** Parsing the header a browser would send gives the cookies back. */
  lemma CookieRoundTrip(cs: seq<Cookie>)
    requires forall k :: 0 <= k < |cs| ==> Serialisable(cs[k])
    ensures ParseCookieHeader(Some(SerialiseCookies(cs))) == cs
  {
    var segs := Segments(cs);
    forall k | 0 <= k < |segs| ensures segs[k] != "" && ';' !in segs[k] && CookieEntry(segs[k]) == cs[k] {
      SegmentReadsBack(if k == 0 then "" else " ", cs[k]);
    }
    ParseNonEmptySegments(segs);
  }

  lemma PairHasNoSemicolon(c: Cookie)
    requires ';' !in c.name && ';' !in c.value
    ensures ';' !in c.name + "=" + c.value
  {
    var pair := c.name + "=" + c.value;
    forall k | 0 <= k < |pair| ensures pair[k] != ';' {
      if k < |c.name| {
        assert pair[k] == c.name[k];
      } else if k > |c.name| {
        assert pair[k] == c.value[k - |c.name| - 1];
      }
    }
  }

  lemma FirstSegment(p: string, rest: string)
    requires ';' !in p
    ensures Split(p + ";" + rest, ';')[0] == p
  {
    assert p + ";" + rest == p + [';'] + rest;
    SplitAfterPiece(p, rest, ';');
  }

  /** A serialisable cookie written as "name=value" reads back as itself. */
  lemma EntryOfPairText(c: Cookie)
    requires Serialisable(c)
    ensures CookieEntry(c.name + "=" + c.value) == c
  {
    var pair := c.name + "=" + c.value;
    PairEnds(c);
    TrimOfTrimmed(pair);
    EntryOfPair(c);
    assert CookieEntry(pair) == EntryOfTrimmed(pair);
  }

  /** A line that starts with a serialisable pair and then ";" gives back that cookie from its first segment. */
  lemma FirstSegmentIsCookie(c: Cookie, rest: string)
    requires Serialisable(c)
    ensures CookieEntry(Split(c.name + "=" + c.value + ";" + rest, ';')[0]) == c
  {
    PairHasNoSemicolon(c);
    FirstSegment(c.name + "=" + c.value, rest);
    EntryOfPairText(c);
  }

  /** The cookie a Set-Cookie line carries: the browser stores exactly that name and value. */
  lemma SetCookieCarriesCookie(c: Cookie, production: bool)
    requires Serialisable(c)
    ensures CookieEntry(Split(SetCookieLine(c, production), ';')[0]) == c
  {
    var attrs := Attributes(production);
    assert attrs == ";" + attrs[1..];
    assert SetCookieLine(c, production) == c.name + "=" + c.value + ";" + attrs[1..];
    FirstSegmentIsCookie(c, attrs[1..]);
  }

  // ---------------------------------------------------------------------------
  // Route client and response

  /** The cookie adapter given to the Supabase client: the request's cookies, and the ones it asks to set. */
  class RouteClient {
    const parsed: seq<Cookie>
    var setCookies: seq<Cookie>

    constructor (cookieHeader: Option<string>)
      ensures parsed == ParseCookieHeader(cookieHeader) && setCookies == []
    {
      parsed := ParseCookieHeader(cookieHeader);
      setCookies := [];
    }

    function GetAll(): seq<Cookie>
    {
      parsed
    }

    /** `setAll` replaces what was captured before. */
    method SetAll(cookies: seq<Cookie>)
      modifies this
      ensures setCookies == cookies
    {
      setCookies := cookies;
    }

    function GetSetCookies(): seq<Cookie>
      reads this
    {
      setCookies
    }
  }

  datatype Body = JsonBody(json: Value) | HtmlBody(html: string)
  datatype Header = Header(name: string, value: string)

  /**
   * A character a Fetch header value may hold: it fits in one byte (the ByteString
   * conversion of `HeadersInit` and `append`) and is not NUL, LF or CR.
   */
  predicate HeaderByte(c: char)
  {
    0 < c as int <= 255 && c != '\n' && c != '\r'
  }

  /** A value `Headers` accepts; on any other, its constructor and `append` throw a TypeError. */
  predicate ValidHeaderValue(v: string)
  {
    v == [] || (HeaderByte(v[0]) && ValidHeaderValue(v[1..]))
  }

  /** A header value is valid exactly when each of its characters is a header byte. */
  lemma {:induction false} ValidHeaderValueChars(v: string)
    ensures ValidHeaderValue(v) <==> forall c :: c in v ==> HeaderByte(c)
  {
    if v != [] {
      ValidHeaderValueChars(v[1..]);
      assert v == [v[0]] + v[1..];
    }
  }

  /** `NextResponse.json` sets this header on every JSON reply. */
  const JsonHeaders := [Header("content-type", "application/json")]

  class HttpResponse {
    var status: nat
    var body: Body
    var headers: seq<Header>

    constructor (status: nat, body: Body, headers: seq<Header>)
      ensures this.status == status && this.body == body && this.headers == headers
    {
      this.status := status;
      this.body := body;
      this.headers := headers;
    }

    /** `res.headers.append(name, value)`: headers of the same name accumulate. */
    method Append(name: string, value: string)
      modifies this
      ensures headers == old(headers) + [Header(name, value)]
      ensures status == old(status) && body == old(body)
    {
      headers := headers + [Header(name, value)];
    }
  }

  /** One Set-Cookie value: the pair, the fixed attributes, and "; Secure" in production only. */
  function SetCookieLine(c: Cookie, production: bool): string
  {
    c.name + "=" + c.value + Attributes(production)
  }

  const CookieAttributes := "; Path=/; HttpOnly; SameSite=Lax"
  const SecureAttribute := "; Secure"

  function Attributes(production: bool): (r: string)
    ensures r != [] && r[0] == ';'
  {
    CookieAttributes + (if production then SecureAttribute else "")
  }

  /** The production line is the development line with "; Secure" appended. */
  lemma SecureOnlyInProduction(c: Cookie)
    ensures SetCookieLine(c, true) == SetCookieLine(c, false) + SecureAttribute
    ensures |SetCookieLine(c, false)| == |c.name| + 1 + |c.value| + |CookieAttributes|
  {
  }

  function SetCookieHeaders(cookies: seq<Cookie>, production: bool): (hs: seq<Header>)
    ensures |hs| == |cookies|
    ensures forall k :: 0 <= k < |hs| ==> hs[k] == Header("Set-Cookie", SetCookieLine(cookies[k], production))
  {
    seq(|cookies|, k requires 0 <= k < |cookies| => Header("Set-Cookie", SetCookieLine(cookies[k], production)))
  }

  /** The index of the first cookie whose Set-Cookie line `append` refuses, or the count when it refuses none. */
  function FirstRejected(cookies: seq<Cookie>, production: bool): (n: nat)
    ensures n <= |cookies|
    ensures forall k :: 0 <= k < n ==> ValidHeaderValue(SetCookieLine(cookies[k], production))
    ensures n < |cookies| ==> !ValidHeaderValue(SetCookieLine(cookies[n], production))
  {
    if cookies == [] then 0
    else if !ValidHeaderValue(SetCookieLine(cookies[0], production)) then 0
    else 1 + FirstRejected(cookies[1..], production)
  }

  /** A position where every earlier line is accepted and the line there (if any) is refused is the first rejection. */
  lemma FirstRejectedAt(cookies: seq<Cookie>, production: bool, i: nat)
    requires i <= |cookies|
    requires forall k :: 0 <= k < i ==> ValidHeaderValue(SetCookieLine(cookies[k], production))
    requires i < |cookies| ==> !ValidHeaderValue(SetCookieLine(cookies[i], production))
    ensures FirstRejected(cookies, production) == i
  {
  }

  /**
   * The loop that attaches one Set-Cookie header per captured cookie, in order. `append`
   * throws on a line that is not a valid header value: the loop stops there, reports it with
   * `ok == false`, and the lines before it stay attached.
   */
  method AttachSetCookies(res: HttpResponse, cookies: seq<Cookie>, production: bool) returns (ok: bool)
    modifies res
    ensures ok <==> FirstRejected(cookies, production) == |cookies|
    ensures res.headers == old(res.headers) + SetCookieHeaders(cookies[..FirstRejected(cookies, production)], production)
    ensures res.status == old(res.status) && res.body == old(res.body)
  {
    var i := 0;
    while i < |cookies|
      invariant 0 <= i <= |cookies|
      invariant forall k :: 0 <= k < i ==> ValidHeaderValue(SetCookieLine(cookies[k], production))
      invariant res.headers == old(res.headers) + SetCookieHeaders(cookies[..i], production)
      invariant res.status == old(res.status) && res.body == old(res.body)
    {
      var c := cookies[i];
      var line := c.name + "=" + c.value + CookieAttributes;
      if production {
        line := line + SecureAttribute;
      }
      assert line == SetCookieLine(c, production);
      if !ValidHeaderValue(line) {
        FirstRejectedAt(cookies, production, i);
        return false;
      }
      res.Append("Set-Cookie", line);
      assert SetCookieHeaders(cookies[..i + 1], production)
          == SetCookieHeaders(cookies[..i], production) + [Header("Set-Cookie", SetCookieLine(c, production))];
      i := i + 1;
    }
    FirstRejectedAt(cookies, production, i);
    return true;
  }

  // ---------------------------------------------------------------------------
  // Authorisation and lookup

  const Unauthorized := "Unauthorized"
  const IdRequired := "generationId required"
  const NotFoundMessage := "Generation not found"
  const ExportFailed := "Failed to export PDF"

  /** Where the handler is headed, before anything is rendered. */
  datatype Decision = NoUser | BadBody(message: string) | MissingId | NotFound | Found(g: Row)

  /** `.eq("id", generationId).eq("user_id", user.id)`: the filter compares the id's string form. */
  function Matches(rows: seq<Row>, id: string, uid: string): (r: seq<Row>)
    ensures forall k :: 0 <= k < |r| ==> r[k] in rows && r[k].id == id && r[k].userId == uid
    ensures forall x :: x in r <==> x in rows && x.id == id && x.userId == uid
  {
    if rows == [] then []
    else if rows[0].id == id && rows[0].userId == uid then [rows[0]] + Matches(rows[1..], id, uid)
    else Matches(rows[1..], id, uid)
  }

  /** `.single()`: a result only when exactly one row matched and the query did not fail. */
  function Lookup(rows: seq<Row>, id: string, uid: string, dbError: bool): (r: Option<Row>)
    ensures r.Some? ==> r.value in rows && r.value.id == id && r.value.userId == uid
    ensures r.Some? <==> !dbError && |Matches(rows, id, uid)| == 1
  {
    var m := Matches(rows, id, uid);
    if dbError || |m| != 1 then None else Some(m[0])
  }

  /** The decision chain: no user, unreadable body, missing id, lookup. */
  function Decide(user: Option<string>, body: ParseResult, rows: seq<Row>, dbError: bool): (d: Decision)
    ensures user.None? <==> d == NoUser
    ensures d.BadBody? <==> user.Some? && body.SyntaxError?
    ensures d == MissingId <==> user.Some? && body.Parsed? && !Truthy(Chain(body.value, "generationId"))
    ensures d == NotFound <==>
      && user.Some? && body.Parsed? && Truthy(Chain(body.value, "generationId"))
      && (dbError || |Matches(rows, Display(Chain(body.value, "generationId")), user.value)| != 1)
    ensures d.Found? <==>
      && user.Some? && body.Parsed? && Truthy(Chain(body.value, "generationId")) && !dbError
      && |Matches(rows, Display(Chain(body.value, "generationId")), user.value)| == 1
    ensures d.Found? ==>
        && user.Some? && body.Parsed? && !dbError
        && d.g in rows && d.g.userId == user.value && d.g.id == Display(Chain(body.value, "generationId"))
  {
    if user.None? then NoUser
    else
      match body
      case SyntaxError(m) => BadBody(m)
      case Parsed(v) =>
        var generationId := Chain(v, "generationId");
        if !Truthy(generationId) then MissingId
        else
          match Lookup(rows, Display(generationId), user.value, dbError)
          case None => NotFound
          case Some(g) => Found(g)
  }

  lemma {:induction false} MatchesOwned(rows: seq<Row>, id: string, uid: string)
    ensures Matches(rows, id, uid) == Matches(Owned(rows, uid), id, uid)
  {
    if rows != [] {
      MatchesOwned(rows[1..], id, uid);
      if rows[0].userId == uid {
        assert ([rows[0]] + Owned(rows[1..], uid))[1..] == Owned(rows[1..], uid);
      }
    }
  }

  /** Only the caller's own rows matter: another owner's generation answers exactly like a missing one. */
  lemma OtherOwnersInvisible(uid: string, body: ParseResult, rows: seq<Row>, dbError: bool)
    ensures Decide(Some(uid), body, rows, dbError) == Decide(Some(uid), body, Owned(rows, uid), dbError)
  {
    if body.Parsed? {
      MatchesOwned(rows, Display(Chain(body.value, "generationId")), uid);
    }
  }

  /** Adding a generation of someone else never changes the answer. */
  lemma ForeignRowChangesNothing(uid: string, body: ParseResult, rows: seq<Row>, r: Row, dbError: bool)
    requires r.userId != uid
    ensures Decide(Some(uid), body, rows + [r], dbError) == Decide(Some(uid), body, rows, dbError)
  {
    OtherOwnersInvisible(uid, body, rows, dbError);
    OtherOwnersInvisible(uid, body, rows + [r], dbError);
    OwnedAppend(rows, [r], uid);
    assert Owned([r], uid) == [];
    assert Owned(rows, uid) + [] == Owned(rows, uid);
  }

  /** `${String(startup_name).replace(/\s+/g, "-")}-pitch.html`. */
  function PitchFilename(name: Value): string
  {
    Slug(Display(name)) + "-pitch.html"
  }

  /** The file name has no whitespace, and slugging it again changes nothing. */
  lemma PitchFilenameClean(name: Value)
    ensures NoSpace(PitchFilename(name))
    ensures Slug(PitchFilename(name)) == PitchFilename(name)
  {
    SlugWithSuffix(Display(name), "-pitch.html");
  }

  const DispositionPrefix := "inline; filename=\""

  function ContentDisposition(name: Value): string
  {
    DispositionPrefix + PitchFilename(name) + "\""
  }

  /** A concatenation is a valid header value exactly when both parts are. */
  lemma ValidHeaderValueAppend(a: string, b: string)
    ensures ValidHeaderValue(a + b) <==> ValidHeaderValue(a) && ValidHeaderValue(b)
  {
    ValidHeaderValueChars(a);
    ValidHeaderValueChars(b);
    ValidHeaderValueChars(a + b);
    assert forall c :: c in a + b <==> c in a || c in b;
  }

  /** The slug of `s` is a valid header value exactly when every non-whitespace character of `s` is a byte other than NUL. */
  lemma ValidSlug(s: string)
    ensures ValidHeaderValue(Slug(s)) <==> forall c :: c in s && !IsSpace(c) ==> 0 < c as int <= 255
  {
    SlugChars(s);
    ValidHeaderValueChars(Slug(s));
    assert HeaderByte('-');
  }

  lemma DispositionPrefixBytes()
    ensures forall c :: c in DispositionPrefix ==> HeaderByte(c)
  {
  }

  lemma DispositionSuffixBytes()
    ensures forall c :: c in "-pitch.html" + "\"" ==> HeaderByte(c)
  {
  }

  /** The fixed text around the file name is made of header bytes. */
  lemma FixedDispositionPartsValid()
    ensures ValidHeaderValue(DispositionPrefix) && ValidHeaderValue("-pitch.html" + "\"")
  {
    DispositionPrefixBytes();
    DispositionSuffixBytes();
    ValidHeaderValueChars(DispositionPrefix);
    ValidHeaderValueChars("-pitch.html" + "\"");
  }

  /**
   * The Content-Disposition value is a valid header value exactly when every non-whitespace
   * character of the startup name's string form is a byte other than NUL: whitespace, line
   * breaks included, has become "-" by then.
   */
  lemma DispositionAccepted(name: Value)
    ensures ValidHeaderValue(ContentDisposition(name))
        <==> forall c :: c in Display(name) && !IsSpace(c) ==> 0 < c as int <= 255
  {
    var slug := Slug(Display(name));
    assert ContentDisposition(name) == DispositionPrefix + (slug + ("-pitch.html" + "\""));
    FixedDispositionPartsValid();
    ValidHeaderValueAppend(slug, "-pitch.html" + "\"");
    ValidHeaderValueAppend(DispositionPrefix, slug + ("-pitch.html" + "\""));
    ValidSlug(Display(name));
  }

  /** A name with a character outside Latin-1, such as "Nova™", cannot be sent as a header. */
  lemma TrademarkNameRejected()
    ensures !ValidHeaderValue(ContentDisposition(Str("Nova\U{2122}")))
  {
    DispositionAccepted(Str("Nova\U{2122}"));
    assert '\U{2122}' in Display(Str("Nova\U{2122}")) && !IsSpace('\U{2122}');
  }

  // ---------------------------------------------------------------------------
  // The handler

  /**
   * The page reply: the response with its two headers, then one Set-Cookie header per
   * captured cookie. A header value `Headers` refuses makes the constructor or an `append`
   * throw, and the catch answers 500 instead.
   */
  method SendPage(g: Row, captured: seq<Cookie>, production: bool, formatDate: int -> string)
    returns (res: HttpResponse)
    ensures fresh(res)
    ensures if ValidHeaderValue(ContentDisposition(g.cols.startupName)) && FirstRejected(captured, production) == |captured| then
              && res.status == 200
              && res.body == HtmlBody(PrintPage.PrintHtml(g, formatDate))
              && res.headers == [Header("Content-Type", "text/html"), Header("Content-Disposition", ContentDisposition(g.cols.startupName))]
                                + SetCookieHeaders(captured, production)
            else
              res.status == 500 && res.body == JsonBody(ErrorBody(ExportFailed)) && res.headers == JsonHeaders
  {
    var disposition := ContentDisposition(g.cols.startupName);
    if !ValidHeaderValue(disposition) {
      // the NextResponse constructor throws
      res := new HttpResponse(500, JsonBody(ErrorBody(ExportFailed)), JsonHeaders);
    } else {
      res := new HttpResponse(200, HtmlBody(PrintPage.PrintHtml(g, formatDate)),
        [Header("Content-Type", "text/html"), Header("Content-Disposition", disposition)]);
      var ok := AttachSetCookies(res, captured, production);
      if !ok {
        // an `append` threw
        res := new HttpResponse(500, JsonBody(ErrorBody(ExportFailed)), JsonHeaders);
      } else {
        assert captured[..|captured|] == captured;
      }
    }
  }

  /**
   * POST /api/export/pdf. `refreshed` is what the Supabase client hands to `setAll` while
   * checking the user (a token refresh), `rows` the table, `dbError` a failed query.
   */
  method Export(
    cookieHeader: Option<string>, refreshed: Option<seq<Cookie>>, user: Option<string>, body: ParseResult,
    rows: seq<Row>, dbError: bool, production: bool, formatDate: int -> string)
    returns (res: HttpResponse)
    ensures fresh(res)
    ensures var d := Decide(user, body, rows, dbError);
      && (d == NoUser ==> res.status == 401 && res.body == JsonBody(ErrorBody(Unauthorized)) && res.headers == JsonHeaders)
      && (d.BadBody? ==> res.status == 500 && res.body == JsonBody(ErrorBody(ExportFailed)) && res.headers == JsonHeaders)
      && (d == MissingId ==> res.status == 400 && res.body == JsonBody(ErrorBody(IdRequired)) && res.headers == JsonHeaders)
      && (d == NotFound ==> res.status == 404 && res.body == JsonBody(ErrorBody(NotFoundMessage)) && res.headers == JsonHeaders)
      && (d.Found? ==>
            var captured := if refreshed.Some? then refreshed.value else [];
            if ValidHeaderValue(ContentDisposition(d.g.cols.startupName)) && FirstRejected(captured, production) == |captured| then
              && res.status == 200
              && res.body == HtmlBody(PrintPage.PrintHtml(d.g, formatDate))
              && res.headers == [Header("Content-Type", "text/html"), Header("Content-Disposition", ContentDisposition(d.g.cols.startupName))]
                                + SetCookieHeaders(captured, production)
            else
              res.status == 500 && res.body == JsonBody(ErrorBody(ExportFailed)) && res.headers == JsonHeaders)
  {
    var client := new RouteClient(cookieHeader);
    if refreshed.Some? {
      client.SetAll(refreshed.value);
    }
    var d := Decide(user, body, rows, dbError);
    match d
    case NoUser =>
      res := new HttpResponse(401, JsonBody(ErrorBody(Unauthorized)), JsonHeaders);
    case BadBody(_) =>
      res := new HttpResponse(500, JsonBody(ErrorBody(ExportFailed)), JsonHeaders);
    case MissingId =>
      res := new HttpResponse(400, JsonBody(ErrorBody(IdRequired)), JsonHeaders);
    case NotFound =>
      res := new HttpResponse(404, JsonBody(ErrorBody(NotFoundMessage)), JsonHeaders);
    case Found(g) =>
      res := SendPage(g, client.GetSetCookies(), production, formatDate);
  }

}
