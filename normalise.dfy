/**
 * The reply normaliser of POST /api/generate: pick a candidate out of the model's
 * message content with the two fence patterns
 *   /```json\n?([\s\S]*?)\n?```/   then   /```\n?([\s\S]*?)\n?```/
 * strip the chat-template tokens with four global replaces, trim, and parse.
 */
module Normalise {
  import opened Wrappers
  import opened Text
  import opened Json

  const JsonFence := "```json"
  const PlainFence := "```"

  // ---------------------------------------------------------------------------
  // Fence extraction

  /** The lazy group can stop at `q`: what follows is "```", or "\n```" (the optional newline taken). */
  predicate ClosesAt(s: string, q: nat)
  {
    StartsAt(s, q, "```") || StartsAt(s, q, "\n```")
  }

  /** Where the captured group starts for an opening marker at `i`: one directly following newline is skipped. */
  function BodyStart(s: string, marker: string, i: nat): (b: nat)
    requires StartsAt(s, i, marker)
    ensures i + |marker| <= b <= |s|
  {
    var e := i + |marker|;
    if e < |s| && s[e] == '\n' then e + 1 else e
  }

  /** The first position at or after `from` where the lazy group can stop. */
  function FirstClose(s: string, from: nat): (r: Option<nat>)
    ensures r.Some? ==> from <= r.value && ClosesAt(s, r.value)
    ensures r.Some? ==> forall q :: from <= q < r.value ==> !ClosesAt(s, q)
    ensures r.None? ==> forall q :: from <= q ==> !ClosesAt(s, q)
    decreases |s| - from
  {
    if from + 3 > |s| then None
    else if ClosesAt(s, from) then Some(from)
    else FirstClose(s, from + 1)
  }

  /** A match of a fence pattern: marker at `open`, group `s[body..close]`, closing fence at `close`. */
  datatype Fence = Fence(open: nat, body: nat, close: nat)

  /** The pattern tried at `f.open` matches, and the lazy group ends as early as possible. */
  ghost predicate IsMatchAt(s: string, marker: string, f: Fence)
  {
    && StartsAt(s, f.open, marker)
    && f.body == BodyStart(s, marker, f.open)
    && f.body <= f.close
    && ClosesAt(s, f.close)
    && forall q :: f.body <= q < f.close ==> !ClosesAt(s, q)
  }

  /** The pattern tried at `i` matches at all: the marker is there and a closing fence follows it. */
  ghost predicate CanOpenAt(s: string, marker: string, i: nat)
  {
    StartsAt(s, i, marker) && exists q :: BodyStart(s, marker, i) <= q && ClosesAt(s, q)
  }

  /** `s.match(pattern)` for the pattern built on `marker`: the leftmost start at or after `from` that matches. */
  function FindFence(s: string, marker: string, from: nat): (r: Option<Fence>)
    requires |marker| > 0
    ensures r.Some? ==> from <= r.value.open && IsMatchAt(s, marker, r.value)
    ensures r.Some? ==> forall i :: from <= i < r.value.open ==> !CanOpenAt(s, marker, i)
    ensures r.None? ==> forall i :: from <= i ==> !CanOpenAt(s, marker, i)
    decreases |s| - from
  {
    if from + |marker| > |s| then None
    else if StartsAt(s, from, marker) then
      match FirstClose(s, BodyStart(s, marker, from))
      case Some(q) => Some(Fence(from, BodyStart(s, marker, from), q))
      case None => FindFence(s, marker, from + 1)
    else FindFence(s, marker, from + 1)
  }

  /** The leftmost match is the only one the search can return: the regex result is determined. */
  lemma FindFenceIsLeftmostMatch(s: string, marker: string, f: Fence)
    requires |marker| > 0
    requires IsMatchAt(s, marker, f)
    requires forall i: nat :: i < f.open ==> !CanOpenAt(s, marker, i)
    ensures FindFence(s, marker, 0) == Some(f)
  {
    assert CanOpenAt(s, marker, f.open);
    var g := FindFence(s, marker, 0).value;
    assert CanOpenAt(s, marker, g.open);
    assert g.open == f.open;
    assert ClosesAt(s, g.close) && ClosesAt(s, f.close);
  }

  /** The captured group never contains "```": the lazy group stops at the first one. */
  lemma CaptureHasNoFence(s: string, marker: string, f: Fence)
    requires IsMatchAt(s, marker, f)
    ensures f.close <= |s|
    ensures !Occurs(s[f.body..f.close], "```")
  {
    var c := s[f.body..f.close];
    forall j | 0 <= j <= |c| ensures !StartsAt(c, j, "```") {
      if j + 3 <= |c| {
        var q := f.body + j;
        assert !ClosesAt(s, q);
        SliceOfSlice(s, f.body, f.close, j, j + 3);
      }
    }
  }

  /** The text the parser is given before cleanup: the "```json" group, else the "```" group, else everything. */
  function Candidate(content: string): (c: string)
    ensures |c| <= |content|
  {
    match FindFence(content, JsonFence, 0)
    case Some(f) => content[f.body..f.close]
    case None =>
      match FindFence(content, PlainFence, 0)
      case Some(g) => content[g.body..g.close]
      case None => content
  }

  /** With no "```" anywhere, the candidate is the whole content. */
  lemma CandidateWithoutFence(content: string)
    requires !Occurs(content, "```")
    ensures Candidate(content) == content
  {
    forall i: nat | StartsAt(content, i, JsonFence) ensures false {
      assert content[i..i + 3] == JsonFence[..3];
      assert StartsAt(content, i, "```");
    }
    assert FindFence(content, JsonFence, 0) == None;
    assert FindFence(content, PlainFence, 0) == None;
  }

  /** In `s`, the region `s[lo..n]` holds `x`, which has no "```", and a newline follows it: no close starts in the region. */
  lemma NoCloseInRegion(s: string, lo: nat, x: string)
    requires lo + |x| < |s| && s[lo..lo + |x|] == x && s[lo + |x|] == '\n'
    requires !Occurs(x, "```")
    ensures forall q :: lo <= q < lo + |x| ==> !StartsAt(s, q, "```")
    ensures forall q :: lo <= q < lo + |x| ==> !ClosesAt(s, q)
  {
    var n := lo + |x|;
    forall q | lo <= q < n ensures !StartsAt(s, q, "```") {
      if q + 3 <= n {
        assert !StartsAt(x, q - lo, "```");
        SliceOfSlice(s, lo, n, q - lo, q - lo + 3);
      } else if q + 3 <= |s| {
        assert s[q..q + 3][n - q] == s[n];
      }
    }
    forall q | lo <= q < n ensures !ClosesAt(s, q) {
      if q + 4 <= |s| {
        if q + 1 < n {
          assert !StartsAt(s, q + 1, "```");
          assert s[q + 1..q + 4] == s[q..q + 4][1..];
        } else {
          assert s[q..q + 4][1] == s[n];
        }
      }
    }
  }

  /** A backtick-free prefix creates no "```" in front of text that has none. */
  lemma NoFenceAfterPrefix(p: string, x: string)
    requires '`' !in p
    requires !Occurs(x, "```")
    ensures !Occurs(p + x, "```")
  {
    var y := p + x;
    forall i | 0 <= i <= |y| ensures !StartsAt(y, i, "```") {
      if i + 3 <= |y| {
        if i < |p| {
          assert y[i..i + 3][0] == p[i];
        } else {
          assert !StartsAt(x, i - |p|, "```");
          assert y[i..i + 3] == x[i - |p|..i - |p| + 3];
        }
      }
    }
  }

  /** pre + "```json\n" + x + "\n```" + post, with no backtick before the fence: the candidate is exactly `x`. */
  lemma CandidateOfJsonFence(pre: string, x: string, post: string)
    requires '`' !in pre
    requires !Occurs(x, "```")
    ensures Candidate(pre + "```json\n" + x + "\n```" + post) == x
  {
    var s := pre + "```json\n" + x + "\n```" + post;
    var a := |pre|;
    var n := a + 8 + |x|;
    assert s[a..a + 7] == JsonFence;
    assert s[a + 7] == '\n';
    assert s[a + 8..n] == x;
    assert s[n..n + 4] == "\n```";
    NoCloseInRegion(s, a + 8, x);
    assert ClosesAt(s, n);
    forall i: nat | i < a ensures !CanOpenAt(s, JsonFence, i) {
      if i + 7 <= |s| {
        assert s[i..i + 7][0] == pre[i];
      }
    }
    FindFenceIsLeftmostMatch(s, JsonFence, Fence(a, a + 8, n));
  }

  /**
   * No direct parse is tried first: a valid JSON text whose string value holds a
   * fenced block is cut down to the inside of the block.
   */
  lemma FencedBlockInsideJsonString(x: string)
    requires !Occurs(x, "```")
    ensures Candidate("{\"html\":\"```json\n" + x + "\n```\"}") == x
  {
    var pre := "{\"html\":\"";
    assert "{\"html\":\"```json\n" + x + "\n```\"}" == pre + "```json\n" + x + "\n```" + "\"}";
    CandidateOfJsonFence(pre, x, "\"}");
  }

  /** In "```" + y + "\n```", with `y` starting neither with "j" nor a backtick, the json pattern finds no marker. */
  lemma NoJsonMarker(s: string, y: string)
    requires s == "```" + y + "\n```"
    requires !Occurs(y, "```") && y != [] && y[0] != 'j' && y[0] != '`'
    ensures FindFence(s, JsonFence, 0) == None
  {
    var n := 3 + |y|;
    assert s[3..n] == y;
    forall i: nat ensures !StartsAt(s, i, JsonFence) {
      if i + 7 <= |s| {
        if i < 3 {
          assert s[i..i + 7][3 - i] == s[3] == y[0];
        } else {
          assert !StartsAt(y, i - 3, "```");
          SliceOfSlice(s, 3, n, i - 3, i);
          assert s[i..i + 7][..3] == s[i..i + 3];
        }
      }
    }
  }

  /** In "```" + y + "\n```", with no "```" in `y` and no newline first, the plain pattern captures exactly `y`. */
  lemma PlainFenceAround(s: string, y: string)
    requires s == "```" + y + "\n```"
    requires !Occurs(y, "```") && y != [] && y[0] != '\n'
    ensures FindFence(s, PlainFence, 0) == Some(Fence(0, 3, 3 + |y|))
    ensures s[3..3 + |y|] == y
  {
    var n := 3 + |y|;
    assert s[3..n] == y;
    assert s[n..n + 4] == "\n```";
    NoCloseInRegion(s, 3, y);
    assert s[..3] == PlainFence;
    assert ClosesAt(s, n);
    FindFenceIsLeftmostMatch(s, PlainFence, Fence(0, 3, n));
  }

  /** "```JSON\n" + x + "\n```": the json pattern is case-sensitive, so the plain one matches and keeps the tag. */
  lemma CandidateOfUpperCaseTag(x: string)
    requires !Occurs(x, "```")
    ensures Candidate("```JSON\n" + x + "\n```") == "JSON\n" + x
  {
    var s := "```JSON\n" + x + "\n```";
    var y := "JSON\n" + x;
    NoFenceAfterPrefix("JSON\n", x);
    assert s == "```" + y + "\n```";
    NoJsonMarker(s, y);
    PlainFenceAround(s, y);
  }

  // ---------------------------------------------------------------------------
  // Chat-template token cleanup

  /** The four chat-template tokens removed, in the order the replaces run. */
  datatype Token = OpenS | CloseS | Inst | CloseInst

  function Lit(t: Token): string
  {
    match t
    case OpenS => "<s>"
    case CloseS => "</s>"
    case Inst => "[INST]"
    case CloseInst => "[/INST]"
  }

  predicate Opener(c: char) { c == '<' || c == '[' }
  predicate Closer(c: char) { c == '>' || c == ']' }

  /** Every token opens with '<' or '[' and closes with '>' or ']', and has neither anywhere else. */
  lemma TokenShape(t: Token)
    ensures |Lit(t)| >= 3 && Opener(Lit(t)[0]) && Closer(Lit(t)[|Lit(t)| - 1])
    ensures forall k :: 0 < k < |Lit(t)| ==> !Opener(Lit(t)[k])
    ensures forall k :: 0 <= k < |Lit(t)| - 1 ==> !Closer(Lit(t)[k])
  {
  }

  predicate TokenFree(s: string)
  {
    !Occurs(s, Lit(OpenS)) && !Occurs(s, Lit(CloseS)) && !Occurs(s, Lit(Inst)) && !Occurs(s, Lit(CloseInst))
  }

  /** The four chained `.replace(/tok/g, "")` calls. */
  function Strip(s: string): (r: string)
    ensures |r| <= |s|
  {
    RemoveAll(RemoveAll(RemoveAll(RemoveAll(s, Lit(OpenS)), Lit(CloseS)), Lit(Inst)), Lit(CloseInst))
  }

  /** The cleaned string handed to the parser: strip, then trim. */
  function Clean(s: string): (r: string)
    ensures |r| <= |s|
    ensures r == [] || (!IsSpace(r[0]) && !IsSpace(r[|r| - 1]))
  {
    Trim(Strip(s))
  }

  /** A candidate with none of the tokens is only trimmed. */
  lemma CleanOnlyTrims(s: string)
    requires TokenFree(s)
    ensures Clean(s) == Trim(s)
  {
    RemoveAbsent(s, Lit(OpenS));
    RemoveAbsent(s, Lit(CloseS));
    RemoveAbsent(s, Lit(Inst));
    RemoveAbsent(s, Lit(CloseInst));
  }

  /** A string cut into tokens and plain text, wherever the tokens sit (inside JSON string values included). */
  datatype Piece = Tok(t: Token) | Text(x: string)

  function Render(ps: seq<Piece>): string
  {
    if ps == [] then []
    else (match ps[0] case Tok(t) => Lit(t) case Text(x) => x) + Render(ps[1..])
  }

  function Texts(ps: seq<Piece>): string
  {
    if ps == [] then []
    else (match ps[0] case Tok(_) => [] case Text(x) => x) + Texts(ps[1..])
  }

  function Without(ps: seq<Piece>, t: Token): seq<Piece>
  {
    if ps == [] then []
    else if ps[0] == Tok(t) then Without(ps[1..], t)
    else [ps[0]] + Without(ps[1..], t)
  }

  lemma OccursInPart(a: string, b: string, u: string)
    ensures Occurs(a, u) ==> Occurs(a + b, u)
    ensures Occurs(b, u) ==> Occurs(a + b, u)
  {
    if Occurs(a, u) {
      var i :| 0 <= i <= |a| && StartsAt(a, i, u);
      assert (a + b)[i..i + |u|] == a[i..i + |u|];
      assert StartsAt(a + b, i, u);
    }
    if Occurs(b, u) {
      var i :| 0 <= i <= |b| && StartsAt(b, i, u);
      assert (a + b)[|a| + i..|a| + i + |u|] == b[i..i + |u|];
      assert StartsAt(a + b, |a| + i, u);
    }
  }

  /** No occurrence of another token starts inside a token. */
  lemma TokenHeadIsClear(t: Token, u: Token, rest: string)
    requires t != u
    ensures forall j: nat :: j < |Lit(t)| ==> !StartsAt(Lit(t) + rest, j, Lit(u))
  {
    var L, U := Lit(t), Lit(u);
    var s := L + rest;
    var m := |L| - 1;
    TokenShape(t);
    TokenShape(u);
    assert |L| != |U|;
    forall j: nat | j < |L| ensures !StartsAt(s, j, U) {
      if j + |U| <= |s| {
        var w := s[j..j + |U|];
        if j > 0 {
          assert w[0] == s[j] == L[j];
        } else if |U| < |L| {
          assert w[|U| - 1] == s[|U| - 1] == L[|U| - 1];
        } else {
          assert w[m] == s[m] == L[m];
        }
      }
    }
  }

  /** No occurrence of `u` starts inside token-free text that is followed by nothing or by a token. */
  lemma TextHeadIsClear(x: string, b: string, u: Token)
    requires !Occurs(x, Lit(u))
    requires b == [] || Opener(b[0])
    ensures forall j: nat :: j < |x| ==> !StartsAt(x + b, j, Lit(u))
  {
    var U := Lit(u);
    TokenShape(u);
    forall j: nat | j < |x| ensures !StartsAt(x + b, j, U) {
      if j + |U| <= |x + b| {
        var w := (x + b)[j..j + |U|];
        if j + |U| <= |x| {
          assert w == x[j..j + |U|];
          assert !StartsAt(x, j, U);
        } else {
          var k := |x| - j;
          assert 0 < k < |U| && b != [];
          assert w[k] == (x + b)[|x|] == b[0];
          assert !Opener(U[k]);
        }
      }
    }
  }

  /** The rendering of a list that starts with a token starts with an opener. */
  lemma RenderHead(ps: seq<Piece>)
    requires ps != [] && ps[0].Tok?
    ensures Render(ps) != [] && Opener(Render(ps)[0])
  {
    TokenShape(ps[0].t);
  }

  /**
   * One `.replace(/u/g, "")` pass over a rendered list drops exactly the `u` pieces,
   * provided the text pieces, read together, do not spell `u`.
   */
  lemma {:induction false} Pass(ps: seq<Piece>, u: Token)
    requires !Occurs(Texts(ps), Lit(u))
    ensures RemoveAll(Render(ps), Lit(u)) == Render(Without(ps, u))
    ensures Texts(Without(ps, u)) == Texts(ps)
    decreases |ps|
  {
    if ps != [] {
      var p, r := ps[0], ps[1..];
      assert ps == [p] + r;
      RenderCons(p, r);
      WithoutCons(p, r, u);
      match p
      case Tok(t) =>
        assert Texts(ps) == Texts(r);
        Pass(r, u);
        if t == u {
          RemoveLeading(Render(r), Lit(u));
        } else {
          TokenHeadIsClear(t, u, Render(r));
          RemoveKeepsPrefix(Lit(t), Render(r), Lit(u));
          RenderCons(p, Without(r, u));
        }
      case Text(x) =>
        OccursInPart(x, Texts(r), Lit(u));
        if r != [] && r[0].Text? {
          var y, r2 := r[0].x, r[1..];
          assert ps == [Text(x)] + ([Text(y)] + r2);
          var ms := [Text(x + y)] + r2;
          MergeRender(x, y, r2);
          MergeRender(x, y, Without(r2, u));
          MergeWithout(x, y, r2, u);
          Pass(ms, u);
        } else {
          if r != [] {
            RenderHead(r);
          }
          TextHeadIsClear(x, Render(r), u);
          RemoveKeepsPrefix(x, Render(r), Lit(u));
          Pass(r, u);
          RenderCons(p, Without(r, u));
        }
    }
  }

  /** Two adjacent text pieces render as their concatenation. */
  lemma MergeRender(x: string, y: string, r: seq<Piece>)
    ensures Render([Text(x)] + ([Text(y)] + r)) == Render([Text(x + y)] + r)
    ensures Texts([Text(x)] + ([Text(y)] + r)) == Texts([Text(x + y)] + r)
  {
    RenderCons(Text(x), [Text(y)] + r);
    RenderCons(Text(y), r);
    RenderCons(Text(x + y), r);
    Assoc(x, y, Render(r));
    Assoc(x, y, Texts(r));
  }

  lemma MergeWithout(x: string, y: string, r: seq<Piece>, u: Token)
    ensures Without([Text(x)] + ([Text(y)] + r), u) == [Text(x)] + ([Text(y)] + Without(r, u))
    ensures Without([Text(x + y)] + r, u) == [Text(x + y)] + Without(r, u)
  {
    WithoutCons(Text(x), [Text(y)] + r, u);
    WithoutCons(Text(y), r, u);
    WithoutCons(Text(x + y), r, u);
  }

  lemma WithoutCons(p: Piece, ps: seq<Piece>, t: Token)
    ensures Without([p] + ps, t) == if p == Tok(t) then Without(ps, t) else [p] + Without(ps, t)
  {
    assert ([p] + ps)[1..] == ps;
  }

  lemma RenderCons(p: Piece, ps: seq<Piece>)
    ensures Render([p] + ps) == (match p case Tok(t) => Lit(t) case Text(x) => x) + Render(ps)
    ensures Texts([p] + ps) == (match p case Tok(_) => [] case Text(x) => x) + Texts(ps)
  {
    assert ([p] + ps)[1..] == ps;
  }

  /** With every token piece filtered out, only the text is rendered. */
  lemma {:induction false} RenderWithoutAll(ps: seq<Piece>)
    ensures Render(Without(Without(Without(Without(ps, OpenS), CloseS), Inst), CloseInst)) == Texts(ps)
  {
    if ps != [] {
      var p, r := ps[0], ps[1..];
      assert ps == [p] + r;
      RenderWithoutAll(r);
      var w1 := Without(r, OpenS);
      var w2 := Without(w1, CloseS);
      var w3 := Without(w2, Inst);
      var w4 := Without(w3, CloseInst);
      WithoutCons(p, r, OpenS);
      if p.Text? {
        WithoutCons(p, w1, CloseS);
        WithoutCons(p, w2, Inst);
        WithoutCons(p, w3, CloseInst);
        RenderCons(p, w4);
        RenderCons(p, r);
      } else {
        assert Texts(ps) == Texts(r);
        if p != Tok(OpenS) {
          WithoutCons(p, w1, CloseS);
          if p != Tok(CloseS) {
            WithoutCons(p, w2, Inst);
            if p != Tok(Inst) {
              WithoutCons(p, w3, CloseInst);
            }
          }
        }
      }
    }
  }

  /**
   * Cleanup removes every token piece, wherever it sits, and trims: when the text
   * between the tokens has no token of its own, the result is that text, trimmed.
   */
  lemma CleanRemovesTokens(ps: seq<Piece>)
    requires TokenFree(Texts(ps))
    ensures Clean(Render(ps)) == Trim(Texts(ps))
  {
    var p1 := Without(ps, OpenS);
    var p2 := Without(p1, CloseS);
    var p3 := Without(p2, Inst);
    Pass(ps, OpenS);
    Pass(p1, CloseS);
    Pass(p2, Inst);
    Pass(p3, CloseInst);
    RenderWithoutAll(ps);
  }

  /** The text around the `[/INST]` of the example spells no other token. */
  lemma ExampleTextFacts()
    ensures !Occurs("[/INST]", Lit(OpenS)) && !Occurs("[/INST]", Lit(CloseS)) && !Occurs("[/INST]", Lit(Inst))
  {
    var ts := "[/INST]";
    forall i | 0 <= i <= |ts|
      ensures !StartsAt(ts, i, Lit(OpenS)) && !StartsAt(ts, i, Lit(CloseS)) && !StartsAt(ts, i, Lit(Inst))
    {
      if i + 3 <= |ts| {
        assert ts[i..i + 3][0] == ts[i] != '<';
      }
      if i + 6 <= |ts| {
        assert ts[i..i + 6][0] == ts[i] && ts[i..i + 6][1] == ts[i + 1];
      }
    }
  }

  /** Text, the token `[/INST]`, text. */
  lemma AroundCloseInst(a: string, b: string)
    ensures Render([Text(a), Tok(CloseInst), Text(b)]) == a + Lit(CloseInst) + b
    ensures Texts([Text(a), Tok(CloseInst), Text(b)]) == a + b
    ensures forall t | t != CloseInst :: Without([Text(a), Tok(CloseInst), Text(b)], t) == [Text(a), Tok(CloseInst), Text(b)]
  {
    var ps := [Text(a), Tok(CloseInst), Text(b)];
    assert ps[1..] == [Tok(CloseInst)] + ps[2..];
    assert ps[2..] == [Text(b)] + [];
    assert ps == [Text(a)] + ps[1..];
    RenderCons(Text(a), ps[1..]);
    RenderCons(Tok(CloseInst), ps[2..]);
    RenderCons(Text(b), []);
    forall t | t != CloseInst ensures Without(ps, t) == ps {
      WithoutCons(Text(a), ps[1..], t);
      WithoutCons(Tok(CloseInst), ps[2..], t);
      WithoutCons(Text(b), [], t);
    }
  }

  /** The example's text spells none of the first three tokens, so their passes change nothing. */
  lemma FirstPassesKeep(a: string, b: string)
    requires a + b == Lit(CloseInst)
    ensures var s := a + Lit(CloseInst) + b;
      RemoveAll(RemoveAll(RemoveAll(s, Lit(OpenS)), Lit(CloseS)), Lit(Inst)) == s
  {
    var ps := [Text(a), Tok(CloseInst), Text(b)];
    AroundCloseInst(a, b);
    ExampleTextFacts();
    Pass(ps, OpenS);
    Pass(ps, CloseS);
    Pass(ps, Inst);
  }

  /** The `[/INST]` pass over the example drops the one token it finds and joins the text around it. */
  lemma LastPassJoins(a: string, b: string)
    requires a == "[/I" && b == "NST]"
    ensures RemoveAll(a + Lit(CloseInst) + b, Lit(CloseInst)) == a + b
  {
    TextHeadIsClear(a, Lit(CloseInst) + b, CloseInst);
    Assoc(a, Lit(CloseInst), b);
    RemoveKeepsPrefix(a, Lit(CloseInst) + b, Lit(CloseInst));
    RemoveLeading(b, Lit(CloseInst));
    assert RemoveAll(b, Lit(CloseInst)) == b;
  }

  /** A single pass can create a token out of the text around a removed one: "[/I[/INST]NST]" cleans to "[/INST]". */
  lemma SinglePassCanLeaveToken(a: string, b: string)
    requires a == "[/I" && b == "NST]"
    ensures Clean(a + Lit(CloseInst) + b) == a + b
    ensures a + b == Lit(CloseInst)
  {
    assert a + b == Lit(CloseInst);
    FirstPassesKeep(a, b);
    LastPassJoins(a, b);
    TrimOfTrimmed(a + b);
  }
}
