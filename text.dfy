/**
 * The JavaScript string operations the handlers use: `trim()`, the `\s` class,
 * `split` on one character, `join`, a global `replace` of a literal with "",
 * `replace(/\s+/g, "-")`, and decimal rendering of numbers.
 */
module Text {

  /** JavaScript WhiteSpace and LineTerminator characters: what `trim()` strips and `\s` matches. */
  predicate IsSpace(c: char)
  {
    c == '\t' || c == '\n' || c == '\U{000B}' || c == '\U{000C}' || c == '\r' || c == ' '
    || c == '\U{00A0}' || c == '\U{1680}' || ('\U{2000}' <= c <= '\U{200A}')
    || c == '\U{2028}' || c == '\U{2029}' || c == '\U{202F}' || c == '\U{205F}'
    || c == '\U{3000}' || c == '\U{FEFF}'
  }

  /** Every character is whitespace (this includes the empty string). */
  predicate IsBlank(s: string)
  {
    forall i :: 0 <= i < |s| ==> IsSpace(s[i])
  }

  /** No character is whitespace. */
  predicate NoSpace(s: string)
  {
    forall i :: 0 <= i < |s| ==> !IsSpace(s[i])
  }

  /** `t` occurs in `s` starting at index `i`. */
  predicate StartsAt(s: string, i: nat, t: string)
  {
    i + |t| <= |s| && s[i..i + |t|] == t
  }

  /** `t` occurs somewhere in `s`. */
  predicate Occurs(s: string, t: string)
  {
    exists i :: 0 <= i <= |s| && StartsAt(s, i, t)
  }

  /** `trimStart()`: drops the leading whitespace run. */
  function TrimStart(s: string): (r: string)
    ensures |r| <= |s| && r == s[|s| - |r|..]
    ensures r == [] || !IsSpace(r[0])
  {
    if s != [] && IsSpace(s[0]) then TrimStart(s[1..]) else s
  }

  /** What `trimStart()` drops is whitespace. */
  lemma {:induction false} TrimStartDropsSpace(s: string)
    ensures IsBlank(s[..|s| - |TrimStart(s)|])
  {
    if s != [] && IsSpace(s[0]) {
      TrimStartDropsSpace(s[1..]);
      var k := |s| - |TrimStart(s)|;
      assert s[..k] == [s[0]] + s[1..][..k - 1];
    }
  }

  /** `trimEnd()`: drops the trailing whitespace run. */
  function TrimEnd(s: string): (r: string)
    ensures |r| <= |s| && r == s[..|r|]
    ensures r == [] || !IsSpace(r[|r| - 1])
    ensures s != [] && !IsSpace(s[0]) ==> r != []
    decreases |s|
  {
    if s != [] && IsSpace(s[|s| - 1]) then TrimEnd(s[..|s| - 1]) else s
  }

  /** What `trimEnd()` drops is whitespace. */
  lemma {:induction false} TrimEndDropsSpace(s: string)
    ensures IsBlank(s[|TrimEnd(s)|..])
    decreases |s|
  {
    if s != [] && IsSpace(s[|s| - 1]) {
      var u := s[..|s| - 1];
      TrimEndDropsSpace(u);
      var k := |TrimEnd(s)|;
      assert s[k..] == u[k..] + [s[|s| - 1]];
    }
  }

  /** `trim()`: drops leading and trailing whitespace. */
  function Trim(s: string): (r: string)
    ensures |r| <= |s|
    ensures r == [] || (!IsSpace(r[0]) && !IsSpace(r[|r| - 1]))
  {
    TrimEnd(TrimStart(s))
  }

  /**
   * `trim()` keeps a prefix of what `trimStart()` keeps, and everything it drops, at either
   * end, is whitespace.
   */
  lemma TrimDropsSpace(s: string)
    ensures |Trim(s)| <= |TrimStart(s)| && Trim(s) == TrimStart(s)[..|Trim(s)|]
    ensures IsBlank(s[..|s| - |TrimStart(s)|]) && IsBlank(TrimStart(s)[|Trim(s)|..])
  {
    TrimStartDropsSpace(s);
    TrimEndDropsSpace(TrimStart(s));
  }

  /** `s.trim().length === 0` holds exactly for the blank strings. */
  lemma TrimEmptyIffBlank(s: string)
    ensures Trim(s) == [] <==> IsBlank(s)
  {
    var t := TrimStart(s);
    TrimStartDropsSpace(s);
    if t != [] {
      assert !IsSpace(t[0]);
      assert s[|s| - |t|] == t[0];
    } else {
      assert s[..|s|] == s;
    }
  }

  /** A string that has no surrounding whitespace is left alone by `trim()`. */
  lemma TrimOfTrimmed(s: string)
    requires s == [] || (!IsSpace(s[0]) && !IsSpace(s[|s| - 1]))
    ensures Trim(s) == s
  {
  }

  // ---------------------------------------------------------------------------
  // split / join

  /** `s.split(c)` for a one-character separator: always at least one piece. */
  function Split(s: string, c: char): (parts: seq<string>)
    ensures |parts| >= 1
    ensures forall k :: 0 <= k < |parts| ==> c !in parts[k]
  {
    if s == [] then [""]
    else if s[0] == c then [""] + Split(s[1..], c)
    else
      var rest := Split(s[1..], c);
      [[s[0]] + rest[0]] + rest[1..]
  }

  /** `parts.join(sep)`. */
  function Join(parts: seq<string>, sep: string): string
  {
    if parts == [] then ""
    else if |parts| == 1 then parts[0]
    else parts[0] + sep + Join(parts[1..], sep)
  }

  /** Splitting and joining back with the same separator gives the string back. */
  lemma {:induction false} JoinSplit(s: string, c: char)
    ensures Join(Split(s, c), [c]) == s
  {
    if s == [] {
    } else if s[0] == c {
      JoinSplit(s[1..], c);
      assert s == [c] + s[1..];
    } else {
      var rest := Split(s[1..], c);
      JoinSplit(s[1..], c);
      if |rest| == 1 {
        assert s == [s[0]] + rest[0];
      } else {
        assert Join(rest, [c]) == rest[0] + [c] + Join(rest[1..], [c]);
        assert s == [s[0]] + s[1..];
      }
    }
  }

  /** Joining separator-free pieces and splitting again gives the pieces back. */
  lemma {:induction false} SplitJoin(parts: seq<string>, c: char)
    requires |parts| >= 1
    requires forall k :: 0 <= k < |parts| ==> c !in parts[k]
    ensures Split(Join(parts, [c]), c) == parts
  {
    if |parts| == 1 {
      SplitNoSeparator(parts[0], c);
    } else {
      SplitJoin(parts[1..], c);
      SplitAfterPiece(parts[0], Join(parts[1..], [c]), c);
      assert parts == [parts[0]] + parts[1..];
    }
  }

  /** A string without the separator splits into itself. */
  lemma {:induction false} SplitNoSeparator(s: string, c: char)
    requires c !in s
    ensures Split(s, c) == [s]
  {
    if s != [] {
      SplitNoSeparator(s[1..], c);
      assert s == [s[0]] + s[1..];
    }
  }

  /** The first piece of `p + [c] + t` is `p`, and the rest are the pieces of `t`. */
  lemma {:induction false} SplitAfterPiece(p: string, t: string, c: char)
    requires c !in p
    ensures Split(p + [c] + t, c) == [p] + Split(t, c)
  {
    if p == [] {
      assert ([c] + t)[1..] == t;
    } else {
      SplitAfterPiece(p[1..], t, c);
      assert (p + [c] + t)[1..] == p[1..] + [c] + t;
      assert [p[0]] + p[1..] == p;
    }
  }

  // ---------------------------------------------------------------------------
  // replace(/t/g, "")

  /**
   * `s.replace(/t/g, "")` for a literal `t`: one left-to-right pass that drops each
   * non-overlapping occurrence found and resumes right after it.
   */
  function RemoveAll(s: string, t: string): (r: string)
    requires |t| > 0
    ensures |r| <= |s|
    decreases |s|
  {
    if |s| < |t| then s
    else if s[..|t|] == t then RemoveAll(s[|t|..], t)
    else [s[0]] + RemoveAll(s[1..], t)
  }

  /** A pass over a string in which `t` does not occur changes nothing. */
  lemma {:induction false} RemoveAbsent(s: string, t: string)
    requires |t| > 0
    requires !Occurs(s, t)
    ensures RemoveAll(s, t) == s
  {
    if |s| >= |t| {
      assert !StartsAt(s, 0, t);
      forall i: nat ensures !StartsAt(s[1..], i, t) {
        if i + |t| <= |s| - 1 {
          assert !StartsAt(s, i + 1, t);
          SliceOfSlice(s, 1, |s|, i, i + |t|);
        }
      }
      RemoveAbsent(s[1..], t);
      assert s == [s[0]] + s[1..];
    }
  }

  /** An occurrence of `t` at the front is dropped. */
  lemma RemoveLeading(b: string, t: string)
    requires |t| > 0
    ensures RemoveAll(t + b, t) == RemoveAll(b, t)
  {
    assert (t + b)[..|t|] == t;
    assert (t + b)[|t|..] == b;
  }

  /** Where no occurrence starts at the front, the pass keeps the first character. */
  lemma RemoveKeepsHead(s: string, t: string)
    requires |t| > 0 && |s| >= |t| && !StartsAt(s, 0, t)
    ensures RemoveAll(s, t) == [s[0]] + RemoveAll(s[1..], t)
  {
  }

  /** No occurrence starting inside `a` means none starting inside `a[1..]` once the head is dropped. */
  lemma NoStartAfterHead(a: string, b: string, t: string)
    requires a != [] && |t| > 0
    requires forall j: nat :: j < |a| ==> !StartsAt(a + b, j, t)
    ensures forall j: nat :: j < |a| - 1 ==> !StartsAt(a[1..] + b, j, t)
  {
    var s := a + b;
    assert s[1..] == a[1..] + b;
    forall j: nat | j < |a| - 1 ensures !StartsAt(a[1..] + b, j, t) {
      assert !StartsAt(s, j + 1, t);
      if j + |t| <= |s| - 1 {
        SliceOfSlice(s, 1, |s|, j, j + |t|);
      }
    }
  }

  /** When no occurrence of `t` starts inside `a`, the pass copies `a` and continues on `b`. */
  lemma {:induction false} RemoveKeepsPrefix(a: string, b: string, t: string)
    requires |t| > 0
    requires forall j: nat :: j < |a| ==> !StartsAt(a + b, j, t)
    ensures RemoveAll(a + b, t) == a + RemoveAll(b, t)
    decreases |a|
  {
    if a != [] {
      var s := a + b;
      var a' := a[1..];
      assert s[1..] == a' + b;
      NoStartAfterHead(a, b, t);
      RemoveKeepsPrefix(a', b, t);
      if |s| >= |t| {
        assert !StartsAt(s, 0, t);
        RemoveKeepsHead(s, t);
        Assoc([a[0]], a', RemoveAll(b, t));
        assert [a[0]] + a' == a;
      } else {
        assert RemoveAll(b, t) == b;
      }
    } else {
      assert a + b == b;
    }
  }

  // ---------------------------------------------------------------------------
  // replace(/\s+/g, "-")

  /** `s.replace(/\s+/g, "-")`: every maximal whitespace run becomes one "-". */
  function Slug(s: string): (r: string)
    ensures |r| <= |s|
    decreases |s|
  {
    if s == [] then []
    else if IsSpace(s[0]) then "-" + Slug(TrimStart(s))
    else [s[0]] + Slug(s[1..])
  }

  /** The slug has no whitespace left. */
  lemma {:induction false} SlugNoSpace(s: string)
    ensures NoSpace(Slug(s))
    decreases |s|
  {
    if s != [] {
      if IsSpace(s[0]) {
        SlugNoSpace(TrimStart(s));
      } else {
        SlugNoSpace(s[1..]);
      }
    }
  }

  /** `trimStart()` keeps only characters of its input, and every non-whitespace one. */
  lemma {:induction false} TrimStartChars(s: string)
    ensures forall c :: c in TrimStart(s) ==> c in s
    ensures forall c :: c in s && !IsSpace(c) ==> c in TrimStart(s)
  {
    if s != [] && IsSpace(s[0]) {
      TrimStartChars(s[1..]);
      assert s == [s[0]] + s[1..];
    }
  }

  /** The slug holds exactly the input's non-whitespace characters, plus the "-" that replaces each run. */
  lemma {:induction false} SlugChars(s: string)
    ensures forall c :: c in Slug(s) ==> c == '-' || (c in s && !IsSpace(c))
    ensures forall c :: c in s && !IsSpace(c) ==> c in Slug(s)
    decreases |s|
  {
    if s != [] {
      if IsSpace(s[0]) {
        SlugChars(TrimStart(s));
        TrimStartChars(s);
      } else {
        SlugChars(s[1..]);
        assert s == [s[0]] + s[1..];
      }
    }
  }

  /** A string with no whitespace is its own slug. */
  lemma {:induction false} SlugOfNoSpace(s: string)
    requires NoSpace(s)
    ensures Slug(s) == s
  {
    if s != [] {
      SlugOfNoSpace(s[1..]);
      assert [s[0]] + s[1..] == s;
    }
  }

  /** Slugging twice gives the same as slugging once. */
  lemma SlugIdempotent(s: string)
    ensures Slug(Slug(s)) == Slug(s)
  {
    SlugNoSpace(s);
    SlugOfNoSpace(Slug(s));
  }

  /** Runs cannot merge across a boundary that follows a non-space character. */
  lemma {:induction false} SlugAppend(x: string, y: string)
    requires x == [] || !IsSpace(x[|x| - 1])
    ensures Slug(x + y) == Slug(x) + Slug(y)
    decreases |x|
  {
    if x == [] {
      assert x + y == y;
    } else if IsSpace(x[0]) {
      var x' := TrimStart(x);
      TrimStartAppend(x, y);
      SlugAppend(x', y);
      SlugOfSpaceHead(x + y);
      SlugOfSpaceHead(x);
      Assoc("-", Slug(x'), Slug(y));
    } else {
      var x' := x[1..];
      assert (x + y)[1..] == x' + y;
      SlugAppend(x', y);
      SlugOfCharHead(x + y);
      SlugOfCharHead(x);
      Assoc([x[0]], Slug(x'), Slug(y));
    }
  }

  /** A slug followed by a whitespace-free suffix has no whitespace, and slugging it again changes nothing. */
  lemma SlugWithSuffix(s: string, suffix: string)
    requires NoSpace(suffix)
    ensures NoSpace(Slug(s) + suffix)
    ensures Slug(Slug(s) + suffix) == Slug(s) + suffix
  {
    var base := Slug(s);
    SlugNoSpace(s);
    forall k | 0 <= k < |base + suffix| ensures !IsSpace((base + suffix)[k]) {
      if k >= |base| {
        assert (base + suffix)[k] == suffix[k - |base|];
      }
    }
    SlugOfNoSpace(base + suffix);
  }

  lemma SlugOfSpaceHead(s: string)
    requires s != [] && IsSpace(s[0])
    ensures Slug(s) == "-" + Slug(TrimStart(s))
  {
  }

  lemma SlugOfCharHead(s: string)
    requires s != [] && !IsSpace(s[0])
    ensures Slug(s) == [s[0]] + Slug(s[1..])
  {
  }

  /** Trimming the start of `x + y` stays inside `x` when `x` ends with a non-space character. */
  lemma {:induction false} TrimStartAppend(x: string, y: string)
    requires x != [] && !IsSpace(x[|x| - 1])
    ensures TrimStart(x + y) == TrimStart(x) + y
    ensures TrimStart(x) != [] && !IsSpace(TrimStart(x)[|TrimStart(x)| - 1])
  {
    if IsSpace(x[0]) {
      assert (x + y)[1..] == x[1..] + y;
      TrimStartAppend(x[1..], y);
    }
  }

  /** A non-empty whitespace run between two non-space boundaries becomes exactly one "-". */
  lemma SlugJoinsRun(a: string, w: string, b: string)
    requires a == [] || !IsSpace(a[|a| - 1])
    requires w != [] && IsBlank(w)
    requires b == [] || !IsSpace(b[0])
    ensures Slug(a + w + b) == Slug(a) + "-" + Slug(b)
  {
    SlugAppend(a, w + b);
    SlugOfBlankLead(w, b);
    Assoc(a, w, b);
    Assoc(Slug(a), "-", Slug(b));
  }

  lemma SlugOfBlankLead(w: string, b: string)
    requires w != [] && IsBlank(w)
    requires b == [] || !IsSpace(b[0])
    ensures Slug(w + b) == "-" + Slug(b)
  {
    TrimStartBlank(w, b);
    assert (w + b)[0] == w[0];
    SlugOfSpaceHead(w + b);
  }

  /** Concatenation is associative (stated once, so that proofs need not re-derive it). */
  lemma Assoc<T>(a: seq<T>, b: seq<T>, c: seq<T>)
    ensures a + b + c == a + (b + c)
  {
  }

  /** A slice of a slice is a slice of the whole. */
  lemma SliceOfSlice<T>(s: seq<T>, a: nat, b: nat, i: nat, j: nat)
    requires a <= b <= |s| && i <= j <= b - a
    ensures s[a..b][i..j] == s[a + i..a + j]
  {
    forall k | 0 <= k < j - i ensures s[a..b][i..j][k] == s[a + i..a + j][k] {
      assert s[a..b][i..j][k] == s[a..b][i + k] == s[a + i + k];
    }
  }

  /** Trimming the start of a blank run followed by a non-space start leaves the rest. */
  lemma {:induction false} TrimStartBlank(w: string, b: string)
    requires IsBlank(w)
    requires b == [] || !IsSpace(b[0])
    ensures TrimStart(w + b) == b
  {
    if w != [] {
      assert (w + b)[1..] == w[1..] + b;
      TrimStartBlank(w[1..], b);
    }
  }

  // ---------------------------------------------------------------------------
  // decimal rendering

  function DigitChar(d: nat): (c: char)
    requires d < 10
    ensures '0' <= c <= '9' && c as int - '0' as int == d
  {
    "0123456789"[d]
  }

  /** The decimal text of a natural number, as `String(n)` writes it. */
  function NatToString(n: nat): (r: string)
    ensures |r| >= 1
    ensures forall i :: 0 <= i < |r| ==> '0' <= r[i] <= '9'
    ensures |r| > 1 ==> r[0] != '0'
    decreases n
  {
    if n < 10 then [DigitChar(n)] else NatToString(n / 10) + [DigitChar(n % 10)]
  }

  /** What a string of decimal digits denotes, most significant digit first. */
  function DecimalValue(ds: string): nat
    requires forall i :: 0 <= i < |ds| ==> '0' <= ds[i] <= '9'
  {
    if ds == [] then 0 else 10 * DecimalValue(ds[..|ds| - 1]) + (ds[|ds| - 1] as int - '0' as int)
  }

  /** The digits `NatToString` writes denote the number itself. */
  lemma {:induction false} NatToStringValue(n: nat)
    ensures DecimalValue(NatToString(n)) == n
    decreases n
  {
    var r := NatToString(n);
    if n >= 10 {
      NatToStringValue(n / 10);
      assert r[..|r| - 1] == NatToString(n / 10);
    }
  }

  /** Different numbers are written differently. */
  lemma NatToStringInjective(m: nat, n: nat)
    requires NatToString(m) == NatToString(n)
    ensures m == n
  {
    NatToStringValue(m);
    NatToStringValue(n);
  }

  /** The decimal text of an integer, with a leading "-" for negatives. */
  function IntToString(i: int): string
  {
    if i < 0 then "-" + NatToString(-i) else NatToString(i)
  }
}
