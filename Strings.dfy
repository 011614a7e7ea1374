/** The parts of Rust's `str` that the RTSP codec uses: `char::is_whitespace`,
    `find`, `split_once`, `split(..).next()`, `trim`, `split_whitespace`,
    `lines`, `join(" ")`, and integer `Display` / `FromStr`.

    The functions are plain definitions; what each one guarantees is stated
    by the lemma that follows it. */
module Strings {
  import opened Common

  /** `char::is_whitespace`: the Unicode White_Space property. */
  predicate IsWhitespace(c: char)
  {
    var n := c as int;
    (0x09 <= n <= 0x0D) || n == 0x20 || n == 0x85 || n == 0xA0 || n == 0x1680
    || (0x2000 <= n <= 0x200A) || n == 0x2028 || n == 0x2029 || n == 0x202F
    || n == 0x205F || n == 0x3000
  }

  /** A non-empty run of non-whitespace characters: what `split_whitespace` yields. */
  predicate Word(w: string)
  {
    |w| > 0 && forall j :: 0 <= j < |w| ==> !IsWhitespace(w[j])
  }

  /** No carriage return and no line feed. */
  predicate NoCrLf(s: string)
  {
    forall i :: 0 <= i < |s| ==> s[i] != '\r' && s[i] != '\n'
  }

  /** `c` does not occur in `s`. */
  predicate Without(s: string, c: char)
  {
    forall i :: 0 <= i < |s| ==> s[i] != c
  }

  // ---------------------------------------------------------------------------
  // Searching and splitting
  // ---------------------------------------------------------------------------

  /** `str::find(c)`: the index of the first occurrence of `c`. */
  function IndexOf(s: string, c: char): (r: Option<nat>)
    ensures r.Some? ==> r.value < |s|
    decreases |s|
  {
    if |s| == 0 then None
    else if s[0] == c then Some(0)
    else match IndexOf(s[1..], c)
      case None => None
      case Some(i) => Some(i + 1)
  }

  /** `find` returns the first occurrence, and `None` exactly when there is none. */
  lemma {:induction false} IndexOfSpec(s: string, c: char)
    ensures IndexOf(s, c).Some? ==> s[IndexOf(s, c).value] == c && Without(s[..IndexOf(s, c).value], c)
    ensures IndexOf(s, c).None? <==> Without(s, c)
    decreases |s|
  {
    if |s| > 0 && s[0] != c {
      IndexOfSpec(s[1..], c);
      match IndexOf(s[1..], c)
      case None =>
        assert forall i :: 1 <= i < |s| ==> s[i] == s[1..][i - 1];
      case Some(i) =>
        assert s[..i + 1] == [s[0]] + s[1..][..i];
    }
  }

  lemma IndexOfIs(s: string, c: char, i: nat)
    requires i < |s| && s[i] == c && Without(s[..i], c)
    ensures IndexOf(s, c) == Some(i)
  {
    IndexOfSpec(s, c);
    assert forall j :: 0 <= j < i ==> s[j] != c by {
      forall j | 0 <= j < i ensures s[j] != c { assert s[..i][j] == s[j]; }
    }
    var r := IndexOf(s, c).value;
    assert forall j :: 0 <= j < r ==> s[j] != c by {
      forall j | 0 <= j < r ensures s[j] != c { assert s[..r][j] == s[j]; }
    }
  }

  /** `str::split_once(c)`: the text before and after the first `c`. */
  function SplitOnce(s: string, c: char): Option<(string, string)>
  {
    match IndexOf(s, c)
    case None => None
    case Some(i) => Some((s[..i], s[i + 1..]))
  }

  lemma SplitOnceSpec(s: string, c: char)
    ensures SplitOnce(s, c).None? <==> Without(s, c)
    ensures SplitOnce(s, c).Some? ==>
      var (a, b) := SplitOnce(s, c).value;
      a + [c] + b == s && Without(a, c)
  {
    IndexOfSpec(s, c);
    if IndexOf(s, c).Some? {
      var i := IndexOf(s, c).value;
      assert s[..i] + [c] + s[i + 1..] == s;
    }
  }

  /** Splitting `a` ++ `c` ++ `b` at the first `c`, when `a` holds no `c`. */
  lemma SplitOnceAt(a: string, c: char, b: string)
    requires Without(a, c)
    ensures SplitOnce(a + [c] + b, c) == Some((a, b))
  {
    var s := a + [c] + b;
    assert s[..|a|] == a;
    assert s[|a| + 1..] == b;
    IndexOfIs(s, c, |a|);
  }

  /** `split(c).next()`: the text before the first `c`, or all of it. */
  function BeforeFirst(s: string, c: char): string
  {
    match IndexOf(s, c)
    case None => s
    case Some(i) => s[..i]
  }

  /** `split(c).next()` is the longest prefix without `c`. */
  lemma BeforeFirstSpec(s: string, c: char)
    ensures var r := BeforeFirst(s, c);
      && r == s[..|r|] && Without(r, c)
      && (|r| < |s| ==> s[|r|] == c)
  {
    IndexOfSpec(s, c);
  }

  // ---------------------------------------------------------------------------
  // Trimming
  // ---------------------------------------------------------------------------

  /** `str::trim_start`. */
  function TrimStart(s: string): (r: string)
    ensures |r| <= |s|
    decreases |s|
  {
    if |s| > 0 && IsWhitespace(s[0]) then TrimStart(s[1..]) else s
  }

  /** `str::trim_end`. */
  function TrimEnd(s: string): (r: string)
    ensures |r| <= |s|
    decreases |s|
  {
    if |s| > 0 && IsWhitespace(s[|s| - 1]) then TrimEnd(s[..|s| - 1]) else s
  }

  /** `str::trim`. */
  function Trim(s: string): string
  {
    TrimEnd(TrimStart(s))
  }

  /** A string that `trim` leaves alone: it neither starts nor ends with whitespace. */
  predicate Trimmed(s: string)
  {
    |s| == 0 || (!IsWhitespace(s[0]) && !IsWhitespace(s[|s| - 1]))
  }

  lemma {:induction false} TrimStartSpec(s: string)
    ensures var r := TrimStart(s);
      && r == s[|s| - |r|..]
      && (|r| > 0 ==> !IsWhitespace(r[0]))
      && (forall j :: 0 <= j < |s| - |r| ==> IsWhitespace(s[j]))
    decreases |s|
  {
    if |s| > 0 && IsWhitespace(s[0]) {
      TrimStartSpec(s[1..]);
    }
  }

  lemma {:induction false} TrimEndSpec(s: string)
    ensures var r := TrimEnd(s);
      && r == s[..|r|]
      && (|r| > 0 ==> !IsWhitespace(r[|r| - 1]))
      && (forall j :: |r| <= j < |s| ==> IsWhitespace(s[j]))
    decreases |s|
  {
    if |s| > 0 && IsWhitespace(s[|s| - 1]) {
      TrimEndSpec(s[..|s| - 1]);
    }
  }

  lemma TrimOfTrimmed(s: string)
    requires Trimmed(s)
    ensures Trim(s) == s
  {
  }

  /** `trim` drops the blank that `k: v` puts before a trimmed value. */
  lemma TrimAfterBlank(v: string)
    requires Trimmed(v)
    ensures Trim(" " + v) == v
  {
    var b := " " + v;
    assert b[1..] == v;
    assert IsWhitespace(b[0]);
    assert TrimStart(b) == TrimStart(v);
  }

  /** What `trim` returns is trimmed, and it is a slice of its input with
      only whitespace cut away on either side. */
  lemma TrimSpec(s: string)
    ensures Trimmed(Trim(s))
    ensures exists a, b ::
      && 0 <= a <= b <= |s| && Trim(s) == s[a..b]
      && (forall j :: 0 <= j < a ==> IsWhitespace(s[j]))
      && (forall j :: b <= j < |s| ==> IsWhitespace(s[j]))
  {
    var t := TrimStart(s);
    var r := TrimEnd(t);
    TrimStartSpec(s);
    TrimEndSpec(t);
    var a := |s| - |t|;
    var b := a + |r|;
    assert t == s[a..];
    assert r == s[a..b];
    assert forall j :: b <= j < |s| ==> IsWhitespace(s[j]) by {
      forall j | b <= j < |s|
        ensures IsWhitespace(s[j])
      {
        assert s[j] == t[j - a];
      }
    }
  }

  // ---------------------------------------------------------------------------
  // Words and lines
  // ---------------------------------------------------------------------------

  /** The end of the word starting at `i` (the first whitespace at or after it). */
  function WordEnd(s: string, i: nat): (r: nat)
    requires i <= |s|
    ensures i <= r <= |s|
    decreases |s| - i
  {
    if i == |s| || IsWhitespace(s[i]) then i else WordEnd(s, i + 1)
  }

  lemma {:induction false} WordEndSpec(s: string, i: nat)
    requires i <= |s|
    ensures forall j :: i <= j < WordEnd(s, i) ==> !IsWhitespace(s[j])
    ensures WordEnd(s, i) < |s| ==> IsWhitespace(s[WordEnd(s, i)])
    decreases |s| - i
  {
    if i < |s| && !IsWhitespace(s[i]) {
      WordEndSpec(s, i + 1);
    }
  }

  /** `str::split_whitespace`: the maximal non-whitespace runs, in order. */
  function SplitWhitespace(s: string): seq<string>
    decreases |s|
  {
    if |s| == 0 then []
    else if IsWhitespace(s[0]) then SplitWhitespace(s[1..])
    else
      var n := WordEnd(s, 0);
      [s[..n]] + SplitWhitespace(s[n..])
  }

  /** Every token `split_whitespace` yields is a non-empty run without
      whitespace. */
  lemma {:induction false} SplitWhitespaceWords(s: string)
    ensures forall k :: 0 <= k < |SplitWhitespace(s)| ==> Word(SplitWhitespace(s)[k])
    decreases |s|
  {
    if |s| > 0 {
      if IsWhitespace(s[0]) {
        SplitWhitespaceWords(s[1..]);
      } else {
        var n := WordEnd(s, 0);
        WordEndSpec(s, 0);
        SplitWhitespaceWords(s[n..]);
      }
    }
  }

  /** A word followed by whitespace (or nothing) is the first token. */
  lemma SplitWhitespaceWord(w: string, rest: string)
    requires Word(w)
    requires |rest| == 0 || IsWhitespace(rest[0])
    ensures SplitWhitespace(w + rest) == [w] + SplitWhitespace(rest)
  {
    var s := w + rest;
    assert s[0] == w[0];
    WordEndSpec(s, 0);
    var n := WordEnd(s, 0);
    assert forall j :: 0 <= j < |w| ==> s[j] == w[j];
    assert forall j :: 0 <= j < |w| ==> !IsWhitespace(s[j]);
    assert |rest| > 0 ==> s[|w|] == rest[0];
    assert n == |w|;
    assert s[..n] == w;
    assert s[n..] == rest;
  }

  lemma SplitWhitespaceBlank(rest: string)
    ensures SplitWhitespace(" " + rest) == SplitWhitespace(rest)
  {
    assert (" " + rest)[1..] == rest;
  }

  /** `[&str]::join(" ")`. */
  function JoinSpace(ws: seq<string>): string
  {
    if |ws| == 0 then "" else if |ws| == 1 then ws[0] else ws[0] + " " + JoinSpace(ws[1..])
  }

  /** Words joined by single blanks hold no line break. */
  lemma {:induction false} JoinSpaceNoCrLf(ws: seq<string>)
    requires forall k :: 0 <= k < |ws| ==> Word(ws[k])
    ensures NoCrLf(JoinSpace(ws))
  {
    if |ws| > 1 {
      JoinSpaceNoCrLf(ws[1..]);
      var t := JoinSpace(ws[1..]);
      var j := JoinSpace(ws);
      assert j == ws[0] + " " + t;
      assert Word(ws[0]);
      forall i | 0 <= i < |j|
        ensures j[i] != '\r' && j[i] != '\n'
      {
        if i < |ws[0]| {
          assert j[i] == ws[0][i];
          assert !IsWhitespace(ws[0][i]);
        } else if i > |ws[0]| {
          assert j[i] == t[i - |ws[0]| - 1];
        }
      }
    } else if |ws| == 1 {
      assert Word(ws[0]);
      assert JoinSpace(ws) == ws[0];
    }
  }

  /** Drops one trailing carriage return. */
  function StripCr(l: string): string
  {
    if |l| > 0 && l[|l| - 1] == '\r' then l[..|l| - 1] else l
  }

  /** `str::lines`: split at each `\n`, drop a `\r` that precedes it; no
      empty line after a final `\n`. */
  function Lines(s: string): seq<string>
    decreases |s|
  {
    if |s| == 0 then []
    else match IndexOf(s, '\n')
      case None => [s]
      case Some(i) => [StripCr(s[..i])] + Lines(s[i + 1..])
  }

  /** `lines` yields nothing exactly for the empty text. */
  lemma LinesEmpty(s: string)
    ensures |Lines(s)| == 0 <==> |s| == 0
  {
  }

  // ---------------------------------------------------------------------------
  // Unsigned integers
  // ---------------------------------------------------------------------------

  predicate IsDigit(c: char)
  {
    '0' <= c <= '9'
  }

  predicate AllDigits(s: string)
  {
    forall i :: 0 <= i < |s| ==> IsDigit(s[i])
  }

  function DigitChar(d: nat): char
    requires d < 10
  {
    ('0' as int + d) as char
  }

  /** `Display` for an unsigned integer: most significant digit first, no
      leading zero. */
  function Decimal(n: nat): string
  {
    if n < 10 then [DigitChar(n)] else Decimal(n / 10) + [DigitChar(n % 10)]
  }

  /** The number a string of decimal digits denotes. */
  function DigitsValue(d: string): nat
    requires AllDigits(d)
  {
    if |d| == 0 then 0 else DigitsValue(d[..|d| - 1]) * 10 + (d[|d| - 1] as int - '0' as int)
  }

  /** `FromStr` for an unsigned integer type whose values are below `limit`:
      an optional `+`, then one or more decimal digits, and no overflow. */
  function ParseUnsigned(s: string, limit: nat): (r: Option<nat>)
    ensures r.Some? ==> r.value < limit
  {
    var digits := if |s| > 0 && s[0] == '+' then s[1..] else s;
    if |digits| == 0 || !AllDigits(digits) then None
    else
      var v := DigitsValue(digits);
      if v < limit then Some(v) else None
  }

  /** Text holding something other than a digit after an optional `+`, or
      no digit at all, is not a number. */
  lemma ParseUnsignedRejects(s: string, limit: nat)
    requires |s| == 0 || (s[0] != '+' && !AllDigits(s)) || s == "+"
    ensures ParseUnsigned(s, limit).None?
  {
  }

  /** What `Display` prints is a word of ASCII digits denoting the number. */
  lemma {:induction false} DecimalDigits(n: nat)
    ensures |Decimal(n)| > 0 && AllDigits(Decimal(n)) && DigitsValue(Decimal(n)) == n
    ensures AsciiString(Decimal(n)) && Word(Decimal(n)) && NoCrLf(Decimal(n))
  {
    if n >= 10 {
      DecimalDigits(n / 10);
      var d := Decimal(n);
      assert d[..|d| - 1] == Decimal(n / 10);
    }
  }

  /** Parsing what `Display` printed gives the number back when it fits
      the type, and fails when it does not. */
  lemma DecimalRoundTrip(n: nat, limit: nat)
    ensures ParseUnsigned(Decimal(n), limit) == if n < limit then Some(n) else None
  {
    DecimalDigits(n);
  }

  // The values of a few digit strings, one lemma each so that every proof
  // unfolds `DigitsValue` on a single literal.

  lemma ValueOf70000()
    ensures AllDigits("70000") && DigitsValue("70000") == 70000
  {
    assert "70000"[..4] == "7000";
    assert "7000"[..3] == "700";
    assert "700"[..2] == "70";
    assert "70"[..1] == "7";
    assert "7"[..0] == "";
  }

  lemma ValueOf007()
    ensures AllDigits("007") && DigitsValue("007") == 7
  {
    assert "007"[..2] == "00";
    assert "00"[..1] == "0";
    assert "0"[..0] == "";
  }

  lemma ValueOf200()
    ensures AllDigits("200") && DigitsValue("200") == 200
  {
    assert "200"[..2] == "20";
    assert "20"[..1] == "2";
    assert "2"[..0] == "";
  }

  /** A string is accepted exactly when it is an optional `+` followed by
      one or more digits denoting a value that fits; the result is that
      value, leading zeros and all. */
  lemma ParseUnsignedSpec(s: string, limit: nat)
    ensures ParseUnsigned(s, limit).Some? <==>
      exists d :: (s == d || s == ['+'] + d) && |d| > 0 && AllDigits(d) && DigitsValue(d) < limit
    ensures forall d :: (s == d || s == ['+'] + d) && |d| > 0 && AllDigits(d) ==>
      ParseUnsigned(s, limit) == if DigitsValue(d) < limit then Some(DigitsValue(d)) else None
  {
    var digits := if |s| > 0 && s[0] == '+' then s[1..] else s;
    if |s| > 0 && s[0] == '+' {
      assert s == ['+'] + digits;
    }
    forall d | (s == d || s == ['+'] + d) && |d| > 0 && AllDigits(d)
      ensures d == digits
    {
      if s == ['+'] + d {
        assert s[1..] == d;
      }
    }
  }
}
