/** String helpers shared by the Python scripts and the catalogue page:
    whitespace stripping, ASCII case mapping, prefix and substring tests,
    the ordering used for sorting, and decimal rendering of indices. */
module Text {

  /** Python's `str.isspace`: what `strip()` removes. These are the ASCII
      controls tab to carriage return and the four separators U+001C to
      U+001F, the space, NEL, the no-break space, and the Unicode spaces and
      separators U+1680, U+2000 to U+200A, U+2028, U+2029, U+202F, U+205F
      and U+3000. */
  predicate IsSpace(c: char) {
    ('\t' <= c <= '\r') || ('\U{001C}' <= c <= ' ')
    || c == '\U{0085}' || c == '\U{00A0}' || c == '\U{1680}'
    || ('\U{2000}' <= c <= '\U{200A}') || c == '\U{2028}' || c == '\U{2029}'
    || c == '\U{202F}' || c == '\U{205F}' || c == '\U{3000}'
  }

  predicate AllSpace(s: string) {
    forall i :: 0 <= i < |s| ==> IsSpace(s[i])
  }

  /** Neither end of `s` is whitespace. */
  predicate Stripped(s: string) {
    |s| == 0 || (!IsSpace(s[0]) && !IsSpace(s[|s| - 1]))
  }

  /** `s.lstrip()`: `s` without its leading whitespace. */
  function StripStart(s: string): (r: string)
    ensures |r| <= |s|
  {
    if |s| > 0 && IsSpace(s[0]) then StripStart(s[1..]) else s
  }

  /** `s.rstrip()`: `s` without its trailing whitespace. */
  function StripEnd(s: string): (r: string)
    ensures |r| <= |s|
  {
    if |s| > 0 && IsSpace(s[|s| - 1]) then StripEnd(s[..|s| - 1]) else s
  }

  /** `lstrip()` leaves the suffix of `s` that follows its leading whitespace. */
  lemma {:induction false} StripStartSpec(s: string)
    ensures StripStart(s) == s[|s| - |StripStart(s)|..]
    ensures AllSpace(s[..|s| - |StripStart(s)|])
    ensures |StripStart(s)| == 0 || !IsSpace(StripStart(s)[0])
    decreases |s|
  {
    if |s| > 0 && IsSpace(s[0]) {
      StripStartSpec(s[1..]);
      var k := |s| - |StripStart(s)|;
      assert s[1..][k - 1..] == s[k..];
      assert forall i :: 0 < i < k ==> s[..k][i] == s[1..][..k - 1][i - 1];
    }
  }

  /** `rstrip()` leaves the prefix of `s` that precedes its trailing whitespace. */
  lemma {:induction false} StripEndSpec(s: string)
    ensures StripEnd(s) == s[..|StripEnd(s)|]
    ensures AllSpace(s[|StripEnd(s)|..])
    ensures |StripEnd(s)| == 0 || !IsSpace(StripEnd(s)[|StripEnd(s)| - 1])
    decreases |s|
  {
    if |s| > 0 && IsSpace(s[|s| - 1]) {
      StripEndSpec(s[..|s| - 1]);
      var k := |StripEnd(s)|;
      assert s[..|s| - 1][..k] == s[..k];
      assert forall m :: 0 <= m < |s| - 1 - k ==> s[k..][m] == s[..|s| - 1][k..][m];
    }
  }

  /** `s.strip()`: `s` without its leading and trailing whitespace. */
  function Strip(s: string): (r: string)
    ensures Stripped(r)
    ensures |r| <= |s|
  {
    var t := StripStart(s);
    var r := StripEnd(t);
    StripStartSpec(s);
    StripEndSpec(t);
    assert |r| > 0 ==> r[0] == t[0];
    r
  }

  /** `strip()` only removes whitespace: the input is whitespace, then the
      result, then whitespace. */
  lemma {:induction false} StripDecomposes(s: string)
    ensures var i := |s| - |StripStart(s)|;
      && i + |Strip(s)| <= |s|
      && s[i..i + |Strip(s)|] == Strip(s)
      && AllSpace(s[..i]) && AllSpace(s[i + |Strip(s)|..])
  {
    var t := StripStart(s);
    var r := StripEnd(t);
    var i := |s| - |t|;
    StripStartSpec(s);
    StripEndSpec(t);
    assert t == s[i..];
    assert r == t[..|r|];
    assert s[i..i + |r|] == t[..|r|];
    assert s[i + |r|..] == t[|r|..];
  }

  lemma {:induction false} StripStartOfPadded(w: string, t: string)
    requires AllSpace(w)
    requires |t| == 0 || !IsSpace(t[0])
    ensures StripStart(w + t) == t
    decreases |w|
  {
    if |w| > 0 {
      assert (w + t)[1..] == w[1..] + t;
      StripStartOfPadded(w[1..], t);
    } else {
      assert w + t == t;
    }
  }

  lemma {:induction false} StripEndOfPadded(t: string, w: string)
    requires AllSpace(w)
    requires |t| == 0 || !IsSpace(t[|t| - 1])
    ensures StripEnd(t + w) == t
    decreases |w|
  {
    if |w| > 0 {
      assert (t + w)[..|t + w| - 1] == t + w[..|w| - 1];
      StripEndOfPadded(t, w[..|w| - 1]);
    } else {
      assert t + w == t;
    }
  }

  /** Surrounding whitespace never reaches the result of `strip()`: stripping
      a stripped text padded with whitespace gives the text back. */
  lemma {:induction false} StripOfPadded(w1: string, p: string, w2: string)
    requires AllSpace(w1) && AllSpace(w2) && Stripped(p)
    ensures Strip(w1 + p + w2) == p
  {
    if |p| == 0 {
      assert w1 + p + w2 == w1 + w2;
      assert AllSpace(w1 + w2);
      assert w1 + w2 + [] == w1 + w2;
      StripStartOfPadded(w1 + w2, []);
    } else {
      assert w1 + p + w2 == w1 + (p + w2);
      StripStartOfPadded(w1, p + w2);
      StripEndOfPadded(p, w2);
    }
  }

  /** Stripping twice is stripping once. */
  lemma {:induction false} StripIdempotent(s: string)
    ensures Strip(Strip(s)) == Strip(s)
  {
    StripOfStripped(Strip(s));
  }

  /** A text with no whitespace at either end is its own strip. */
  lemma {:induction false} StripOfStripped(p: string)
    requires Stripped(p)
    ensures Strip(p) == p
  {
    assert StripStart(p) == p;
    assert StripEnd(p) == p;
  }

  function LowerChar(c: char): char {
    if 'A' <= c <= 'Z' then (c as int + 32) as char else c
  }

  function UpperChar(c: char): char {
    if 'a' <= c <= 'z' then (c as int - 32) as char else c
  }

  /** `s.lower()` / `s.toLowerCase()` on ASCII letters. */
  function Lower(s: string): (r: string)
    ensures |r| == |s|
    ensures forall i :: 0 <= i < |s| ==> r[i] == LowerChar(s[i])
  {
    seq(|s|, i requires 0 <= i < |s| => LowerChar(s[i]))
  }

  /** `s.upper()` / `s.toUpperCase()` on ASCII letters. */
  function Upper(s: string): (r: string)
    ensures |r| == |s|
    ensures forall i :: 0 <= i < |s| ==> r[i] == UpperChar(s[i])
  {
    seq(|s|, i requires 0 <= i < |s| => UpperChar(s[i]))
  }

  lemma {:induction false} LowerAppend(a: string, b: string)
    ensures Lower(a + b) == Lower(a) + Lower(b)
  {
    assert forall i :: 0 <= i < |a + b| ==> Lower(a + b)[i] == (Lower(a) + Lower(b))[i];
  }

  /** Whitespace is not a letter, so lower-casing keeps it where it is. */
  lemma {:induction false} LowerKeepsSpace(s: string)
    ensures AllSpace(Lower(s)) <==> AllSpace(s)
    ensures Stripped(Lower(s)) <==> Stripped(s)
  {
    assert forall i :: 0 <= i < |s| ==> (IsSpace(Lower(s)[i]) <==> IsSpace(s[i]));
  }

  /** The whitespace `strip()` removes on either side of its result. */
  lemma {:induction false} StripParts(s: string) returns (a: string, b: string)
    ensures AllSpace(a) && AllSpace(b)
    ensures s == a + Strip(s) + b
  {
    StripDecomposes(s);
    var i := |s| - |StripStart(s)|;
    a := s[..i];
    b := s[i + |Strip(s)|..];
    assert s == a + s[i..i + |Strip(s)|] + b;
  }

  /** Surrounding whitespace does not reach the result of `strip()`. */
  lemma {:induction false} StripIgnoresPadding(w1: string, s: string, w2: string)
    requires AllSpace(w1) && AllSpace(w2)
    ensures Strip(w1 + s + w2) == Strip(s)
  {
    var a, b := StripParts(s);
    var p := Strip(s);
    assert AllSpace(w1 + a) && AllSpace(b + w2);
    assert w1 + s + w2 == (w1 + a) + p + (b + w2);
    StripOfPadded(w1 + a, p, b + w2);
  }

  /** `s.strip().lower() == s.lower().strip()`. */
  lemma {:induction false} StripLower(s: string)
    ensures Strip(Lower(s)) == Lower(Strip(s))
  {
    var a, b := StripParts(s);
    var p := Strip(s);
    LowerAppend(a, p);
    LowerAppend(a + p, b);
    LowerKeepsSpace(a);
    LowerKeepsSpace(p);
    LowerKeepsSpace(b);
    StripOfPadded(Lower(a), Lower(p), Lower(b));
  }

  predicate StartsWith(s: string, prefix: string) {
    |prefix| <= |s| && s[..|prefix|] == prefix
  }

  /** JavaScript `s.includes(t)`: `t` occurs in `s` at some position. */
  predicate Contains(s: string, t: string)
    decreases |s|
  {
    StartsWith(s, t) || (|s| > 0 && Contains(s[1..], t))
  }

  /** Every text contains the empty text. */
  lemma {:induction false} ContainsEmpty(s: string)
    ensures Contains(s, "")
  {
    assert StartsWith(s, "");
  }

  /** JavaScript `s.split(sep)` for a one-character separator: the pieces
      between separators, empty ones included; there is always at least one. */
  function Split(s: string, sep: char): (ws: seq<string>)
    ensures |ws| > 0
    decreases |s|
  {
    if |s| == 0 then [""]
    else
      var rest := Split(s[1..], sep);
      if s[0] == sep then [""] + rest else [[s[0]] + rest[0]] + rest[1..]
  }

  /** JavaScript `ws.join(sep)`. */
  function Join(ws: seq<string>, sep: char): string
    decreases |ws|
  {
    if |ws| == 0 then "" else if |ws| == 1 then ws[0] else ws[0] + [sep] + Join(ws[1..], sep)
  }

  /** Text in front of the first piece stays in front of the joined text. */
  lemma {:induction false} JoinConsHead(a: string, b: string, ws: seq<string>, sep: char)
    ensures Join([a + b] + ws, sep) == a + Join([b] + ws, sep)
  {
    if |ws| > 0 {
      assert ([a + b] + ws)[1..] == ws;
      assert ([b] + ws)[1..] == ws;
    }
  }

  /** Joining the pieces of a split with the same separator gives back the text. */
  lemma {:induction false} JoinSplit(s: string, sep: char)
    ensures Join(Split(s, sep), sep) == s
    decreases |s|
  {
    if |s| > 0 {
      var rest := Split(s[1..], sep);
      JoinSplit(s[1..], sep);
      if s[0] == sep {
        assert ([""] + rest)[1..] == rest;
      } else {
        JoinConsHead([s[0]], rest[0], rest[1..], sep);
        assert [rest[0]] + rest[1..] == rest;
      }
      assert s == [s[0]] + s[1..];
    }
  }

  /** Code-point lexicographic comparison, -1, 0 or 1: the model of
      `localeCompare` and of the default order of `Array.prototype.sort()`. */
  function Compare(a: string, b: string): (r: int)
    ensures -1 <= r <= 1
    ensures r == 0 <==> a == b
  {
    if |a| == 0 then (if |b| == 0 then 0 else -1)
    else if |b| == 0 then 1
    else if a[0] < b[0] then -1
    else if b[0] < a[0] then 1
    else
      var r := Compare(a[1..], b[1..]);
      assert a == [a[0]] + a[1..] && b == [b[0]] + b[1..];
      r
  }

  /** Swapping the operands negates the comparison. */
  lemma {:induction false} CompareAntisymmetric(a: string, b: string)
    ensures Compare(b, a) == -Compare(a, b)
    decreases |a|
  {
    if |a| > 0 && |b| > 0 && a[0] == b[0] {
      CompareAntisymmetric(a[1..], b[1..]);
    }
  }

  /** "Not after" is transitive. */
  lemma {:induction false} CompareTransitive(a: string, b: string, c: string)
    requires Compare(a, b) <= 0 && Compare(b, c) <= 0
    ensures Compare(a, c) <= 0
    decreases |a|
  {
    if |a| > 0 && |b| > 0 && |c| > 0 && a[0] == b[0] && b[0] == c[0] {
      CompareTransitive(a[1..], b[1..], c[1..]);
    }
  }

  /** "Strictly before" is transitive. */
  lemma {:induction false} CompareStrictTransitive(a: string, b: string, c: string)
    requires Compare(a, b) < 0 && Compare(b, c) < 0
    ensures Compare(a, c) < 0
  {
    CompareTransitive(a, b, c);
    if a == c {
      CompareAntisymmetric(a, b);
    }
  }

  function DigitChar(d: nat): char
    requires d < 10
  {
    ('0' as int + d) as char
  }

  /** Decimal rendering of a non-negative integer, as in `${index}`. */
  function NatToString(n: nat): (r: string)
    ensures |r| > 0
    ensures forall i :: 0 <= i < |r| ==> '0' <= r[i] <= '9'
    ensures |r| > 1 ==> r[0] != '0'
  {
    if n < 10 then [DigitChar(n)] else NatToString(n / 10) + [DigitChar(n % 10)]
  }

  /** Reads decimal digits back; the inverse of `NatToString`. */
  function ParseDecimal(s: string): int
  {
    if |s| == 0 then 0 else ParseDecimal(s[..|s| - 1]) * 10 + (s[|s| - 1] as int - '0' as int)
  }

  lemma {:induction false} ParseNatToString(n: nat)
    ensures ParseDecimal(NatToString(n)) == n
  {
    if n >= 10 {
      var s := NatToString(n);
      assert s[..|s| - 1] == NatToString(n / 10);
      ParseNatToString(n / 10);
    }
  }

  /** Distinct indices render to distinct texts. */
  lemma {:induction false} NatToStringInjective(m: nat, n: nat)
    requires NatToString(m) == NatToString(n)
    ensures m == n
  {
    ParseNatToString(m);
    ParseNatToString(n);
  }
}
