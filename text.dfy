/**
 * Character-level helpers shared by the browser client and the Python server:
 * whitespace trimming (JavaScript's String.prototype.trim and Python's
 * str.strip, each with its own whitespace), JavaScript's UTF-16 string
 * length, joining (Python's str.join) and decimal rendering of status codes.
 */
module Text {

  /** Whose whitespace rules apply: JavaScript's `trim()` or Python's `str.strip()`. */
  datatype Lang = Js | Py

  /**
   * The characters JavaScript's `trim()` removes: the WhiteSpace and
   * LineTerminator code points of the ECMAScript grammar (ASCII tab, line
   * feed, vertical tab, form feed, carriage return and space, no-break
   * space, the byte order mark, the other space separators, and the line
   * and paragraph separators).
   */
  predicate JsSpace(c: char) {
    || ('\t' <= c <= '\r') || c == ' '
    || c == '\U{A0}' || c == '\U{1680}' || ('\U{2000}' <= c <= '\U{200A}')
    || c == '\U{2028}' || c == '\U{2029}' || c == '\U{202F}' || c == '\U{205F}' || c == '\U{3000}'
    || c == '\U{FEFF}'
  }

  /**
   * The characters Python's `str.strip()` removes (`str.isspace`): the same
   * as JavaScript's except the byte order mark, plus the four information
   * separators U+001C to U+001F and NEXT LINE U+0085.
   */
  predicate PySpace(c: char) {
    || ('\t' <= c <= '\r') || ('\U{1C}' <= c <= '\U{1F}') || c == ' '
    || c == '\U{85}' || c == '\U{A0}' || c == '\U{1680}' || ('\U{2000}' <= c <= '\U{200A}')
    || c == '\U{2028}' || c == '\U{2029}' || c == '\U{202F}' || c == '\U{205F}' || c == '\U{3000}'
  }

  predicate IsSpace(lang: Lang, c: char) {
    match lang
    case Js => JsSpace(c)
    case Py => PySpace(c)
  }

  /** Whitespace to Python that JavaScript keeps. */
  predicate PyOnlySpace(c: char) {
    PySpace(c) && !JsSpace(c)
  }

  /** Every character of s is whitespace (so s trims to the empty string). */
  predicate Blank(lang: Lang, s: string) {
    forall i | 0 <= i < |s| :: IsSpace(lang, s[i])
  }

  /** Removes the leading whitespace: what is left does not start with a blank. */
  function TrimStart(lang: Lang, s: string): (r: string)
    ensures |r| <= |s|
    ensures r != [] ==> !IsSpace(lang, r[0])
  {
    if s != [] && IsSpace(lang, s[0]) then TrimStart(lang, s[1..]) else s
  }

  /** What TrimStart removes is a blank prefix: the result is the rest of s. */
  lemma {:induction false} TrimStartDrops(lang: Lang, s: string)
    ensures var r := TrimStart(lang, s); r == s[|s| - |r|..] && Blank(lang, s[..|s| - |r|])
  {
    if s != [] && IsSpace(lang, s[0]) {
      TrimStartDrops(lang, s[1..]);
      var r := TrimStart(lang, s[1..]);
      assert s[1..][..|s| - 1 - |r|] == s[1..|s| - |r|];
    }
  }

  /** Removes the trailing whitespace: what is left does not end with a blank. */
  function TrimEnd(lang: Lang, s: string): (r: string)
    ensures |r| <= |s|
    ensures r != [] ==> !IsSpace(lang, r[|r| - 1])
  {
    if s != [] && IsSpace(lang, s[|s| - 1]) then TrimEnd(lang, s[..|s| - 1]) else s
  }

  /** What TrimEnd removes is a blank suffix: the result is the start of s. */
  lemma {:induction false} TrimEndDrops(lang: Lang, s: string)
    ensures var r := TrimEnd(lang, s); r == s[..|r|] && Blank(lang, s[|r|..])
  {
    if s != [] && IsSpace(lang, s[|s| - 1]) {
      var init := s[..|s| - 1];
      TrimEndDrops(lang, init);
      var r := TrimEnd(lang, init);
      assert r == s[..|r|];
      forall j | 0 <= j < |s| - |r| ensures IsSpace(lang, s[|r|..][j]) {
        if j < |s| - 1 - |r| {
          assert s[|r|..][j] == init[|r|..][j];
        }
      }
    }
  }

  /** Both ends trimmed: `s.trim()` in JavaScript, `s.strip()` in Python. Never longer, no blank at either end. */
  function Trim(lang: Lang, s: string): (r: string)
    ensures |r| <= |s|
    ensures r != [] ==> !IsSpace(lang, r[0]) && !IsSpace(lang, r[|r| - 1])
  {
    var t := TrimStart(lang, s);
    TrimEndDrops(lang, t);
    TrimEnd(lang, t)
  }

  /** Trim(s) is the infix of s left after removing a blank prefix and a blank suffix. */
  lemma TrimBounds(lang: Lang, s: string)
    ensures var r := Trim(lang, s);
      exists i :: 0 <= i <= |s| - |r| && r == s[i..i + |r|] && Blank(lang, s[..i]) && Blank(lang, s[i + |r|..])
  {
    var t := TrimStart(lang, s);
    var r := TrimEnd(lang, t);
    var i := |s| - |t|;
    TrimStartDrops(lang, s);
    TrimEndDrops(lang, t);
    assert r == s[i..i + |r|];
    assert s[i + |r|..] == t[|r|..];
  }

  /** A string trims to nothing exactly when it is blank. */
  lemma TrimEmptyIffBlank(lang: Lang, s: string)
    ensures Trim(lang, s) == [] <==> Blank(lang, s)
  {
    var t := TrimStart(lang, s);
    TrimStartDrops(lang, s);
    TrimEndDrops(lang, t);
    if Trim(lang, s) == [] {
      assert t[0..] == t;
      assert s == s[..|s| - |t|] + t;
      BlankConcat(lang, s[..|s| - |t|], t);
    }
    if Blank(lang, s) {
      BlankTrimStart(lang, s);
    }
  }

  /** A blank string loses every character to TrimStart. */
  lemma {:induction false} BlankTrimStart(lang: Lang, s: string)
    requires Blank(lang, s)
    ensures TrimStart(lang, s) == []
  {
    if s != [] {
      assert IsSpace(lang, s[0]);
      assert forall i | 0 <= i < |s[1..]| :: s[1..][i] == s[i + 1];
      BlankTrimStart(lang, s[1..]);
    }
  }

  /** Trimming leaves s as it is exactly when s neither starts nor ends with whitespace. */
  lemma TrimUnchanged(lang: Lang, s: string)
    ensures Trim(lang, s) == s <==> s == [] || (!IsSpace(lang, s[0]) && !IsSpace(lang, s[|s| - 1]))
  {
    if s != [] && !IsSpace(lang, s[0]) && !IsSpace(lang, s[|s| - 1]) {
      assert TrimStart(lang, s) == s;
    }
  }

  /** Trimming twice is trimming once. */
  lemma TrimIdempotent(lang: Lang, s: string)
    ensures Trim(lang, Trim(lang, s)) == Trim(lang, s)
  {
    TrimUnchanged(lang, Trim(lang, s));
  }

  /** Python's `sep.join(parts)`: the parts in order with sep between neighbours. */
  function Join(parts: seq<string>, sep: string): (r: string)
    ensures parts == [] ==> r == []
    ensures parts != [] ==> parts[0] <= r
    ensures |parts| == 1 ==> r == parts[0]
  {
    if |parts| == 0 then []
    else if |parts| == 1 then parts[0]
    else parts[0] + sep + Join(parts[1..], sep)
  }

  /** With a blank separator, the join is blank exactly when every part is. */
  lemma {:induction false} JoinBlankIff(lang: Lang, parts: seq<string>, sep: string)
    requires Blank(lang, sep)
    ensures Blank(lang, Join(parts, sep)) <==> forall i | 0 <= i < |parts| :: Blank(lang, parts[i])
  {
    if |parts| > 1 {
      JoinBlankIff(lang, parts[1..], sep);
      var rest := Join(parts[1..], sep);
      BlankConcat(lang, parts[0], sep + rest);
      BlankConcat(lang, sep, rest);
      assert parts[0] + sep + rest == parts[0] + (sep + rest);
      if forall i | 0 <= i < |parts[1..]| :: Blank(lang, parts[1..][i]) {
        if Blank(lang, parts[0]) {
          forall i | 0 <= i < |parts| ensures Blank(lang, parts[i]) {
            if i > 0 { assert parts[i] == parts[1..][i - 1]; }
          }
        }
      }
      if forall i | 0 <= i < |parts| :: Blank(lang, parts[i]) {
        forall i | 0 <= i < |parts[1..]| ensures Blank(lang, parts[1..][i]) {
          assert parts[1..][i] == parts[i + 1];
        }
      }
    }
  }

  /** A concatenation is blank exactly when both halves are. */
  lemma BlankConcat(lang: Lang, a: string, b: string)
    ensures Blank(lang, a + b) <==> Blank(lang, a) && Blank(lang, b)
  {
    if Blank(lang, a + b) {
      forall i | 0 <= i < |a| ensures IsSpace(lang, a[i]) {
        assert a[i] == (a + b)[i];
      }
      forall i | 0 <= i < |b| ensures IsSpace(lang, b[i]) {
        assert b[i] == (a + b)[|a| + i];
      }
    }
  }

  /** The UTF-16 code units JavaScript stores for c: two (a surrogate pair) beyond U+FFFF. */
  function Utf16Units(c: char): nat
  {
    if c as int < 0x10000 then 1 else 2
  }

  /**
   * JavaScript's `s.length`: UTF-16 code units, between one and two per
   * character; exactly one per character when none lies beyond U+FFFF, two
   * when all do.
   */
  function Utf16Length(s: string): (n: nat)
    ensures |s| <= n <= 2 * |s|
    ensures (forall i | 0 <= i < |s| :: s[i] as int < 0x10000) ==> n == |s|
    ensures (forall i | 0 <= i < |s| :: s[i] as int >= 0x10000) ==> n == 2 * |s|
  {
    if s == [] then 0
    else
      assert forall i | 0 <= i < |s[1..]| :: s[1..][i] == s[i + 1];
      Utf16Units(s[0]) + Utf16Length(s[1..])
  }

  /**
   * The longest prefix of s whose JavaScript length is at most limit: a
   * prefix within the limit, all of s when s fits, and otherwise one whose
   * next character would not fit.
   */
  function Utf16Prefix(s: string, limit: nat): (r: string)
    ensures r <= s && Utf16Length(r) <= limit
    ensures Utf16Length(s) <= limit ==> r == s
    ensures r != s ==> Utf16Length(r) + Utf16Units(s[|r|]) > limit
  {
    if s == [] || Utf16Units(s[0]) > limit then []
    else
      var rest := Utf16Prefix(s[1..], limit - Utf16Units(s[0]));
      assert ([s[0]] + rest)[1..] == rest;
      [s[0]] + rest
  }

  /** The decimal digit for d < 10. */
  function DigitChar(d: nat): (c: char)
    requires d < 10
    ensures '0' <= c <= '9' && c as int - '0' as int == d
  {
    ('0' as int + d) as char
  }

  predicate IsDigits(s: string) {
    forall i | 0 <= i < |s| :: '0' <= s[i] <= '9'
  }

  /** JavaScript's `${n}` for a non-negative integer: its decimal digits, most significant first. */
  function NatToString(n: nat): (r: string)
    ensures r != [] && IsDigits(r)
    ensures n > 0 ==> r[0] != '0'
  {
    if n < 10 then [DigitChar(n)] else NatToString(n / 10) + [DigitChar(n % 10)]
  }

  /** The number a string of decimal digits denotes. */
  function DecimalValue(s: string): nat
    requires IsDigits(s)
  {
    if s == [] then 0
    else DecimalValue(s[..|s| - 1]) * 10 + (s[|s| - 1] as int - '0' as int)
  }

  /** Reading the decimal rendering back gives the number: the rendering loses nothing. */
  lemma {:induction false} DecimalRoundTrip(n: nat)
    ensures DecimalValue(NatToString(n)) == n
  {
    if n >= 10 {
      DecimalRoundTrip(n / 10);
      var s := NatToString(n);
      assert s[..|s| - 1] == NatToString(n / 10);
    }
  }

  /** Distinct numbers render differently. */
  lemma NatToStringInjective(m: nat, n: nat)
    requires NatToString(m) == NatToString(n)
    ensures m == n
  {
    DecimalRoundTrip(m);
    DecimalRoundTrip(n);
  }
}
