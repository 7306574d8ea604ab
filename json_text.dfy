/**
 * The text form in which the server stores keyword lists: json.dumps of a
 * list of strings (default separators, ensure_ascii) and json.loads of that
 * text, with the round trip proved.
 */
module JsonText {
  import opened Wrappers
  import Text

  /** Lower-case hexadecimal digit for d < 16, as Python's escapes write it. */
  function HexDigit(d: nat): (c: char)
    requires d < 16
    ensures IsHex(c) && HexValue(c) == d
  {
    if d < 10 then ('0' as int + d) as char else ('a' as int + d - 10) as char
  }

  predicate IsHex(c: char) {
    ('0' <= c <= '9') || ('a' <= c <= 'f') || ('A' <= c <= 'F')
  }

  predicate AllHex(s: string) {
    forall i | 0 <= i < |s| :: IsHex(s[i])
  }

  function HexValue(c: char): (d: nat)
    requires IsHex(c)
    ensures d < 16
  {
    if '0' <= c <= '9' then c as int - '0' as int
    else if 'a' <= c <= 'f' then c as int - 'a' as int + 10
    else c as int - 'A' as int + 10
  }

  /** Four hex digits for a 16-bit code unit. */
  function Hex4(v: nat): (h: string)
    requires v < 0x10000
    ensures |h| == 4 && AllHex(h)
  {
    [HexDigit(v / 4096), HexDigit(v / 256 % 16), HexDigit(v / 16 % 16), HexDigit(v % 16)]
  }

  /** The 16-bit value of four hex digits. */
  function Hex4Value(h: string): (v: nat)
    requires |h| == 4 && AllHex(h)
    ensures v < 0x10000
  {
    HexValue(h[0]) * 4096 + HexValue(h[1]) * 256 + HexValue(h[2]) * 16 + HexValue(h[3])
  }

  lemma Hex4RoundTrip(v: nat)
    requires v < 0x10000
    ensures Hex4Value(Hex4(v)) == v
  {
    var h := Hex4(v);
    assert HexValue(h[0]) == v / 4096 && HexValue(h[1]) == v / 256 % 16;
    assert HexValue(h[2]) == v / 16 % 16 && HexValue(h[3]) == v % 16;
    assert v / 256 == v / 4096 * 16 + v / 256 % 16;
    assert v / 16 == v / 256 * 16 + v / 16 % 16;
    assert v == v / 16 * 16 + v % 16;
  }

  /** `\uXXXX`. */
  function UEscape(v: nat): (e: string)
    requires v < 0x10000
    ensures |e| == 6 && e[0] == '\\' && e[1] == 'u' && e[2..] == Hex4(v)
  {
    "\\u" + Hex4(v)
  }

  predicate IsPrintableAscii(c: char) {
    ' ' <= c <= '~'
  }

  /**
   * How json.dumps writes one character inside a string literal: a
   * two-character escape for the quote, the backslash and five control
   * characters, the character itself when it is printable ASCII, and
   * otherwise `\uXXXX` (a surrogate pair beyond the 16-bit range).
   */
  function EscapeChar(c: char): (e: string)
    ensures forall i | 0 <= i < |e| :: IsPrintableAscii(e[i])
  {
    if c == '"' then "\\\""
    else if c == '\\' then "\\\\"
    else if c == '\n' then "\\n"
    else if c == '\r' then "\\r"
    else if c == '\t' then "\\t"
    else if c == '\U{8}' then "\\b"
    else if c == '\U{C}' then "\\f"
    else if IsPrintableAscii(c) then [c]
    else if c as int < 0x10000 then UEscape(c as int)
    else
      var n := c as int - 0x10000;
      UEscape(0xD800 + n / 1024) + UEscape(0xDC00 + n % 1024)
  }

  /** The body of a string literal: each character escaped, in order. */
  function EscapeString(s: string): (e: string)
    ensures forall i | 0 <= i < |e| :: IsPrintableAscii(e[i])
  {
    if s == [] then [] else EscapeChar(s[0]) + EscapeString(s[1..])
  }

  /** A JSON string literal. */
  function Quote(s: string): string
  {
    "\"" + EscapeString(s) + "\""
  }

  function QuoteAll(xs: seq<string>): (qs: seq<string>)
    ensures |qs| == |xs| && forall i | 0 <= i < |xs| :: qs[i] == Quote(xs[i])
  {
    if xs == [] then [] else [Quote(xs[0])] + QuoteAll(xs[1..])
  }

  /** `json.dumps(xs)` for a list of strings: `["a", "b"]`, pure ASCII. */
  function EncodeList(xs: seq<string>): (e: string)
    ensures |e| >= 2 && e[0] == '[' && e[|e| - 1] == ']'
    ensures e == "[]" <==> xs == []
  {
    var qs := QuoteAll(xs);
    assert qs != [] ==> qs[0][0] == '"';
    "[" + Text.Join(qs, ", ") + "]"
  }

  /** The character a backslash followed by c stands for, when c makes a one-letter escape. */
  function ShortEscape(c: char): Option<char>
  {
    if c == '"' then Some('"')
    else if c == '\\' then Some('\\')
    else if c == '/' then Some('/')
    else if c == 'b' then Some('\U{8}')
    else if c == 'f' then Some('\U{C}')
    else if c == 'n' then Some('\n')
    else if c == 'r' then Some('\r')
    else if c == 't' then Some('\t')
    else None
  }

  /** Puts c in front of a decoded string body, keeping what follows it. */
  function Prepend(c: char, r: Option<(string, string)>): (r': Option<(string, string)>)
    ensures r'.Some? <==> r.Some?
    ensures r.Some? ==> r'.value == ([c] + r.value.0, r.value.1)
  {
    match r
    case None => None
    case Some((v, rest)) => Some(([c] + v, rest))
  }

  /**
   * json.loads' reading of a string literal after its opening quote: the
   * decoded characters up to the closing quote, and the text after that quote.
   * Raw control characters, unknown escapes and unpaired surrogates are errors.
   */
  function DecodeBody(s: string): (r: Option<(string, string)>)
    ensures r.Some? ==> |r.value.1| < |s|
    decreases |s|
  {
    if s == [] then None
    else if s[0] == '"' then Some(([], s[1..]))
    else if s[0] == '\\' then
      if |s| >= 2 && ShortEscape(s[1]).Some? then
        Prepend(ShortEscape(s[1]).value, DecodeBody(s[2..]))
      else if |s| >= 6 && s[1] == 'u' && AllHex(s[2..6]) then
        var hi := Hex4Value(s[2..6]);
        if hi < 0xD800 || 0xE000 <= hi then
          Prepend(hi as char, DecodeBody(s[6..]))
        else if hi < 0xDC00 && |s| >= 12 && s[6] == '\\' && s[7] == 'u' && AllHex(s[8..12])
                && 0xDC00 <= Hex4Value(s[8..12]) then
          var lo := Hex4Value(s[8..12]);
          if lo < 0xE000 then
            Prepend((0x10000 + (hi - 0xD800) * 1024 + (lo - 0xDC00)) as char, DecodeBody(s[12..]))
          else None
        else None
      else None
    else if s[0] < ' ' then None
    else Prepend(s[0], DecodeBody(s[1..]))
  }

  /** `json.loads(text)` for the list-of-strings layout json.dumps writes. */
  function DecodeList(s: string): (r: Option<seq<string>>)
    ensures r.Some? ==> |s| >= 2 && s[0] == '['
    ensures r == Some([]) <==> s == "[]"
  {
    if |s| == 2 && s[0] == '[' && s[1] == ']' then Some([])
    else if |s| >= 1 && s[0] == '[' then DecodeItems(s[1..])
    else None
  }

  /** The items of a list after its `[`: string literals separated by `, ` and closed by `]`. */
  function DecodeItems(s: string): (r: Option<seq<string>>)
    ensures r.Some? ==> s != [] && s[0] == '"' && r.value != []
    decreases |s|
  {
    if s == [] || s[0] != '"' then None
    else
      match DecodeBody(s[1..])
      case None => None
      case Some((v, rest)) =>
        if rest == "]" then Some([v])
        else if |rest| >= 2 && rest[0] == ',' && rest[1] == ' ' then
          match DecodeItems(rest[2..])
          case None => None
          case Some(vs) => Some([v] + vs)
        else None
  }

  /** Two escaped surrogate halves decode to the one character they encode. */
  lemma DecodeEscapedPair(hi: nat, lo: nat, tail: string)
    requires 0xD800 <= hi < 0xDC00 && 0xDC00 <= lo < 0xE000
    ensures DecodeBody(UEscape(hi) + UEscape(lo) + tail) ==
              Prepend((0x10000 + (hi - 0xD800) * 1024 + (lo - 0xDC00)) as char, DecodeBody(tail))
  {
    var s := UEscape(hi) + UEscape(lo) + tail;
    assert s[2..6] == Hex4(hi) && s[8..12] == Hex4(lo);
    assert s[0] == '\\' && s[1] == 'u' && s[6] == '\\' && s[7] == 'u';
    assert s[12..] == tail;
    Hex4RoundTrip(hi);
    Hex4RoundTrip(lo);
  }

  /** A character beyond the 16-bit range survives its surrogate-pair escape. */
  lemma DecodeSurrogatePair(c: char, tail: string)
    requires c as int >= 0x10000
    ensures DecodeBody(EscapeChar(c) + tail) == Prepend(c, DecodeBody(tail))
  {
    var n := c as int - 0x10000;
    var hi, lo := 0xD800 + n / 1024, 0xDC00 + n % 1024;
    assert EscapeChar(c) + tail == UEscape(hi) + UEscape(lo) + tail;
    DecodeEscapedPair(hi, lo, tail);
    assert 0x10000 + (hi - 0xD800) * 1024 + (lo - 0xDC00) == c as int;
  }

  /** Decoding an escaped character gives back the character and carries on after it. */
  lemma DecodeEscapedChar(c: char, tail: string)
    ensures DecodeBody(EscapeChar(c) + tail) == Prepend(c, DecodeBody(tail))
  {
    var s := EscapeChar(c) + tail;
    if c == '"' || c == '\\' || c == '\n' || c == '\r' || c == '\t' || c == '\U{8}' || c == '\U{C}' {
      assert |EscapeChar(c)| == 2 && s[2..] == tail;
    } else if IsPrintableAscii(c) {
      assert s[1..] == tail;
    } else if c as int < 0x10000 {
      assert s[2..6] == Hex4(c as int) && s[6..] == tail;
      Hex4RoundTrip(c as int);
    } else {
      DecodeSurrogatePair(c, tail);
    }
  }

  /** A string body followed by its closing quote decodes to the string, leaving what follows. */
  lemma {:induction false} DecodeEscaped(x: string, tail: string)
    ensures DecodeBody(EscapeString(x) + "\"" + tail) == Some((x, tail))
  {
    if x == [] {
      assert EscapeString(x) + "\"" + tail == "\"" + tail;
    } else {
      var t := EscapeString(x[1..]) + "\"" + tail;
      assert EscapeString(x) + "\"" + tail == EscapeChar(x[0]) + t;
      DecodeEscapedChar(x[0], t);
      DecodeEscaped(x[1..], tail);
      assert [x[0]] + x[1..] == x;
    }
  }

  /** The last item literal, closed by `]`. */
  lemma DecodeLastItem(x: string)
    ensures DecodeItems(Quote(x) + "]") == Some([x])
  {
    var body := EscapeString(x) + "\"" + "]";
    var s := Quote(x) + "]";
    assert s == "\"" + body;
    assert s[0] == '"' && s[1..] == body;
    DecodeEscaped(x, "]");
  }

  /** An item literal followed by `, ` and the remaining items. */
  lemma DecodeNextItem(x: string, rest: string, xs: seq<string>)
    requires DecodeItems(rest) == Some(xs)
    ensures DecodeItems(Quote(x) + ", " + rest) == Some([x] + xs)
  {
    var tail := ", " + rest;
    var body := EscapeString(x) + "\"" + tail;
    var s := Quote(x) + ", " + rest;
    assert s == "\"" + body;
    assert s[0] == '"' && s[1..] == body;
    DecodeEscaped(x, tail);
    assert tail != "]" && tail[0] == ',' && tail[1] == ' ' && tail[2..] == rest;
  }

  lemma {:induction false} DecodeItemsJoin(xs: seq<string>)
    requires xs != []
    ensures DecodeItems(Text.Join(QuoteAll(xs), ", ") + "]") == Some(xs)
  {
    var q := QuoteAll(xs);
    if |xs| == 1 {
      assert Text.Join(q, ", ") + "]" == Quote(xs[0]) + "]";
      DecodeLastItem(xs[0]);
      assert xs == [xs[0]];
    } else {
      var rest := Text.Join(q[1..], ", ") + "]";
      assert Text.Join(q, ", ") + "]" == Quote(xs[0]) + ", " + rest;
      assert q[1..] == QuoteAll(xs[1..]);
      DecodeItemsJoin(xs[1..]);
      DecodeNextItem(xs[0], rest, xs[1..]);
      assert [xs[0]] + xs[1..] == xs;
    }
  }

  /** json.loads(json.dumps(xs)) == xs for every list of strings. */
  lemma DecodeEncode(xs: seq<string>)
    ensures DecodeList(EncodeList(xs)) == Some(xs)
  {
    if xs != [] {
      var s := EncodeList(xs);
      assert s[1..] == Text.Join(QuoteAll(xs), ", ") + "]";
      DecodeItemsJoin(xs);
      assert s[1] == '"';
    } else {
      assert EncodeList(xs) == "[]";
    }
  }

  /** Different lists are stored as different texts. */
  lemma EncodeInjective(xs: seq<string>, ys: seq<string>)
    requires EncodeList(xs) == EncodeList(ys)
    ensures xs == ys
  {
    DecodeEncode(xs);
    DecodeEncode(ys);
  }
}
