/** String helpers that stand in for the PHP built-ins the connector relies on. */
module Strings {
  import opened Wrappers

  /** PHP `empty()` on a string: the empty string and "0" count as empty. */
  predicate PhpEmpty(s: string) {
    s == "" || s == "0"
  }

  /** ASCII lower-casing of one character, as `strtolower` does in the C locale. */
  function LowerChar(c: char): (r: char)
    ensures 'A' <= c <= 'Z' ==> 'a' <= r <= 'z'
    ensures !('A' <= c <= 'Z') ==> r == c
  {
    if 'A' <= c <= 'Z' then (c as int - 'A' as int + 'a' as int) as char else c
  }

  function ToLower(s: string): (r: string)
    ensures |r| == |s|
    ensures forall i :: 0 <= i < |s| ==> r[i] == LowerChar(s[i])
  {
    if s == [] then [] else [LowerChar(s[0])] + ToLower(s[1..])
  }

  /** `s` with every character of `cs` removed, as `str_replace(array(...), '', s)`. */
  function RemoveChars(s: string, cs: set<char>): (r: string)
    ensures |r| <= |s|
    ensures forall c :: c in r <==> c in s && c !in cs
  {
    if s == [] then []
    else if s[0] in cs then RemoveChars(s[1..], cs)
    else [s[0]] + RemoveChars(s[1..], cs)
  }

  /** Position of the first occurrence of `c` in `s`. */
  function IndexOf(s: string, c: char): (r: Option<nat>)
    ensures r.None? <==> c !in s
    ensures r.Some? ==> r.value < |s| && s[r.value] == c && c !in s[..r.value]
  {
    if s == [] then None
    else if s[0] == c then Some(0)
    else match IndexOf(s[1..], c)
      case None => None
      case Some(k) => assert s[..k + 1] == [s[0]] + s[1..][..k]; Some(k + 1)
  }

  // ---- decimal digits ----

  predicate IsDigit(c: char) { '0' <= c <= '9' }

  predicate IsDigits(s: string) {
    forall i :: 0 <= i < |s| ==> IsDigit(s[i])
  }

  function DigitChar(d: nat): (c: char)
    requires d < 10
    ensures IsDigit(c)
  {
    ('0' as int + d) as char
  }

  function DigitValue(c: char): nat
    requires IsDigit(c)
  {
    c as int - '0' as int
  }

  /** Decimal rendering of a natural number without leading zeros, as `%d`. */
  function DecimalString(n: nat): (s: string)
    decreases n
  {
    if n < 10 then [DigitChar(n)] else DecimalString(n / 10) + [DigitChar(n % 10)]
  }

  function ParseDecimal(s: string): nat
    requires IsDigits(s)
  {
    if s == [] then 0 else ParseDecimal(s[..|s| - 1]) * 10 + DigitValue(s[|s| - 1])
  }

  /** Rendering then parsing a natural number gives it back; two digits exactly for 10..99. */
  lemma {:induction false} DecimalRoundTrip(n: nat)
    ensures IsDigits(DecimalString(n))
    ensures ParseDecimal(DecimalString(n)) == n
    ensures n < 10 ==> |DecimalString(n)| == 1
    ensures 10 <= n < 100 ==> |DecimalString(n)| == 2
    ensures 10 <= n ==> |DecimalString(n)| >= 2
    decreases n
  {
    if n >= 10 {
      DecimalRoundTrip(n / 10);
      var s := DecimalString(n);
      assert s[..|s| - 1] == DecimalString(n / 10);
    }
  }

  /** `sprintf('%02d', n)`: at least two digits, zero padded. */
  function Pad2(n: nat): (s: string)
    ensures IsDigits(s) && |s| >= 2 && ParseDecimal(s) == n
    ensures n < 100 ==> |s| == 2
  {
    DecimalRoundTrip(n);
    if n < 10 then
      var s := "0" + DecimalString(n);
      assert s[..1] == "0";
      s
    else DecimalString(n)
  }

  /** The escape `htmlspecialchars` writes for one character (ENT_COMPAT: single quotes stay). */
  function Escape(c: char): (r: string)
    ensures |r| >= 1 && (c != '&' && c != '"' && c != '<' && c != '>' <==> r == [c])
  {
    if c == '&' then "&amp;"
    else if c == '"' then "&quot;"
    else if c == '<' then "&lt;"
    else if c == '>' then "&gt;"
    else [c]
  }

  /** PHP `htmlspecialchars` with its default ENT_COMPAT flags. */
  function HtmlEscape(s: string): (r: string)
    ensures |r| >= |s|
  {
    if s == [] then [] else Escape(s[0]) + HtmlEscape(s[1..])
  }

  // ---- character references ----

  /** A digit of base 10, or of base 16 in either case when `hex`. */
  predicate IsRadixDigit(c: char, hex: bool) {
    IsDigit(c) || (hex && ('a' <= c <= 'f' || 'A' <= c <= 'F'))
  }

  function RadixValue(c: char, hex: bool): nat
    requires IsRadixDigit(c, hex)
  {
    if IsDigit(c) then DigitValue(c)
    else if 'a' <= c <= 'f' then c as int - 'a' as int + 10
    else c as int - 'A' as int + 10
  }

  /** The number of digits at the head of `s`: how far `strtol` reads. */
  function DigitRun(s: string, hex: bool): (n: nat)
    ensures n <= |s|
  {
    if s != [] && IsRadixDigit(s[0], hex) then 1 + DigitRun(s[1..], hex) else 0
  }

  /** The run of digits at the head of `s` holds digits only. */
  lemma {:induction false} DigitRunDigits(s: string, hex: bool)
    ensures forall i :: 0 <= i < DigitRun(s, hex) ==> IsRadixDigit(s[i], hex)
  {
    if s != [] && IsRadixDigit(s[0], hex) {
      DigitRunDigits(s[1..], hex);
      forall i | 0 <= i < DigitRun(s, hex) ensures IsRadixDigit(s[i], hex) {
        if i > 0 { assert s[i] == s[1..][i - 1]; }
      }
    }
  }

  /** The digits at the head of `s`. */
  function DigitsAt(s: string, hex: bool): (d: string)
    ensures |d| == DigitRun(s, hex) && d <= s
    ensures forall i :: 0 <= i < |d| ==> IsRadixDigit(d[i], hex)
  {
    DigitRunDigits(s, hex);
    s[..DigitRun(s, hex)]
  }

  /** The value of a run of digits, most significant first. */
  function RadixNumber(s: string, hex: bool): nat
    requires forall i :: 0 <= i < |s| ==> IsRadixDigit(s[i], hex)
  {
    if s == [] then 0
    else RadixNumber(s[..|s| - 1], hex) * (if hex then 16 else 10) + RadixValue(s[|s| - 1], hex)
  }

  /** The characters a numeric reference may stand for under ENT_COMPAT: `"`, `&`, `<` and `>`.
      The single quote (39) is not among them. */
  function SpecialOfCode(code: nat): (r: Option<char>)
    ensures r.Some? ==> r.value in {'"', '&', '<', '>'}
    ensures code == 39 ==> r.None?
  {
    if code == 34 then Some('"')
    else if code == 38 then Some('&')
    else if code == 60 then Some('<')
    else if code == 62 then Some('>')
    else None
  }

  /** The numeric reference that `s`, the text after "&#", starts with: decimal digits, or `x`
      or `X` and hexadecimal digits (after which `strtol` also skips a "0x" prefix), then `;`.
      The result is the character and the length of `s` it takes, or `None` when the reference
      is malformed or stands for a character that stays encoded. */
  function NumericRef(s: string): (r: Option<(char, nat)>)
    ensures r.Some? ==> 2 <= r.value.1 <= |s|
  {
    var hex := s != [] && (s[0] == 'x' || s[0] == 'X');
    var start := if !hex then 0
                 else if |s| >= 4 && s[1] == '0' && (s[2] == 'x' || s[2] == 'X') && IsRadixDigit(s[3], true) then 3
                 else 1;
    var digits := DigitsAt(s[start..], hex);
    var n := |digits|;
    if n == 0 || start + n == |s| || s[start + n] != ';' then None
    else
      match SpecialOfCode(RadixNumber(digits, hex))
      case None => None
      case Some(c) => Some((c, start + n + 1))
  }

  /** The named reference that `s`, the text after "&", starts with: `amp;`, `quot;`, `lt;` or
      `gt;`, with the character and the length of `s` it takes. */
  function NamedRef(s: string): (r: Option<(char, nat)>)
    ensures r.Some? ==> 3 <= r.value.1 <= |s|
  {
    if "amp;" <= s then Some(('&', 4))
    else if "quot;" <= s then Some(('"', 5))
    else if "lt;" <= s then Some(('<', 3))
    else if "gt;" <= s then Some(('>', 3))
    else None
  }

  /** The character reference `htmlspecialchars_decode` decodes at the head of `s`: the
      character and the length of the reference. */
  function ReferenceAt(s: string): (r: Option<(char, nat)>)
    ensures r.Some? ==> 4 <= r.value.1 <= |s| && s[0] == '&'
  {
    if s == [] || s[0] != '&' then None
    else match NamedRef(s[1..])
      case Some(e) => Some((e.0, e.1 + 1))
      case None =>
        if |s| >= 2 && s[1] == '#' then
          match NumericRef(s[2..])
          case Some(e) => Some((e.0, e.1 + 2))
          case None => None
        else None
  }

  /**
   * PHP `htmlspecialchars_decode` with its default ENT_COMPAT flags: one
   * left-to-right pass that turns `&amp;`, `&quot;`, `&lt;` and `&gt;`, and the
   * numeric references to the same four characters, back into them; every
   * other `&` stays as it is, and the output of one replacement is never
   * decoded again.
   */
  function HtmlDecode(s: string): (r: string)
    ensures |r| <= |s|
    decreases |s|
  {
    if s == [] then []
    else if s[0] != '&' then [s[0]] + HtmlDecode(s[1..])
    else match ReferenceAt(s)
      case Some(e) => [e.0] + HtmlDecode(s[e.1..])
      case None => [s[0]] + HtmlDecode(s[1..])
  }

  /** A character other than `&` starts no reference and is copied. */
  lemma DecodeOther(s: string)
    requires s != [] && s[0] != '&'
    ensures HtmlDecode(s) == [s[0]] + HtmlDecode(s[1..])
  {
  }

  /** Text without an ampersand passes through unchanged, whatever follows it. */
  lemma {:induction false} HtmlDecodePlainPrefix(p: string, t: string)
    requires '&' !in p
    ensures HtmlDecode(p + t) == p + HtmlDecode(t)
    decreases |p|
  {
    if p == [] {
      assert p + t == t;
    } else {
      var s := p + t;
      var rest := p[1..];
      assert p == [p[0]] + rest;
      assert s[0] == p[0] && s[1..] == rest + t;
      DecodeOther(s);
      HtmlDecodePlainPrefix(rest, t);
      assert s == p + t;
    }
  }

  /** Text without an ampersand has nothing to decode. */
  lemma HtmlDecodePlain(s: string)
    requires '&' !in s
    ensures HtmlDecode(s) == s
  {
    HtmlDecodePlainPrefix(s, []);
    assert s + [] == s;
  }

  /** A numeric reference that decodes replaces its whole text by its character. */
  lemma DecodeNumeric(s: string)
    requires |s| >= 2 && s[0] == '&' && s[1] == '#' && NumericRef(s[2..]).Some?
    ensures HtmlDecode(s) == [NumericRef(s[2..]).value.0] + HtmlDecode(s[NumericRef(s[2..]).value.1 + 2..])
  {
    assert s[1..][0] == '#';
    assert NamedRef(s[1..]) == None;
  }

  /** An `&` that starts no reference is copied. */
  lemma DecodeBareAmpersand(s: string)
    requires s != [] && s[0] == '&' && ReferenceAt(s).None?
    ensures HtmlDecode(s) == "&" + HtmlDecode(s[1..])
  {
  }

  lemma Ref38(t: string)
    ensures NumericRef("38;" + t) == Some(('&', 3))
  {
    var u := "38;" + t;
    assert u[0] == '3' && u[0..] == u;
    assert u[1..] == "8;" + t && u[2..] == ";" + t;
    assert DigitRun(u[2..], false) == 0;
    assert DigitRun(u[1..], false) == 1;
    assert DigitRun(u, false) == 2;
    assert DigitsAt(u, false) == u[..2] == "38";
    assert RadixNumber("38", false) == 38 by { assert "38"[..1] == "3"; }
  }

  lemma Ref0038(t: string)
    ensures NumericRef("0038;" + t) == Some(('&', 5))
  {
    var u := "0038;" + t;
    assert u[0] == '0' && u[0..] == u;
    assert u[1..] == "038;" + t && u[2..] == "38;" + t && u[3..] == "8;" + t && u[4..] == ";" + t;
    assert DigitRun(u[4..], false) == 0;
    assert DigitRun(u[3..], false) == 1;
    assert DigitRun(u[2..], false) == 2;
    assert DigitRun(u[1..], false) == 3;
    assert DigitRun(u, false) == 4;
    assert DigitsAt(u, false) == u[..4] == "0038";
    assert RadixNumber("0038", false) == 38 by {
      assert "0038"[..3] == "003" && "003"[..2] == "00" && "00"[..1] == "0";
    }
  }

  lemma RefX3C(t: string)
    ensures NumericRef("x3C;" + t) == Some(('<', 4))
  {
    var u := "x3C;" + t;
    assert u[0] == 'x' && u[1] == '3';
    var w := u[1..];
    assert w == "3C;" + t && w[1..] == "C;" + t && w[2..] == ";" + t;
    assert DigitRun(w[2..], true) == 0;
    assert DigitRun(w[1..], true) == 1;
    assert DigitRun(w, true) == 2;
    assert DigitsAt(w, true) == w[..2] == "3C";
    assert RadixNumber("3C", true) == 60 by { assert "3C"[..1] == "3"; }
  }

  lemma Ref039(t: string)
    ensures NumericRef("039;" + t) == None
  {
    var u := "039;" + t;
    assert u[0] == '0' && u[0..] == u;
    assert u[1..] == "39;" + t && u[2..] == "9;" + t && u[3..] == ";" + t;
    assert DigitRun(u[3..], false) == 0;
    assert DigitRun(u[2..], false) == 1;
    assert DigitRun(u[1..], false) == 2;
    assert DigitRun(u, false) == 3;
    assert DigitsAt(u, false) == u[..3] == "039";
    assert RadixNumber("039", false) == 39 by { assert "039"[..2] == "03" && "03"[..1] == "0"; }
  }

  /** A decimal reference to `&` is decoded. */
  lemma DecimalAmpersand(t: string)
    ensures HtmlDecode("&#38;" + t) == "&" + HtmlDecode(t)
  {
    var s := "&#38;" + t;
    assert s[0] == '&' && s[1] == '#' && s[2..] == "38;" + t && s[5..] == t;
    Ref38(t);
    DecodeNumeric(s);
  }

  /** Leading zeros do not stop a decimal reference from being decoded. */
  lemma ZeroPaddedAmpersand(t: string)
    ensures HtmlDecode("&#0038;" + t) == "&" + HtmlDecode(t)
  {
    var s := "&#0038;" + t;
    assert s[0] == '&' && s[1] == '#' && s[2..] == "0038;" + t && s[7..] == t;
    Ref0038(t);
    DecodeNumeric(s);
  }

  /** A hexadecimal reference to `<` is decoded. */
  lemma HexLessThan(t: string)
    ensures HtmlDecode("&#x3C;" + t) == "<" + HtmlDecode(t)
  {
    var s := "&#x3C;" + t;
    assert s[0] == '&' && s[1] == '#' && s[2..] == "x3C;" + t && s[6..] == t;
    RefX3C(t);
    DecodeNumeric(s);
  }

  /** A reference to the single quote stays as it is. */
  lemma ApostropheKept(t: string)
    ensures HtmlDecode("&#039;" + t) == "&#039;" + HtmlDecode(t)
  {
    var s := "&#039;" + t;
    assert s[0] == '&' && s[1] == '#' && s[2..] == "039;" + t;
    assert s[1..][0] == '#';
    assert NamedRef(s[1..]) == None;
    Ref039(t);
    assert ReferenceAt(s) == None;
    DecodeBareAmpersand(s);
    assert s[1..] == "#039;" + t;
    HtmlDecodePlainPrefix("#039;", t);
    assert "&#039;" + t == "&" + ("#039;" + t);
  }

  /** A name with one `&#38;` between plain text, such as "Rock &#38; Roll", is decoded to the
      same text around a bare `&`. */
  lemma DecodeAmpersandBetween(before: string, after: string)
    requires '&' !in before && '&' !in after
    ensures HtmlDecode(before + "&#38;" + after) == before + "&" + after
  {
    assert before + "&#38;" + after == before + ("&#38;" + after);
    HtmlDecodePlainPrefix(before, "&#38;" + after);
    DecimalAmpersand(after);
    HtmlDecodePlain(after);
    assert before + ("&" + after) == before + "&" + after;
  }



  /** Decoding the escape of one character gives that character back, whatever follows. */
  lemma DecodeEscapeHead(c: char, t: string)
    ensures HtmlDecode(Escape(c) + t) == [c] + HtmlDecode(t)
  {
    var e := Escape(c) + t;
    if c == '&' {
      assert e[0] == '&' && e[1..] == "amp;" + t && e[5..] == t;
    } else if c == '"' {
      assert e[0] == '&' && e[1..] == "quot;" + t && e[6..] == t;
      assert e[1..][0] == 'q';
    } else if c == '<' {
      assert e[0] == '&' && e[1..] == "lt;" + t && e[4..] == t;
      assert e[1..][0] == 'l';
    } else if c == '>' {
      assert e[0] == '&' && e[1..] == "gt;" + t && e[4..] == t;
      assert e[1..][0] == 'g';
    } else {
      assert e[0] == c && e[1..] == t;
    }
  }

  /** Decoding undoes escaping: `htmlspecialchars_decode(htmlspecialchars(s)) == s`. */
  lemma {:induction false} HtmlRoundTrip(s: string)
    ensures HtmlDecode(HtmlEscape(s)) == s
    decreases |s|
  {
    if s != [] {
      HtmlRoundTrip(s[1..]);
      DecodeEscapeHead(s[0], HtmlEscape(s[1..]));
      assert s == [s[0]] + s[1..];
    }
  }
}
