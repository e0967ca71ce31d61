/**
  The escaping step of the declaration synthesiser: `JSON.stringify(text).slice(1, -1)`.

  For a string argument `JSON.stringify` is the QuoteJSONString operation of
  ECMA-262 (section 25.5.2.3): the text between two double quotes, with `"`
  and `\` escaped, the control characters backspace, form feed, line feed,
  carriage return and tab written as their two-character short forms, every
  other character below U+0020 written as `\u00` and two lower-case hex digits,
  and every other character copied unchanged (non-ASCII included).
  `slice(1, -1)` then drops the first and the last character.

  Characters are Unicode scalar values: the text comes from reading a file as
  UTF-8, so it never holds an unpaired surrogate.

  The partner of the escape is `Unescape`, the decoder of a JSON string body
  following the string grammar of section 7 of RFC 8259.
*/
module JsonString {
  import opened Wrappers

  /** Does QuoteJSONString replace `c` by an escape sequence? */
  predicate NeedsEscape(c: char) {
    c == '"' || c == '\\' || c as int < 0x20
  }

  /** The lower-case hexadecimal digit of `n`, as ECMA-262's UnicodeEscape writes it. */
  function HexDigit(n: nat): (c: char)
    requires n < 16
    ensures HexDigitValue(c) == Some(n)
  {
    "0123456789abcdef"[n]
  }

  /** The value of a hexadecimal digit of either case, as RFC 8259 accepts it. */
  function HexDigitValue(c: char): (r: Option<nat>)
    ensures r.Some? ==> r.value < 16
  {
    if '0' <= c <= '9' then Some(c as int - '0' as int)
    else if 'a' <= c <= 'f' then Some(c as int - 'a' as int + 10)
    else if 'A' <= c <= 'F' then Some(c as int - 'A' as int + 10)
    else None
  }

  /** The value of the four hexadecimal digits of a `\uXXXX` escape. */
  function HexQuadValue(q: string): (r: Option<nat>)
    requires |q| == 4
    ensures r.Some? ==> r.value < 0x10000
  {
    match (HexDigitValue(q[0]), HexDigitValue(q[1]), HexDigitValue(q[2]), HexDigitValue(q[3]))
    case (Some(a), Some(b), Some(c), Some(d)) => Some(((a * 16 + b) * 16 + c) * 16 + d)
    case _ => None
  }

  /** The text QuoteJSONString writes for one character. */
  function EscapeChar(c: char): (r: string)
    ensures r == [c] <==> !NeedsEscape(c)
    ensures NeedsEscape(c) ==> 2 <= |r| && r[0] == '\\'
    ensures forall i | 0 <= i < |r| :: !(r[i] as int < 0x20)
  {
    if c == '"' then "\\\""
    else if c == '\\' then "\\\\"
    else if c as int == 0x08 then "\\b"
    else if c as int == 0x0C then "\\f"
    else if c == '\n' then "\\n"
    else if c == '\r' then "\\r"
    else if c == '\t' then "\\t"
    else if c as int < 0x20 then "\\u00" + [HexDigit(c as int / 16), HexDigit(c as int % 16)]
    else [c]
  }

  /** The body of QuoteJSONString(text): its result without the two delimiting quotes. */
  function Escape(text: string): (r: string)
    ensures |text| <= |r|
  {
    if text == [] then [] else EscapeChar(text[0]) + Escape(text[1..])
  }

  /** `JSON.stringify(text)` for a string `text`. */
  function Stringify(text: string): string {
    "\"" + Escape(text) + "\""
  }

  /** JavaScript's `s.slice(1, -1)`: drop the first and the last character; empty when `s` is shorter than two. */
  function SliceOneToMinusOne(s: string): (r: string)
    ensures 2 <= |s| ==> |r| == |s| - 2 && r == s[1..|s| - 1]
    ensures |s| < 2 ==> r == []
  {
    var from := if 1 < |s| then 1 else |s|;
    var to := if 0 < |s| then |s| - 1 else 0;
    if from < to then s[from..to] else []
  }

  /** The value handed to the string-literal builder: `JSON.stringify(text).slice(1, -1)`. */
  function LiteralValue(text: string): (r: string)
    ensures r == Escape(text)
  {
    SliceOneToMinusOne(Stringify(text))
  }

  /** The character of a two-character escape `\e` of RFC 8259, section 7. */
  function ShortEscapeValue(e: char): Option<char> {
    if e == '"' then Some('"')
    else if e == '\\' then Some('\\')
    else if e == '/' then Some('/')
    else if e == 'b' then Some(0x08 as char)
    else if e == 'f' then Some(0x0C as char)
    else if e == 'n' then Some('\n')
    else if e == 'r' then Some('\r')
    else if e == 't' then Some('\t')
    else None
  }

  function Prepend(c: char, rest: Option<string>): (r: Option<string>)
    ensures r.Some? <==> rest.Some?
    ensures r.Some? ==> r.value == [c] + rest.value
  {
    match rest
    case Some(s) => Some([c] + s)
    case None => None
  }

  /** The scalar value a UTF-16 surrogate pair stands for. */
  function CombineSurrogates(high: nat, low: nat): (c: char)
    requires 0xD800 <= high < 0xDC00 && 0xDC00 <= low < 0xE000
  {
    var h := high - 0xD800;
    assert h * 0x400 <= 0x3FF * 0x400;
    (0x10000 + h * 0x400 + (low - 0xDC00)) as char
  }

  /**
    Decodes the body of a JSON string (the text between its quotes): `None` when
    the body is not well formed, that is, when it holds a raw `"`, a raw control
    character, an unknown escape or an unpaired surrogate escape.
  */
  function Unescape(s: string): (r: Option<string>)
    decreases |s|
  {
    if s == [] then Some([])
    else if s[0] == '\\' then
      if |s| < 2 then None
      else if s[1] == 'u' then
        if |s| < 6 then None
        else match HexQuadValue(s[2..6])
          case None => None
          case Some(n) =>
            if n < 0xD800 || 0xE000 <= n then Prepend(n as char, Unescape(s[6..]))
            else if 0xDC00 <= n || |s| < 12 || s[6] != '\\' || s[7] != 'u' then None
            else match HexQuadValue(s[8..12])
              case Some(m) =>
                if 0xDC00 <= m < 0xE000 then Prepend(CombineSurrogates(n, m), Unescape(s[12..]))
                else None
              case None => None
      else match ShortEscapeValue(s[1])
        case Some(c) => Prepend(c, Unescape(s[2..]))
        case None => None
    else if s[0] == '"' || s[0] as int < 0x20 then None
    else Prepend(s[0], Unescape(s[1..]))
  }

  /** `JSON.parse` restricted to a JSON text that is a single string. */
  function ParseString(json: string): Option<string> {
    if 2 <= |json| && json[0] == '"' && json[|json| - 1] == '"' then Unescape(json[1..|json| - 1])
    else None
  }

  /** Decoding what one character is escaped to gives that character back. */
  lemma UnescapeEscapeChar(c: char, rest: string)
    ensures Unescape(EscapeChar(c) + rest) == Prepend(c, Unescape(rest))
  {
  }

  /** Escape distributes over concatenation. */
  lemma {:induction false} EscapeAppend(a: string, b: string)
    ensures Escape(a + b) == Escape(a) + Escape(b)
  {
    if a == [] {
      assert a + b == b;
    } else {
      assert (a + b)[0] == a[0] && (a + b)[1..] == a[1..] + b;
      EscapeAppend(a[1..], b);
    }
  }

  /** The escaped body decodes back to the text, whatever the text. */
  lemma {:induction false} UnescapeEscape(text: string)
    ensures Unescape(Escape(text)) == Some(text)
  {
    if text != [] {
      UnescapeEscapeChar(text[0], Escape(text[1..]));
      UnescapeEscape(text[1..]);
      assert [text[0]] + text[1..] == text;
    }
  }

  /**
    The value handed to the string-literal builder, put back between quotes and
    parsed as JSON, is the text read from the file.
  */
  lemma LiteralValueRoundTrip(text: string)
    ensures ParseString("\"" + LiteralValue(text) + "\"") == Some(text)
  {
    var q := "\"" + LiteralValue(text) + "\"";
    assert q[1..|q| - 1] == Escape(text);
    UnescapeEscape(text);
  }

  /** No raw control character below U+0020 survives the escape. */
  lemma {:induction false} EscapeHasNoControlCharacter(text: string)
    ensures forall i | 0 <= i < |Escape(text)| :: !(Escape(text)[i] as int < 0x20)
  {
    if text != [] {
      EscapeHasNoControlCharacter(text[1..]);
      var head, tail := EscapeChar(text[0]), Escape(text[1..]);
      assert Escape(text) == head + tail;
      forall i | 0 <= i < |head + tail| ensures !((head + tail)[i] as int < 0x20) {
        if i >= |head| { assert (head + tail)[i] == tail[i - |head|]; }
      }
    }
  }

  /** The escape of a prefix one character longer: the escape of its first character, then of the rest. */
  lemma EscapePrefixStep(text: string, k: nat)
    requires k < |text|
    ensures Escape(text[..k + 1]) == EscapeChar(text[0]) + Escape(text[1..][..k])
  {
    assert text[..k + 1][0] == text[0] && text[..k + 1][1..] == text[1..][..k];
  }

  /**
    Every `"` of the escaped body is the second character of the escape `\"`
    of a `"` of the text: it sits just after the escape of the text before
    that quote and its leading `\`.
  */
  lemma {:induction false} EscapedQuotesAreEscaped(text: string, i: nat)
    requires i < |Escape(text)| && Escape(text)[i] == '"'
    ensures exists k :: 0 <= k < |text| && text[k] == '"' && |Escape(text[..k])| + 1 == i
  {
    var head, tail := EscapeChar(text[0]), Escape(text[1..]);
    assert Escape(text) == head + tail;
    if i < |head| {
      assert text[0] == '"' && i == 1 by {
        assert head[i] == '"';
      }
      assert text[..0] == [];
    } else {
      assert tail[i - |head|] == '"';
      EscapedQuotesAreEscaped(text[1..], i - |head|);
      var k :| 0 <= k < |text[1..]| && text[1..][k] == '"' && |Escape(text[1..][..k])| + 1 == i - |head|;
      EscapePrefixStep(text, k);
      assert text[k + 1] == '"';
    }
  }

  /**
    Every `\` of the escaped body belongs to an escape sequence: it is the
    first character of the escape of a character that needs escaping, or the
    second character of the escape `\\` of a `\` of the text.
  */
  lemma {:induction false} EscapedBackslashesAreEscaped(text: string, i: nat)
    requires i < |Escape(text)| && Escape(text)[i] == '\\'
    ensures exists k ::
              && 0 <= k < |text| && NeedsEscape(text[k])
              && (i == |Escape(text[..k])| || (text[k] == '\\' && i == |Escape(text[..k])| + 1))
  {
    var head, tail := EscapeChar(text[0]), Escape(text[1..]);
    assert Escape(text) == head + tail;
    if i < |head| {
      assert NeedsEscape(text[0]) && (i == 0 || (text[0] == '\\' && i == 1)) by {
        assert head[i] == '\\';
      }
      assert text[..0] == [];
    } else {
      assert tail[i - |head|] == '\\';
      EscapedBackslashesAreEscaped(text[1..], i - |head|);
      var k :| 0 <= k < |text[1..]| && NeedsEscape(text[1..][k]) &&
        (i - |head| == |Escape(text[1..][..k])| ||
         (text[1..][k] == '\\' && i - |head| == |Escape(text[1..][..k])| + 1));
      EscapePrefixStep(text, k);
      assert text[k + 1] == text[1..][k];
    }
  }

  /** The escape leaves a text unchanged exactly when none of its characters needs escaping. */
  lemma {:induction false} EscapeIsIdentityIff(text: string)
    ensures Escape(text) == text <==> forall i | 0 <= i < |text| :: !NeedsEscape(text[i])
  {
    if text != [] {
      EscapeIsIdentityIff(text[1..]);
      var head := EscapeChar(text[0]);
      assert Escape(text) == head + Escape(text[1..]);
      if NeedsEscape(text[0]) {
        assert |Escape(text)| > |text|;
      } else {
        assert head == [text[0]];
        if Escape(text) == text {
          assert Escape(text[1..]) == text[1..];
        }
        assert forall i | 1 <= i < |text| :: text[i] == text[1..][i - 1];
      }
    }
  }
}
