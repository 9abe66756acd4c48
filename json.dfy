/** `JSON.parse` and `JSON.stringify` as far as the question options use them: a reader for
    the JSON grammar and the writer for a list of strings, with the round trip between them. */
module Json {
  import opened Wrappers

  datatype Json =
    | JNull
    | JBool(b: bool)
    | JNumber(text: string)
    | JString(s: string)
    | JArray(items: seq<Json>)
    | JObject(members: seq<(string, Json)>)

  predicate IsJsonWhitespace(c: char)
  {
    c == ' ' || c == '\t' || c == '\n' || c == '\r'
  }

  predicate IsDigit(c: char)
  {
    '0' <= c <= '9'
  }

  function SkipWs(s: string): (r: string)
    ensures |r| <= |s| && r == s[|s| - |r|..]
    ensures r == [] || !IsJsonWhitespace(r[0])
  {
    if s != [] && IsJsonWhitespace(s[0]) then SkipWs(s[1..]) else s
  }

  function HexValue(c: char): Option<nat>
  {
    if '0' <= c <= '9' then Some(c as int - '0' as int)
    else if 'a' <= c <= 'f' then Some(c as int - 'a' as int + 10)
    else if 'A' <= c <= 'F' then Some(c as int - 'A' as int + 10)
    else None
  }

  /** The code unit written by the four hex digits of a `\u` escape. */
  function HexQuad(s: string): (r: Option<nat>)
    requires |s| >= 4
    ensures r.Some? ==> r.value < 0x10000
  {
    match (HexValue(s[0]), HexValue(s[1]), HexValue(s[2]), HexValue(s[3]))
    case (Some(a), Some(b), Some(c), Some(d)) =>
      if a < 16 && b < 16 && c < 16 && d < 16 then Some(((a * 16 + b) * 16 + c) * 16 + d) else None
    case _ => None
  }

  /** The character a one-letter escape `\e` stands for. */
  function SimpleEscape(e: char): Option<char>
  {
    if e == '"' || e == '\\' || e == '/' then Some(e)
    else if e == 'b' then Some('\U{0008}')
    else if e == 'f' then Some('\U{000C}')
    else if e == 'n' then Some('\n')
    else if e == 'r' then Some('\r')
    else if e == 't' then Some('\t')
    else None
  }

  predicate IsHighSurrogate(v: nat) { 0xD800 <= v < 0xDC00 }
  predicate IsLowSurrogate(v: nat) { 0xDC00 <= v < 0xE000 }

  /** The character a UTF-16 surrogate pair stands for. */
  function Combine(high: nat, low: nat): (c: char)
    requires IsHighSurrogate(high) && IsLowSurrogate(low)
    ensures c as int >= 0x10000
  {
    assert (high - 0xD800) * 0x400 <= 0x3FF * 0x400;
    (0x10000 + (high - 0xD800) * 0x400 + (low - 0xDC00)) as char
  }

  /** The body of a string literal after its opening quote, up to and including the closing
      quote; `acc` holds the characters decoded so far. A `\u` escape of a high surrogate
      followed by one of a low surrogate is one character; an unpaired surrogate escape is
      refused, since a string here holds characters, not code units. */
  function ParseStringBody(s: string, acc: string): (r: Option<(string, string)>)
    ensures r.Some? ==> |r.value.1| < |s|
  {
    if s == [] then None
    else if s[0] == '"' then Some((acc, s[1..]))
    else if s[0] == '\\' then
      if |s| < 2 then None
      else if s[1] == 'u' then
        if |s| < 6 then None
        else match HexQuad(s[2..6])
          case None => None
          case Some(v) =>
            if IsHighSurrogate(v) then
              if |s| < 12 || s[6] != '\\' || s[7] != 'u' then None
              else match HexQuad(s[8..12])
                case None => None
                case Some(w) =>
                  if IsLowSurrogate(w) then ParseStringBody(s[12..], acc + [Combine(v, w)]) else None
            else if IsLowSurrogate(v) then None
            else ParseStringBody(s[6..], acc + [v as char])
      else match SimpleEscape(s[1])
        case None => None
        case Some(c) => ParseStringBody(s[2..], acc + [c])
    else if (s[0] as int) < 0x20 then None
    else ParseStringBody(s[1..], acc + [s[0]])
  }

  function LeadingDigitCount(s: string): (k: nat)
    ensures k <= |s|
  {
    if s != [] && IsDigit(s[0]) then 1 + LeadingDigitCount(s[1..]) else 0
  }

  /** The length of the optional `. [0-9]+` part at the start of `s`, `None` if malformed. */
  function FractionLength(s: string): (r: Option<nat>)
    ensures r.Some? ==> r.value <= |s|
  {
    if s == [] || s[0] != '.' then Some(0)
    else
      var d := LeadingDigitCount(s[1..]);
      if d == 0 then None else Some(1 + d)
  }

  /** The length of the optional `[eE] [+-]? [0-9]+` part at the start of `e`. */
  function ExponentLength(e: string): (r: Option<nat>)
    ensures r.Some? ==> r.value <= |e|
  {
    if e == [] || (e[0] != 'e' && e[0] != 'E') then Some(0)
    else
      var sign := if |e| > 1 && (e[1] == '+' || e[1] == '-') then 1 else 0;
      var d := LeadingDigitCount(e[1 + sign..]);
      if d == 0 then None else Some(1 + sign + d)
  }

  /** The length of the fraction-and-exponent tail of a number, `None` if it is malformed. */
  function NumberTail(s: string): (r: Option<nat>)
    ensures r.Some? ==> r.value <= |s|
  {
    match FractionLength(s)
    case None => None
    case Some(f) =>
      match ExponentLength(s[f..])
      case None => None
      case Some(x) => Some(f + x)
  }

  /** A number: `-? (0 | [1-9][0-9]*) (. [0-9]+)? ([eE] [+-]? [0-9]+)?`, kept as its text. */
  function ParseNumber(s: string): (r: Option<(Json, string)>)
    ensures r.Some? ==> |r.value.1| < |s|
  {
    var sign := if s != [] && s[0] == '-' then 1 else 0;
    var a := s[sign..];
    if a == [] || !IsDigit(a[0]) then None
    else
      var whole := if a[0] == '0' then 1 else LeadingDigitCount(a);
      match NumberTail(a[whole..])
      case None => None
      case Some(t) =>
        var len := sign + whole + t;
        Some((JNumber(s[..len]), s[len..]))
  }

  /** A JSON value starting at the first character of `s`, and what follows it. */
  function ParseValue(s: string): (r: Option<(Json, string)>)
    ensures r.Some? ==> |r.value.1| < |s|
    decreases |s|, 1
  {
    if s == [] then None
    else if s[0] == '[' then ParseArray(s)
    else if s[0] == '{' then ParseObject(s)
    else if s[0] == '"' then
      match ParseStringBody(s[1..], "")
      case None => None
      case Some((str, rest)) => Some((JString(str), rest))
    else if |s| >= 4 && s[..4] == "true" then Some((JBool(true), s[4..]))
    else if |s| >= 5 && s[..5] == "false" then Some((JBool(false), s[5..]))
    else if |s| >= 4 && s[..4] == "null" then Some((JNull, s[4..]))
    else ParseNumber(s)
  }

  function ParseArray(s: string): (r: Option<(Json, string)>)
    requires s != [] && s[0] == '['
    ensures r.Some? ==> |r.value.1| < |s|
    decreases |s|, 0
  {
    var t := SkipWs(s[1..]);
    if t != [] && t[0] == ']' then Some((JArray([]), t[1..]))
    else
      match ParseElements(t, [])
      case None => None
      case Some((items, rest)) => Some((JArray(items), rest))
  }

  /** The elements of an array from the first one on, through the closing bracket. */
  function ParseElements(s: string, acc: seq<Json>): (r: Option<(seq<Json>, string)>)
    ensures r.Some? ==> |r.value.1| < |s|
    decreases |s|, 2
  {
    match ParseValue(s)
    case None => None
    case Some((v, rest)) =>
      var t := SkipWs(rest);
      if t == [] then None
      else if t[0] == ']' then Some((acc + [v], t[1..]))
      else if t[0] == ',' then ParseElements(SkipWs(t[1..]), acc + [v])
      else None
  }

  function ParseObject(s: string): (r: Option<(Json, string)>)
    requires s != [] && s[0] == '{'
    ensures r.Some? ==> |r.value.1| < |s|
    decreases |s|, 0
  {
    var t := SkipWs(s[1..]);
    if t != [] && t[0] == '}' then Some((JObject([]), t[1..]))
    else
      match ParseMembers(t, [])
      case None => None
      case Some((members, rest)) => Some((JObject(members), rest))
  }

  /** One `"key": value` member of an object, and what follows it. */
  function ParseMember(s: string): (r: Option<((string, Json), string)>)
    ensures r.Some? ==> |r.value.1| < |s|
    decreases |s|, 1
  {
    if s == [] || s[0] != '"' then None
    else
      match ParseStringBody(s[1..], "")
      case None => None
      case Some((key, afterKey)) =>
        var c := SkipWs(afterKey);
        if c == [] || c[0] != ':' then None
        else
          match ParseValue(SkipWs(c[1..]))
          case None => None
          case Some((v, rest)) => Some(((key, v), rest))
  }

  /** The members of an object from the first key on, through the closing brace. */
  function ParseMembers(s: string, acc: seq<(string, Json)>): (r: Option<(seq<(string, Json)>, string)>)
    ensures r.Some? ==> |r.value.1| < |s|
    decreases |s|, 2
  {
    match ParseMember(s)
    case None => None
    case Some((m, rest)) =>
      var t := SkipWs(rest);
      if t == [] then None
      else if t[0] == '}' then Some((acc + [m], t[1..]))
      else if t[0] == ',' then ParseMembers(SkipWs(t[1..]), acc + [m])
      else None
  }

  /** `JSON.parse(text)`: one value with optional surrounding whitespace; `None` is the
      `SyntaxError` it throws. */
  function Parse(text: string): Option<Json>
  {
    match ParseValue(SkipWs(text))
    case None => None
    case Some((v, rest)) => if SkipWs(rest) == [] then Some(v) else None
  }

  /** The characters a JSON value can start with. */
  predicate StartsValue(c: char)
  {
    c == '[' || c == '{' || c == '"' || c == '-' || c == 't' || c == 'f' || c == 'n' || IsDigit(c)
  }

  /** A value is read only from text that starts like one, and an array only from text that
      starts with `[`. */
  lemma ValueStart(s: string)
    ensures ParseValue(s).Some? ==> s != [] && StartsValue(s[0])
    ensures ParseValue(s).Some? && ParseValue(s).value.0.JArray? ==> s[0] == '['
  {
    if s != [] && s[0] != '[' && s[0] != '{' && s[0] != '"' {
      if |s| >= 4 && s[..4] == "true" {
        assert s[0] == s[..4][0];
      } else if |s| >= 5 && s[..5] == "false" {
        assert s[0] == s[..5][0];
      } else if |s| >= 4 && s[..4] == "null" {
        assert s[0] == s[..4][0];
      } else {
        assert ParseValue(s) == ParseNumber(s);
      }
    } else if s != [] && s[0] == '{' {
      assert ParseValue(s) == ParseObject(s);
    }
  }

  /** `JSON.parse` throws for text whose first non-blank character starts no value, and
      yields an array only from text whose first non-blank character is `[`. */
  lemma ParseStart(text: string)
    ensures var t := SkipWs(text);
      && ((t == [] || !StartsValue(t[0])) ==> Parse(text).None?)
      && (Parse(text).Some? && Parse(text).value.JArray? ==> t != [] && t[0] == '[')
  {
    ValueStart(SkipWs(text));
  }

  function LowerHexDigit(d: nat): char
    requires d < 16
  {
    if d < 10 then ('0' as int + d) as char else ('a' as int + d - 10) as char
  }

  /** How `JSON.stringify` writes one character inside a string literal. */
  function EscapeChar(c: char): string
  {
    if c == '"' then "\\\""
    else if c == '\\' then "\\\\"
    else if c == '\U{0008}' then "\\b"
    else if c == '\U{000C}' then "\\f"
    else if c == '\n' then "\\n"
    else if c == '\r' then "\\r"
    else if c == '\t' then "\\t"
    else if (c as int) < 0x20 then "\\u00" + [LowerHexDigit(c as int / 16), LowerHexDigit(c as int % 16)]
    else [c]
  }

  function Escape(s: string): string
  {
    if s == [] then "" else EscapeChar(s[0]) + Escape(s[1..])
  }

  function Quote(s: string): string
  {
    "\"" + Escape(s) + "\""
  }

  function JoinQuoted(xs: seq<string>): string
  {
    if xs == [] then ""
    else if |xs| == 1 then Quote(xs[0])
    else Quote(xs[0]) + "," + JoinQuoted(xs[1..])
  }

  /** `JSON.stringify(xs)` for an array of strings: no whitespace between the elements. */
  function StringifyStrings(xs: seq<string>): string
  {
    "[" + JoinQuoted(xs) + "]"
  }

  function Strings(xs: seq<string>): (r: seq<Json>)
    ensures |r| == |xs|
    ensures forall i :: 0 <= i < |xs| ==> r[i] == JString(xs[i])
  {
    if xs == [] then [] else [JString(xs[0])] + Strings(xs[1..])
  }

  /** `n` as four lower-case hexadecimal digits. */
  function Hex4(n: nat): string
    requires n < 0x10000
  {
    [LowerHexDigit(n / 16 / 16 / 16), LowerHexDigit(n / 16 / 16 % 16), LowerHexDigit(n / 16 % 16), LowerHexDigit(n % 16)]
  }

  /** The two `\u` escapes of the surrogate pair of a character outside the Basic
      Multilingual Plane, as a writer that escapes every character would produce them. */
  function SurrogateEscapes(c: char): string
    requires c as int >= 0x10000
  {
    var u := c as int - 0x10000;
    "\\u" + Hex4(0xD800 + u / 0x400) + "\\u" + Hex4(0xDC00 + u % 0x400)
  }

  lemma HexDigitValue(d: nat)
    requires d < 16
    ensures HexValue(LowerHexDigit(d)) == Some(d)
  {
  }

  lemma HexQuadOfHex4(n: nat)
    requires n < 0x10000
    ensures HexQuad(Hex4(n)) == Some(n)
  {
    var q1 := n / 16;
    var q2 := q1 / 16;
    var a := q2 / 16;
    assert n == q1 * 16 + n % 16;
    assert q1 == q2 * 16 + q1 % 16;
    assert q2 == a * 16 + q2 % 16;
    HexDigitValue(a);
    HexDigitValue(q2 % 16);
    HexDigitValue(q1 % 16);
    HexDigitValue(n % 16);
  }

  /** A surrogate pair put back together gives the character it was split from. */
  lemma CombineSplit(c: char)
    requires c as int >= 0x10000
    ensures var u := c as int - 0x10000;
      IsHighSurrogate(0xD800 + u / 0x400) && IsLowSurrogate(0xDC00 + u % 0x400)
      && Combine(0xD800 + u / 0x400, 0xDC00 + u % 0x400) == c
  {
    var u := c as int - 0x10000;
    assert u == u / 0x400 * 0x400 + u % 0x400;
  }

  /** Where the parts of two escapes and what follows them sit. */
  lemma EscapePairLayout(h: string, l: string, rest: string)
    requires |h| == 4 && |l| == 4
    ensures var s := "\\u" + h + "\\u" + l + rest;
      && |s| >= 12 && s[0] == '\\' && s[1] == 'u' && s[6] == '\\' && s[7] == 'u'
      && s[2..6] == h && s[8..12] == l && s[12..] == rest
  {
  }

  /** The escaped surrogate pair of a character is read back as that one character. */
  lemma SurrogateEscapesRoundTrip(c: char, rest: string, acc: string)
    requires c as int >= 0x10000
    ensures ParseStringBody(SurrogateEscapes(c) + rest, acc) == ParseStringBody(rest, acc + [c])
  {
    var u := c as int - 0x10000;
    var hi, lo := 0xD800 + u / 0x400, 0xDC00 + u % 0x400;
    EscapePairLayout(Hex4(hi), Hex4(lo), rest);
    HexQuadOfHex4(hi);
    HexQuadOfHex4(lo);
    CombineSplit(c);
  }

  lemma SkipWsNone(s: string)
    requires s != [] && !IsJsonWhitespace(s[0])
    ensures SkipWs(s) == s
  {
  }

  /** One escaped character is read back as itself. */
  lemma EscapeCharRoundTrip(c: char, rest: string, acc: string)
    ensures ParseStringBody(EscapeChar(c) + rest, acc) == ParseStringBody(rest, acc + [c])
  {
    var s := EscapeChar(c) + rest;
    if c == '"' || c == '\\' || c == '\U{0008}' || c == '\U{000C}' || c == '\n' || c == '\r' || c == '\t' {
      assert s[0] == '\\' && s[2..] == rest;
    } else if (c as int) < 0x20 {
      var hi, lo := c as int / 16, c as int % 16;
      assert s[0] == '\\' && s[1] == 'u';
      assert s[2..6] == ['0', '0', LowerHexDigit(hi), LowerHexDigit(lo)];
      assert HexQuad(s[2..6]) == Some(c as int);
      assert s[6..] == rest;
    } else {
      assert s[0] == c && s[1..] == rest;
    }
  }

  /** A string written by `Escape` and closed by a quote is read back exactly. */
  lemma {:induction false} StringBodyRoundTrip(x: string, rest: string, acc: string)
    ensures ParseStringBody(Escape(x) + "\"" + rest, acc) == Some((acc + x, rest))
  {
    if x == [] {
      assert Escape(x) + "\"" + rest == "\"" + rest;
      assert ("\"" + rest)[1..] == rest;
      assert acc + x == acc;
    } else {
      assert Escape(x) + "\"" + rest == EscapeChar(x[0]) + (Escape(x[1..]) + "\"" + rest);
      EscapeCharRoundTrip(x[0], Escape(x[1..]) + "\"" + rest, acc);
      StringBodyRoundTrip(x[1..], rest, acc + [x[0]]);
      assert acc + [x[0]] + x[1..] == acc + x;
    }
  }

  lemma ParseValueString(s: string, str: string, rest: string)
    requires s != [] && s[0] == '"'
    requires ParseStringBody(s[1..], "") == Some((str, rest))
    ensures ParseValue(s) == Some((JString(str), rest))
  {
  }

  lemma QuoteRoundTrip(x: string, rest: string)
    ensures ParseValue(Quote(x) + rest) == Some((JString(x), rest))
  {
    var s := Quote(x) + rest;
    assert s[0] == '"';
    assert s[1..] == Escape(x) + "\"" + rest;
    StringBodyRoundTrip(x, rest, "");
    assert "" + x == x;
    ParseValueString(s, x, rest);
  }

  /** Reading the elements: a value followed by the closing bracket ends the array. */
  lemma ElementsLast(s: string, acc: seq<Json>, v: Json, rest: string)
    requires ParseValue(s) == Some((v, rest))
    requires rest != [] && rest[0] == ']'
    ensures ParseElements(s, acc) == Some((acc + [v], rest[1..]))
  {
    SkipWsNone(rest);
  }

  /** Reading the elements: a value followed by a comma continues with the next one. */
  lemma ElementsNext(s: string, acc: seq<Json>, v: Json, rest: string)
    requires ParseValue(s) == Some((v, rest))
    requires rest != [] && rest[0] == ','
    ensures ParseElements(s, acc) == ParseElements(SkipWs(rest[1..]), acc + [v])
  {
    SkipWsNone(rest);
  }

  lemma Assoc3(a: string, b: string, c: string)
    ensures a + b + c == a + (b + c)
  {
  }

  lemma Assoc4(a: string, b: string, c: string, d: string)
    ensures a + b + c + d == a + (b + (c + d))
  {
  }

  lemma QuoteStart(x: string)
    ensures Quote(x) != [] && Quote(x)[0] == '"'
  {
  }

  lemma JoinQuotedStart(xs: seq<string>)
    requires xs != []
    ensures JoinQuoted(xs) != [] && JoinQuoted(xs)[0] == '"'
  {
    QuoteStart(xs[0]);
    if |xs| > 1 {
      Assoc3(Quote(xs[0]), ",", JoinQuoted(xs[1..]));
    }
  }

  lemma JoinQuotedSplit(xs: seq<string>, rest: string)
    requires |xs| >= 2
    ensures JoinQuoted(xs) + "]" + rest == Quote(xs[0]) + ("," + (JoinQuoted(xs[1..]) + "]" + rest))
    ensures (JoinQuoted(xs[1..]) + "]" + rest)[0] == '"'
  {
    var a, b := Quote(xs[0]), JoinQuoted(xs[1..]);
    assert JoinQuoted(xs) == a + "," + b;
    Assoc4(a + "," + b, "]", rest, "");
    calc {
      JoinQuoted(xs) + "]" + rest;
      (a + "," + b) + "]" + rest;
      { Assoc4(a, ",", b, "]" + rest); Assoc3(a + "," + b, "]", rest); }
      a + ("," + (b + ("]" + rest)));
      { Assoc3(b, "]", rest); }
      a + ("," + (b + "]" + rest));
    }
    JoinQuotedStart(xs[1..]);
  }

  lemma AfterSeparator(c: char, tail: string)
    requires tail != [] && !IsJsonWhitespace(tail[0])
    ensures SkipWs(([c] + tail)[1..]) == tail
  {
    assert ([c] + tail)[1..] == tail;
  }

  lemma ElementsRoundTripOne(x: string, rest: string, acc: seq<Json>)
    ensures ParseElements(JoinQuoted([x]) + "]" + rest, acc) == Some((acc + Strings([x]), rest))
  {
    var s := JoinQuoted([x]) + "]" + rest;
    assert JoinQuoted([x]) == Quote(x);
    Assoc3(Quote(x), "]", rest);
    QuoteRoundTrip(x, "]" + rest);
    assert ("]" + rest)[0] == ']';
    ElementsLast(s, acc, JString(x), "]" + rest);
    assert ("]" + rest)[1..] == rest;
    assert Strings([x]) == [JString(x)];
  }

  /** Reading the first of several elements leaves the rest of the list to read. */
  lemma ElementsRoundTripCons(xs: seq<string>, rest: string, acc: seq<Json>)
    requires |xs| >= 2
    ensures ParseElements(JoinQuoted(xs) + "]" + rest, acc)
         == ParseElements(JoinQuoted(xs[1..]) + "]" + rest, acc + [JString(xs[0])])
  {
    var s := JoinQuoted(xs) + "]" + rest;
    var tail := JoinQuoted(xs[1..]) + "]" + rest;
    JoinQuotedSplit(xs, rest);
    QuoteRoundTrip(xs[0], "," + tail);
    assert ("," + tail)[0] == ',';
    ElementsNext(s, acc, JString(xs[0]), "," + tail);
    assert "," + tail == [','] + tail;
    AfterSeparator(',', tail);
  }

  /** The elements written by `JoinQuoted` and closed by a bracket are read back exactly. */
  lemma {:induction false} ElementsRoundTrip(xs: seq<string>, rest: string, acc: seq<Json>)
    requires xs != []
    ensures ParseElements(JoinQuoted(xs) + "]" + rest, acc) == Some((acc + Strings(xs), rest))
  {
    if |xs| == 1 {
      assert xs == [xs[0]];
      ElementsRoundTripOne(xs[0], rest, acc);
    } else {
      ElementsRoundTripCons(xs, rest, acc);
      ElementsRoundTrip(xs[1..], rest, acc + [JString(xs[0])]);
      assert Strings(xs) == [JString(xs[0])] + Strings(xs[1..]);
      assert acc + [JString(xs[0])] + Strings(xs[1..]) == acc + Strings(xs);
    }
  }

  lemma ParseArrayOpen(s: string)
    requires s != [] && s[0] == '['
    ensures ParseValue(s) == ParseArray(s)
  {
  }

  lemma ParseOfValue(s: string, v: Json)
    requires s != [] && !IsJsonWhitespace(s[0])
    requires ParseValue(s) == Some((v, ""))
    ensures Parse(s) == Some(v)
  {
    SkipWsNone(s);
  }

  lemma ParseArrayElements(s: string, items: seq<Json>)
    requires s != [] && s[0] == '['
    requires SkipWs(s[1..]) == s[1..] && s[1..] != [] && s[1] != ']'
    requires ParseElements(s[1..], []) == Some((items, ""))
    ensures ParseValue(s) == Some((JArray(items), ""))
  {
    ParseArrayOpen(s);
  }

  lemma StringifyEmpty()
    ensures Parse(StringifyStrings([])) == Some(JArray([]))
  {
    var s := StringifyStrings([]);
    assert JoinQuoted([]) == "";
    assert s == "[]";
    assert s[0] == '[' && s[1..] == "]";
    SkipWsNone(s);
    SkipWsNone(s[1..]);
    assert ParseArray(s) == Some((JArray([]), ""));
    ParseArrayOpen(s);
    ParseOfValue(s, JArray([]));
  }

  lemma StringifyNonEmpty(xs: seq<string>)
    requires xs != []
    ensures Parse(StringifyStrings(xs)) == Some(JArray(Strings(xs)))
  {
    var inner := JoinQuoted(xs) + "]" + "";
    assert StringifyStrings(xs) == "[" + inner;
    JoinQuotedStart(xs);
    ElementsRoundTrip(xs, "", []);
    assert [] + Strings(xs) == Strings(xs);
    ArrayOfElements(inner, Strings(xs));
  }

  /** An opening bracket followed by elements that parse to `items` up to the end. */
  lemma ArrayOfElements(inner: string, items: seq<Json>)
    requires inner != [] && inner[0] == '"'
    requires ParseElements(inner, []) == Some((items, ""))
    ensures Parse("[" + inner) == Some(JArray(items))
  {
    var s := "[" + inner;
    assert s[0] == '[' && s[1..] == inner;
    SkipWsNone(inner);
    ParseArrayElements(s, items);
    ParseOfValue(s, JArray(items));
  }

  /** `JSON.parse(JSON.stringify(xs))` is the array of the strings `xs`. */
  lemma StringifyRoundTrip(xs: seq<string>)
    ensures Parse(StringifyStrings(xs)) == Some(JArray(Strings(xs)))
  {
    if xs == [] {
      StringifyEmpty();
    } else {
      StringifyNonEmpty(xs);
    }
  }
}
