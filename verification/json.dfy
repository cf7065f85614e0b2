/** The slice of Python's `json` module the postback round trip goes through:
    `json.dumps` of an object whose values are strings (default separators,
    `ensure_ascii=True`) and `json.loads` of such an object. */
module Json {
  import opened Wrappers

  /** A JSON object with string values, members in source order. */
  type FlatObject = seq<(string, string)>

  // ---------------------------------------------------------------------------
  // Hexadecimal \uXXXX escapes

  /** Lower-case hex digit, as `'{:04x}'.format` writes it. */
  function HexDigit(d: nat): (c: char)
    requires d < 16
  {
    if d < 10 then ('0' as int + d) as char else ('a' as int + d - 10) as char
  }

  /** The value of a hex digit of either case. */
  function HexValue(c: char): (r: Option<nat>)
    ensures r.Some? ==> r.value < 16
  {
    if '0' <= c <= '9' then Some(c as int - '0' as int)
    else if 'a' <= c <= 'f' then Some(c as int - 'a' as int + 10)
    else if 'A' <= c <= 'F' then Some(c as int - 'A' as int + 10)
    else None
  }

  /** Four hex digits for a code unit below 0x10000. */
  function Hex4(n: nat): (r: string)
    requires n < 0x10000
    ensures |r| == 4
  {
    [HexDigit(n / 16 / 16 / 16), HexDigit(n / 16 / 16 % 16), HexDigit(n / 16 % 16), HexDigit(n % 16)]
  }

  /** Reads four hex digits. */
  function ReadHex4(s: string): (r: Option<nat>)
    requires |s| >= 4
    ensures r.Some? ==> r.value < 0x10000
  {
    match (HexValue(s[0]), HexValue(s[1]), HexValue(s[2]), HexValue(s[3]))
    case (Some(a), Some(b), Some(c), Some(d)) => Some(a * 0x1000 + b * 0x100 + c * 0x10 + d)
    case _ => None
  }

  lemma HexDigitValue(d: nat)
    requires d < 16
    ensures HexValue(HexDigit(d)) == Some(d)
  {
  }

  /** The four digits of `Hex4` put back together give the code unit. */
  lemma Hex4Digits(n: nat)
    requires n < 0x10000
    ensures (n / 16 / 16 / 16) * 0x1000 + (n / 16 / 16 % 16) * 0x100 + (n / 16 % 16) * 0x10 + n % 16 == n
  {
    var q1 := n / 16;
    var q2 := q1 / 16;
    assert n == 16 * q1 + n % 16;
    assert q1 == 16 * q2 + q1 % 16;
    assert q2 == 16 * (q2 / 16) + q2 % 16;
  }

  lemma ReadHex4OfHex4(n: nat, rest: string)
    requires n < 0x10000
    ensures ReadHex4(Hex4(n) + rest) == Some(n)
  {
    var s := Hex4(n) + rest;
    HexDigitValue(n / 16 / 16 / 16);
    HexDigitValue(n / 16 / 16 % 16);
    HexDigitValue(n / 16 % 16);
    HexDigitValue(n % 16);
    assert s[0] == HexDigit(n / 16 / 16 / 16) && s[1] == HexDigit(n / 16 / 16 % 16);
    assert s[2] == HexDigit(n / 16 % 16) && s[3] == HexDigit(n % 16);
    Hex4Digits(n);
  }

  // ---------------------------------------------------------------------------
  // json.dumps

  /** `\uXXXX` */
  function UEscape(n: nat): string
    requires n < 0x10000
  {
    "\\u" + Hex4(n)
  }

  /** How `json.dumps` writes one character of a string with `ensure_ascii`:
      quote, backslash and the five named controls get short escapes, every
      other character outside printable ASCII a `\u` escape, and characters
      beyond the Basic Multilingual Plane a surrogate pair. */
  function EscapeChar(c: char): string {
    var n := c as int;
    if n >= 0x10000 then SurrogatePair(n)
    else if c == '"' then "\\\""
    else if c == '\\' then "\\\\"
    else if n == 0x08 then "\\b"
    else if n == 0x0c then "\\f"
    else if c == '\n' then "\\n"
    else if c == '\r' then "\\r"
    else if c == '\t' then "\\t"
    else if 0x20 <= n < 0x7f then [c]
    else UEscape(n)
  }

  /** The two `\u` escapes of a code point beyond the Basic Multilingual
      Plane. */
  function SurrogatePair(n: int): string
    requires 0x10000 <= n < 0x110000
  {
    SurrogateSplit(n);
    UEscape(HighSurrogate(n)) + UEscape(LowSurrogate(n))
  }

  function HighSurrogate(n: int): int {
    0xD800 + (n - 0x10000) / 0x400
  }

  function LowSurrogate(n: int): int {
    0xDC00 + (n - 0x10000) % 0x400
  }

  /** The two halves of a surrogate pair and how they recombine. */
  lemma SurrogateSplit(n: int)
    requires 0x10000 <= n < 0x110000
    ensures 0xD800 <= HighSurrogate(n) < 0xDC00
    ensures 0xDC00 <= LowSurrogate(n) < 0xE000
    ensures 0x10000 + (HighSurrogate(n) - 0xD800) * 0x400 + (LowSurrogate(n) - 0xDC00) == n
  {
  }

  function Escape(s: string): string {
    if |s| == 0 then "" else EscapeChar(s[0]) + Escape(s[1..])
  }

  /** A string literal. */
  function Quote(s: string): string {
    "\"" + Escape(s) + "\""
  }

  function SerializeMembers(o: FlatObject): string {
    if |o| == 0 then ""
    else
      Quote(o[0].0) + ": " + Quote(o[0].1)
      + (if |o| == 1 then "" else ", " + SerializeMembers(o[1..]))
  }

  /** `json.dumps(o)` */
  function Serialize(o: FlatObject): string {
    "{" + SerializeMembers(o) + "}"
  }

  // ---------------------------------------------------------------------------
  // json.loads

  predicate IsWs(c: char) {
    c == ' ' || c == '\t' || c == '\n' || c == '\r'
  }

  function SkipWs(s: string): (r: string)
    ensures |r| <= |s|
    ensures |r| > 0 ==> !IsWs(r[0])
  {
    if |s| > 0 && IsWs(s[0]) then SkipWs(s[1..]) else s
  }

  /** Prepends a decoded character to the rest of a string literal. */
  function Cons(c: char, r: Option<(string, string)>): Option<(string, string)> {
    match r
    case None => None
    case Some((t, rest)) => Some(([c] + t, rest))
  }

  /** Reads the inside of a string literal up to and including its closing
      quote: the decoded text and what follows. Raw control characters are
      refused, as in strict mode. A high surrogate must be followed by a low
      one; a lone surrogate is refused. */
  function ParseStringBody(s: string): (r: Option<(string, string)>)
    ensures r.Some? ==> |r.value.1| < |s|
    decreases |s|
  {
    if |s| == 0 then None
    else if s[0] == '"' then Some(("", s[1..]))
    else if s[0] == '\\' then
      if |s| < 2 then None
      else
        var e := s[1];
        if e == '"' || e == '\\' || e == '/' then Cons(e, ParseStringBody(s[2..]))
        else if e == 'b' then Cons(0x08 as char, ParseStringBody(s[2..]))
        else if e == 'f' then Cons(0x0c as char, ParseStringBody(s[2..]))
        else if e == 'n' then Cons('\n', ParseStringBody(s[2..]))
        else if e == 'r' then Cons('\r', ParseStringBody(s[2..]))
        else if e == 't' then Cons('\t', ParseStringBody(s[2..]))
        else if e == 'u' && |s| >= 6 then
          match ReadHex4(s[2..6])
          case None => None
          case Some(hi) =>
            if hi < 0xD800 || 0xE000 <= hi then Cons(hi as char, ParseStringBody(s[6..]))
            else if 0xDC00 <= hi then None
            else if |s| >= 12 && s[6] == '\\' && s[7] == 'u' then
              match ReadHex4(s[8..12])
              case None => None
              case Some(lo) =>
                if 0xDC00 <= lo < 0xE000 then
                  Cons((0x10000 + (hi - 0xD800) * 0x400 + (lo - 0xDC00)) as char, ParseStringBody(s[12..]))
                else None
            else None
        else None
    else if (s[0] as int) < 0x20 then None
    else Cons(s[0], ParseStringBody(s[1..]))
  }

  function ParseString(s: string): (r: Option<(string, string)>)
    ensures r.Some? ==> |r.value.1| < |s|
  {
    if |s| > 0 && s[0] == '"' then ParseStringBody(s[1..]) else None
  }

  /** Reads `"key": "value"` members up to the closing brace. */
  function ParseMembers(s: string): (r: Option<(FlatObject, string)>)
    decreases |s|
  {
    match ParseString(s)
    case None => None
    case Some((key, r1)) =>
      var r2 := SkipWs(r1);
      if |r2| == 0 || r2[0] != ':' then None
      else
        match ParseString(SkipWs(r2[1..]))
        case None => None
        case Some((value, r3)) =>
          var r4 := SkipWs(r3);
          if |r4| == 0 then None
          else if r4[0] == '}' then Some(([(key, value)], r4[1..]))
          else if r4[0] == ',' then ConsMember((key, value), ParseMembers(SkipWs(r4[1..])))
          else None
  }

  /** Prepends a member to the rest of an object. */
  function ConsMember(kv: (string, string), r: Option<(FlatObject, string)>): Option<(FlatObject, string)> {
    match r
    case None => None
    case Some((more, rest)) => Some(([kv] + more, rest))
  }

  /** `json.loads` restricted to objects with string values; `None` for
      anything else. */
  function Parse(s: string): Option<FlatObject> {
    var t := SkipWs(s);
    if |t| == 0 || t[0] != '{' then None
    else
      var u := SkipWs(t[1..]);
      if |u| > 0 && u[0] == '}' then
        if |SkipWs(u[1..])| == 0 then Some([]) else None
      else
        match ParseMembers(u)
        case None => None
        case Some((o, rest)) => if |SkipWs(rest)| == 0 then Some(o) else None
  }

  /** `d.get(key)` on the dict `json.loads` builds: a repeated key keeps its
      last value. */
  function Get(o: FlatObject, key: string): (r: Option<string>)
    ensures r.None? <==> forall i :: 0 <= i < |o| ==> o[i].0 != key
    ensures r.Some? ==> exists i :: 0 <= i < |o| && o[i] == (key, r.value) && forall j :: i < j < |o| ==> o[j].0 != key
  {
    if |o| == 0 then None
    else if o[|o| - 1].0 == key then Some(o[|o| - 1].1)
    else Get(o[..|o| - 1], key)
  }

  // ---------------------------------------------------------------------------
  // Round trip

  lemma ParseNamedEscape(c: char, tail: string)
    requires c == '"' || c == '\\' || c as int == 0x08 || c as int == 0x0c || c == '\n' || c == '\r' || c == '\t'
    ensures ParseStringBody(EscapeChar(c) + tail) == Cons(c, ParseStringBody(tail))
  {
    var s := EscapeChar(c) + tail;
    assert |EscapeChar(c)| == 2 && s[0] == '\\';
    assert s[2..] == tail;
  }

  lemma ParseUEscape(n: nat, tail: string)
    requires n < 0x10000 && (n < 0xD800 || 0xE000 <= n)
    ensures ParseStringBody(UEscape(n) + tail) == Cons(n as char, ParseStringBody(tail))
  {
    var s := UEscape(n) + tail;
    assert s[0] == '\\' && s[1] == 'u';
    assert s[2..6] == Hex4(n);
    ReadHex4OfHex4(n, []);
    assert Hex4(n) + [] == Hex4(n);
    assert s[6..] == tail;
  }

  lemma ParseSurrogatePair(hi: nat, lo: nat, tail: string)
    requires 0xD800 <= hi < 0xDC00 && 0xDC00 <= lo < 0xE000
    ensures var code := 0x10000 + (hi - 0xD800) * 0x400 + (lo - 0xDC00);
      && (0xE000 <= code < 0x110000)
      && ParseStringBody(UEscape(hi) + UEscape(lo) + tail) == Cons(code as char, ParseStringBody(tail))
  {
    var s := UEscape(hi) + UEscape(lo) + tail;
    assert s[0] == '\\' && s[1] == 'u';
    assert s[2..6] == Hex4(hi);
    assert s[6] == '\\' && s[7] == 'u';
    assert s[8..12] == Hex4(lo);
    assert s[12..] == tail;
    ReadHex4OfHex4(hi, []);
    ReadHex4OfHex4(lo, []);
    assert Hex4(hi) + [] == Hex4(hi);
    assert Hex4(lo) + [] == Hex4(lo);
  }

  lemma ParsePrintable(c: char, tail: string)
    requires c != '"' && c != '\\' && 0x20 <= c as int < 0x7f
    ensures ParseStringBody(EscapeChar(c) + tail) == Cons(c, ParseStringBody(tail))
  {
    assert EscapeChar(c) == [c];
    assert ([c] + tail)[1..] == tail;
  }

  lemma ParseAstral(c: char, tail: string)
    requires 0x10000 <= c as int
    ensures ParseStringBody(EscapeChar(c) + tail) == Cons(c, ParseStringBody(tail))
  {
    var n := c as int;
    SurrogateSplit(n);
    var hi := HighSurrogate(n);
    var lo := LowSurrogate(n);
    assert EscapeChar(c) == UEscape(hi) + UEscape(lo);
    ParseSurrogatePair(hi, lo, tail);
  }

  lemma ParseEscapedChar(c: char, tail: string)
    ensures ParseStringBody(EscapeChar(c) + tail) == Cons(c, ParseStringBody(tail))
  {
    var n := c as int;
    if c == '"' || c == '\\' || n == 0x08 || n == 0x0c || c == '\n' || c == '\r' || c == '\t' {
      ParseNamedEscape(c, tail);
    } else if 0x20 <= n < 0x7f {
      ParsePrintable(c, tail);
    } else if n < 0x10000 {
      assert EscapeChar(c) == UEscape(n);
      ParseUEscape(n, tail);
    } else {
      ParseAstral(c, tail);
    }
  }

  lemma {:induction false} ParseEscaped(s: string, rest: string)
    ensures ParseStringBody(Escape(s) + "\"" + rest) == Some((s, rest))
  {
    if |s| == 0 {
      assert Escape(s) + "\"" + rest == "\"" + rest;
    } else {
      var tail := Escape(s[1..]) + "\"" + rest;
      assert Escape(s) + "\"" + rest == EscapeChar(s[0]) + tail;
      ParseEscapedChar(s[0], tail);
      ParseEscaped(s[1..], rest);
      assert [s[0]] + s[1..] == s;
    }
  }

  lemma ParseQuoted(s: string, rest: string)
    ensures ParseString(Quote(s) + rest) == Some((s, rest))
  {
    assert Quote(s) + rest == "\"" + (Escape(s) + "\"" + rest);
    ParseEscaped(s, rest);
  }

  lemma MemberKey(k: string, v: string, x: string)
    ensures ParseString(Quote(k) + ": " + Quote(v) + x) == Some((k, ": " + Quote(v) + x))
  {
    assert Quote(k) + ": " + Quote(v) + x == Quote(k) + (": " + Quote(v) + x);
    ParseQuoted(k, ": " + Quote(v) + x);
  }

  lemma MemberValue(v: string, x: string)
    requires |x| > 0 && (x[0] == '}' || x[0] == ',')
    ensures var r2 := SkipWs(": " + Quote(v) + x);
      && |r2| > 0 && r2[0] == ':'
      && ParseString(SkipWs(r2[1..])) == Some((v, x))
    ensures SkipWs(x) == x
  {
    var r1 := ": " + Quote(v) + x;
    assert SkipWs(r1) == r1;
    assert r1[1..] == " " + (Quote(v) + x);
    assert SkipWs(r1[1..]) == Quote(v) + x;
    ParseQuoted(v, x);
  }

  /** One serialized member, followed by `}` or `,`. */
  lemma ParseOneMember(k: string, v: string, x: string)
    requires |x| > 0 && (x[0] == '}' || x[0] == ',')
    ensures x[0] == '}' ==> ParseMembers(Quote(k) + ": " + Quote(v) + x) == Some(([(k, v)], x[1..]))
    ensures x[0] == ',' ==> ParseMembers(Quote(k) + ": " + Quote(v) + x) == ConsMember((k, v), ParseMembers(SkipWs(x[1..])))
  {
    MemberKey(k, v, x);
    MemberValue(v, x);
  }

  /** The members of a non-empty object, the closing brace and whatever
      follows, built member by member in the order the parser reads them. */
  function MembersText(o: FlatObject, rest: string): string
    requires |o| > 0
  {
    Quote(o[0].0) + ": " + Quote(o[0].1)
    + (if |o| == 1 then "}" + rest else ", " + MembersText(o[1..], rest))
  }

  lemma ConcatRegroup(a: string, sep: string, t: string, close: string, rest: string)
    ensures a + (sep + (t + close + rest)) == a + (sep + t) + close + rest
  {
  }

  lemma {:induction false} MembersTextIsSerialized(o: FlatObject, rest: string)
    requires |o| > 0
    ensures MembersText(o, rest) == SerializeMembers(o) + "}" + rest
  {
    var a := Quote(o[0].0) + ": " + Quote(o[0].1);
    if |o| == 1 {
      assert SerializeMembers(o) == a + "";
      assert MembersText(o, rest) == a + ("}" + rest);
      ConcatRegroup(a, "", "", "}", rest);
    } else {
      MembersTextIsSerialized(o[1..], rest);
      var t := SerializeMembers(o[1..]);
      assert SerializeMembers(o) == a + (", " + t);
      assert MembersText(o, rest) == a + (", " + (t + "}" + rest));
      ConcatRegroup(a, ", ", t, "}", rest);
    }
  }

  lemma MembersTextStartsWithQuote(o: FlatObject, rest: string)
    requires |o| > 0
    ensures var y := MembersText(o, rest); |y| > 0 && y[0] == '"'
  {
    var t := if |o| == 1 then "}" + rest else ", " + MembersText(o[1..], rest);
    assert MembersText(o, rest) == "\"" + (Escape(o[0].0) + "\"" + ": " + Quote(o[0].1) + t);
  }

  lemma SkipOneSpace(y: string)
    requires |y| > 0 && y[0] == '"'
    ensures SkipWs((", " + y)[1..]) == y
  {
    assert (", " + y)[1..] == " " + y;
    assert (" " + y)[1..] == y;
  }

  /** A member followed by `, ` and the next member's opening quote. */
  lemma ParseCommaMember(k: string, v: string, y: string)
    requires |y| > 0 && y[0] == '"'
    ensures ParseMembers(Quote(k) + ": " + Quote(v) + (", " + y)) == ConsMember((k, v), ParseMembers(y))
  {
    ParseOneMember(k, v, ", " + y);
    SkipOneSpace(y);
  }

  lemma {:induction false} ParseMembersText(o: FlatObject, rest: string)
    requires |o| > 0
    ensures ParseMembers(MembersText(o, rest)) == Some((o, rest))
  {
    if |o| == 1 {
      var x := "}" + rest;
      ParseOneMember(o[0].0, o[0].1, x);
      assert x[1..] == rest;
      assert [(o[0].0, o[0].1)] == o;
    } else {
      var y := MembersText(o[1..], rest);
      ParseMembersText(o[1..], rest);
      MembersTextStartsWithQuote(o[1..], rest);
      ParseCommaMember(o[0].0, o[0].1, y);
      assert [o[0]] + o[1..] == o;
    }
  }

  /** `json.loads(json.dumps(o)) == o` */
  lemma ParseSerialize(o: FlatObject)
    ensures Parse(Serialize(o)) == Some(o)
  {
    if |o| == 0 {
      assert Serialize(o) == "{}";
    } else {
      ParseSerializeNonEmpty(o);
    }
  }

  lemma ParseSerializeNonEmpty(o: FlatObject)
    requires |o| > 0
    ensures Parse(Serialize(o)) == Some(o)
  {
    var u := MembersText(o, "");
    MembersTextIsSerialized(o, "");
    MembersTextStartsWithQuote(o, "");
    ParseMembersText(o, "");
    assert Serialize(o) == "{" + u;
    assert ("{" + u)[1..] == u;
  }
}
