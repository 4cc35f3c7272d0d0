/** Inert JSON text for a script element, and the proof that nothing is lost by making it inert. */
module SafeJson {
  import opened Outcomes
  import Text

  datatype Json = Null | Bool(b: bool) | Number(n: int) | Str(s: string) | Arr(items: seq<Json>)
      | Obj(fields: seq<Field>)

  datatype Field = Field(name: string, value: Json)

  // ---------------------------------------------------------------- the encoder

  const HEX := "0123456789abcdef"

  /** One character inside a JSON string: the encoder escapes the quote, the backslash and controls. */
  function EscapeChar(c: char): string {
    if c == '"' then "\\\""
    else if c == '\\' then "\\\\"
    else if c == '\n' then "\\n"
    else if c == '\r' then "\\r"
    else if c == '\t' then "\\t"
    else if c as int == 12 then "\\f"
    else if c as int == 8 then "\\b"
    else if c as int < 32 then "\\u00" + [HEX[c as int / 16], HEX[c as int % 16]]
    else [c]
  }

  function Escape(s: string): string {
    if s == "" then "" else EscapeChar(s[0]) + Escape(s[1..])
  }

  function EncodeString(s: string): string {
    "\"" + Escape(s) + "\""
  }

  function EncodeNumber(n: int): string {
    if n < 0 then "-" + Text.Decimal(-n) else Text.Decimal(n)
  }

  function Encode(v: Json): string
    decreases v, 1
  {
    match v
    case Null => "null"
    case Bool(b) => if b then "true" else "false"
    case Number(n) => EncodeNumber(n)
    case Str(s) => EncodeString(s)
    case Arr(items) => "[" + EncodeItems(items) + "]"
    case Obj(fields) => "{" + EncodeFields(fields) + "}"
  }

  function EncodeItems(items: seq<Json>): string
    decreases items, 0
  {
    if items == [] then ""
    else if |items| == 1 then Encode(items[0])
    else Encode(items[0]) + "," + EncodeItems(items[1..])
  }

  function EncodeFields(fields: seq<Field>): string
    decreases fields, 0
  {
    if fields == [] then ""
    else
      var first := EncodeField(fields[0]);
      if |fields| == 1 then first else first + "," + EncodeFields(fields[1..])
  }

  function EncodeField(field: Field): string
    decreases field, 2
  {
    EncodeString(field.name) + ":" + Encode(field.value)
  }

  // ---------------------------------------------------------------- making it inert

  function Replace(text: string, c: char, escape: string): string {
    if text == "" then "" else (if text[0] == c then escape else [text[0]]) + Replace(text[1..], c, escape)
  }

  /** Characters that could end the script element or a script line. */
  predicate Active(c: char) {
    c in {'&', '<', '>'} || c as int == 0x2028 || c as int == 0x2029
  }

  /** The chain of replacements. */
  function Inert(encoded: string): string {
    Replace(Replace(Replace(Replace(Replace(encoded,
      '&', "\\u0026"), '<', "\\u003c"), '>', "\\u003e"), 0x2028 as char, "\\u2028"), 0x2029 as char, "\\u2029")
  }

  function SafeJsonDumps(v: Json): string {
    Inert(Encode(v))
  }

  /** What the whole chain makes of one character. */
  function InertChar(c: char): string {
    if c == '&' then "\\u0026"
    else if c == '<' then "\\u003c"
    else if c == '>' then "\\u003e"
    else if c as int == 0x2028 then "\\u2028"
    else if c as int == 0x2029 then "\\u2029"
    else [c]
  }

  function InertChars(text: string): string {
    if text == "" then "" else InertChar(text[0]) + InertChars(text[1..])
  }

  lemma {:induction false} ReplaceConcat(a: string, b: string, c: char, escape: string)
    ensures Replace(a + b, c, escape) == Replace(a, c, escape) + Replace(b, c, escape)
  {
    if a == "" {
      assert a + b == b;
    } else {
      assert (a + b)[0] == a[0] && (a + b)[1..] == a[1..] + b;
      ReplaceConcat(a[1..], b, c, escape);
      assert Replace(a + b, c, escape) == (if a[0] == c then escape else [a[0]])
          + (Replace(a[1..], c, escape) + Replace(b, c, escape));
    }
  }

  lemma {:induction false} ReplaceAbsent(text: string, c: char, escape: string)
    requires c !in text
    ensures Replace(text, c, escape) == text
  {
    if text != "" {
      ReplaceAbsent(text[1..], c, escape);
      assert [text[0]] + text[1..] == text;
    }
  }

  lemma InertConcat(a: string, b: string)
    ensures Inert(a + b) == Inert(a) + Inert(b)
  {
    hide Replace;
    var a1, b1 := Replace(a, '&', "\\u0026"), Replace(b, '&', "\\u0026");
    ReplaceConcat(a, b, '&', "\\u0026");
    var a2, b2 := Replace(a1, '<', "\\u003c"), Replace(b1, '<', "\\u003c");
    ReplaceConcat(a1, b1, '<', "\\u003c");
    var a3, b3 := Replace(a2, '>', "\\u003e"), Replace(b2, '>', "\\u003e");
    ReplaceConcat(a2, b2, '>', "\\u003e");
    var a4, b4 := Replace(a3, 0x2028 as char, "\\u2028"), Replace(b3, 0x2028 as char, "\\u2028");
    ReplaceConcat(a3, b3, 0x2028 as char, "\\u2028");
    ReplaceConcat(a4, b4, 0x2029 as char, "\\u2029");
  }

  lemma ReplaceOne(d: char, c: char, escape: string)
    ensures Replace([d], c, escape) == if d == c then escape else [d]
  {
    assert [d][1..] == "";
    assert Replace([d][1..], c, escape) == "";
    assert escape + "" == escape && [d] + "" == [d];
  }

  /** Later replacements leave the escapes of earlier ones alone. */
  lemma InertOne(c: char)
    ensures Inert([c]) == InertChar(c)
  {
    hide Replace;
    ReplaceOne(c, '&', "\\u0026");
    ReplaceOne(c, '<', "\\u003c");
    ReplaceOne(c, '>', "\\u003e");
    ReplaceOne(c, 0x2028 as char, "\\u2028");
    ReplaceOne(c, 0x2029 as char, "\\u2029");
    ReplaceAbsent("\\u0026", '<', "\\u003c");
    ReplaceAbsent("\\u0026", '>', "\\u003e");
    ReplaceAbsent("\\u0026", 0x2028 as char, "\\u2028");
    ReplaceAbsent("\\u0026", 0x2029 as char, "\\u2029");
    ReplaceAbsent("\\u003c", '>', "\\u003e");
    ReplaceAbsent("\\u003c", 0x2028 as char, "\\u2028");
    ReplaceAbsent("\\u003c", 0x2029 as char, "\\u2029");
    ReplaceAbsent("\\u003e", 0x2028 as char, "\\u2028");
    ReplaceAbsent("\\u003e", 0x2029 as char, "\\u2029");
    ReplaceAbsent("\\u2028", 0x2029 as char, "\\u2029");
  }

  lemma {:induction false} InertIsCharwise(text: string)
    ensures Inert(text) == InertChars(text)
  {
    if text != "" {
      InertIsCharwise(text[1..]);
      assert text == [text[0]] + text[1..];
      hide Inert, InertChar;
      InertConcat([text[0]], text[1..]);
      InertOne(text[0]);
    }
  }

  lemma {:induction false} CharwiseInert(text: string, i: nat)
    requires i < |InertChars(text)|
    ensures !Active(InertChars(text)[i])
  {
    var first := InertChar(text[0]);
    if i < |first| {
      assert InertChars(text)[i] == first[i];
    } else {
      CharwiseInert(text[1..], i - |first|);
    }
  }

  /** No character of the output can terminate the element, start markup or end a script line. */
  lemma NothingActive(v: Json)
    ensures forall i :: 0 <= i < |SafeJsonDumps(v)| ==> !Active(SafeJsonDumps(v)[i])
  {
    hide Inert;
    InertIsCharwise(Encode(v));
    forall i | 0 <= i < |SafeJsonDumps(v)|
      ensures !Active(SafeJsonDumps(v)[i])
    {
      CharwiseInert(Encode(v), i);
    }
  }

  // ---------------------------------------------------------------- the decoder

  function HexDigit(c: char): Option<int> {
    if '0' <= c <= '9' then Some(c as int - '0' as int)
    else if 'a' <= c <= 'f' then Some(c as int - 'a' as int + 10)
    else if 'A' <= c <= 'F' then Some(c as int - 'A' as int + 10)
    else None
  }

  /** The code unit of four hexadecimal digits; surrogates are no characters. */
  function HexUnit(text: string): Option<char>
    requires |text| >= 4
  {
    var a, b, c, d := HexDigit(text[0]), HexDigit(text[1]), HexDigit(text[2]), HexDigit(text[3]);
    if a.None? || b.None? || c.None? || d.None? then None
    else
      var unit := 4096 * a.value + 256 * b.value + 16 * c.value + d.value;
      if 0xd800 <= unit < 0xe000 then None else Some(unit as char)
  }

  /** The next character of a string body, escaped or not. */
  function ParseChar(text: string): (r: Option<(char, string)>)
    requires text != ""
    ensures r.Some? ==> |r.value.1| < |text|
  {
    if text[0] == '"' || (text[0] as int) < 32 then None
    else if text[0] != '\\' then Some((text[0], text[1..]))
    else if |text| < 2 then None
    else match text[1]
      case '"' => Some(('"', text[2..]))
      case '\\' => Some(('\\', text[2..]))
      case '/' => Some(('/', text[2..]))
      case 'n' => Some(('\n', text[2..]))
      case 'r' => Some(('\r', text[2..]))
      case 't' => Some(('\t', text[2..]))
      case 'f' => Some((12 as char, text[2..]))
      case 'b' => Some((8 as char, text[2..]))
      case 'u' =>
        if |text| < 6 || HexUnit(text[2..]).None? then None else Some((HexUnit(text[2..]).value, text[6..]))
      case _ => None
  }

  /** The rest of a string, after its opening quote. */
  function ParseString(text: string): (r: Option<(string, string)>)
    ensures r.Some? ==> |r.value.1| < |text|
  {
    if text == "" then None
    else if text[0] == '"' then Some(("", text[1..]))
    else
      var first := ParseChar(text);
      if first.None? then None
      else
        var rest := ParseString(first.value.1);
        if rest.None? then None else Some(([first.value.0] + rest.value.0, rest.value.1))
  }

  predicate IsDigit(c: char) {
    '0' <= c <= '9'
  }

  function DigitRun(text: string): (k: nat)
    ensures k <= |text| && forall i :: 0 <= i < k ==> IsDigit(text[i])
    ensures k < |text| ==> !IsDigit(text[k])
  {
    if text == "" || !IsDigit(text[0]) then 0 else 1 + DigitRun(text[1..])
  }

  /** An unsigned integer without superfluous leading zero. */
  function ParseNatural(text: string): (r: Option<(int, string)>)
    ensures r.Some? ==> |r.value.1| < |text|
  {
    var k := DigitRun(text);
    if k == 0 || (k > 1 && text[0] == '0') then None else Some((Text.Value(text[..k]), text[k..]))
  }

  function ParseNumber(text: string): (r: Option<(Json, string)>)
    ensures r.Some? ==> |r.value.1| < |text|
  {
    var negative := text != "" && text[0] == '-';
    var magnitude := ParseNatural(if negative then text[1..] else text);
    if magnitude.None? then None
    else Some((Number(if negative then -magnitude.value.0 else magnitude.value.0), magnitude.value.1))
  }

  /** One value at the start of the text, and what follows it. */
  function Parse(text: string): (r: Option<(Json, string)>)
    ensures r.Some? ==> |r.value.1| < |text|
    decreases |text|, 2
  {
    if text == "" then None
    else if "null" <= text then Some((Null, text[4..]))
    else if "true" <= text then Some((Bool(true), text[4..]))
    else if "false" <= text then Some((Bool(false), text[5..]))
    else if text[0] == '"' then
      var s := ParseString(text[1..]);
      if s.None? then None else Some((Str(s.value.0), s.value.1))
    else if text[0] == '[' then
      if "[]" <= text then Some((Arr([]), text[2..]))
      else
        var items := ParseItems(text[1..]);
        if items.None? then None else Some((Arr(items.value.0), items.value.1))
    else if text[0] == '{' then
      if "{}" <= text then Some((Obj([]), text[2..]))
      else
        var fields := ParseFields(text[1..]);
        if fields.None? then None else Some((Obj(fields.value.0), fields.value.1))
    else ParseNumber(text)
  }

  /** Items up to and including the closing bracket. */
  function ParseItems(text: string): (r: Option<(seq<Json>, string)>)
    ensures r.Some? ==> |r.value.1| < |text|
    decreases |text|, 3
  {
    var first := Parse(text);
    if first.None? || first.value.1 == "" then None
    else
      var tail := first.value.1;
      if tail[0] == ']' then Some(([first.value.0], tail[1..]))
      else if tail[0] != ',' then None
      else
        var rest := ParseItems(tail[1..]);
        if rest.None? then None else Some(([first.value.0] + rest.value.0, rest.value.1))
  }

  function ParseField(text: string): (r: Option<(Field, string)>)
    ensures r.Some? ==> |r.value.1| < |text|
    decreases |text|, 3
  {
    if text == "" || text[0] != '"' then None
    else
      var name := ParseString(text[1..]);
      if name.None? || name.value.1 == "" || name.value.1[0] != ':' then None
      else
        var value := Parse(name.value.1[1..]);
        if value.None? then None else Some((Field(name.value.0, value.value.0), value.value.1))
  }

  /** Fields up to and including the closing brace. */
  function ParseFields(text: string): (r: Option<(seq<Field>, string)>)
    ensures r.Some? ==> |r.value.1| < |text|
    decreases |text|, 4
  {
    var first := ParseField(text);
    if first.None? || first.value.1 == "" then None
    else
      var tail := first.value.1;
      if tail[0] == '}' then Some(([first.value.0], tail[1..]))
      else if tail[0] != ',' then None
      else
        var rest := ParseFields(tail[1..]);
        if rest.None? then None else Some(([first.value.0] + rest.value.0, rest.value.1))
  }

  // ---------------------------------------------------------------- strings come back

  lemma {:induction false} CharwiseConcat(a: string, b: string)
    ensures InertChars(a + b) == InertChars(a) + InertChars(b)
  {
    if a == "" {
      assert a + b == b;
    } else {
      assert (a + b)[0] == a[0] && (a + b)[1..] == a[1..] + b;
      CharwiseConcat(a[1..], b);
      assert InertChars(a + b) == InertChar(a[0]) + (InertChars(a[1..]) + InertChars(b));
    }
  }

  lemma {:induction false} PlainInert(text: string)
    requires forall i :: 0 <= i < |text| ==> !Active(text[i])
    ensures InertChars(text) == text
  {
    if text != "" {
      PlainInert(text[1..]);
      assert [text[0]] + text[1..] == text;
    }
  }

  /** An active character is never part of an encoder escape: it stands for itself. */
  lemma EscapesArePlain(c: char)
    ensures if Active(c) then EscapeChar(c) == [c]
            else forall i :: 0 <= i < |EscapeChar(c)| ==> !Active(EscapeChar(c)[i])
  {
    assert forall k :: 0 <= k < 16 ==> !Active(HEX[k]);
  }

  lemma CharComesBack(c: char, rest: string)
    ensures InertChars(EscapeChar(c)) != "" && InertChars(EscapeChar(c))[0] != '"'
    ensures ParseChar(InertChars(EscapeChar(c)) + rest) == Some((c, rest))
  {
    EscapesArePlain(c);
    if Active(c) {
      assert [c][1..] == "" && InertChars("") == "";
      assert InertChars([c]) == InertChar(c) + "" == InertChar(c);
      ActiveComesBack(c, rest);
    } else {
      PlainInert(EscapeChar(c));
      PlainComesBack(c, rest);
    }
  }

  lemma ActiveComesBack(c: char, rest: string)
    requires Active(c)
    ensures ParseChar(InertChar(c) + rest) == Some((c, rest))
  {
    var text := InertChar(c) + rest;
    assert text[0] == '\\' && text[1] == 'u' && text[6..] == rest;
    assert text[2..][0] == InertChar(c)[2] && text[2..][1] == InertChar(c)[3];
    assert text[2..][2] == InertChar(c)[4] && text[2..][3] == InertChar(c)[5];
  }

  lemma PlainComesBack(c: char, rest: string)
    requires !Active(c)
    ensures EscapeChar(c) != "" && EscapeChar(c)[0] != '"'
    ensures ParseChar(EscapeChar(c) + rest) == Some((c, rest))
  {
    if |EscapeChar(c)| == 1 {
      assert ([c] + rest)[1..] == rest;
    } else if |EscapeChar(c)| == 2 {
      assert (EscapeChar(c) + rest)[2..] == rest;
    } else {
      ControlComesBack(c, rest);
    }
  }

  lemma ControlComesBack(c: char, rest: string)
    requires |EscapeChar(c)| > 2
    ensures EscapeChar(c)[0] != '"' && ParseChar(EscapeChar(c) + rest) == Some((c, rest))
  {
    var k := c as int;
    assert EscapeChar(c) == ['\\', 'u', '0', '0', HEX[k / 16], HEX[k % 16]];
    hide EscapeChar;
    var text := EscapeChar(c) + rest;
    assert text[0] == '\\' && text[1] == 'u' && text[6..] == rest;
    assert text[2..][0] == '0' && text[2..][1] == '0' && text[2..][2] == HEX[k / 16] && text[2..][3] == HEX[k % 16];
    HexComesBack(k / 16);
    HexComesBack(k % 16);
    hide HexDigit;
    assert HexDigit('0') == Some(0) by { HexComesBack(0); }
    assert HexUnit(text[2..]) == Some(c);
  }

  lemma HexComesBack(d: nat)
    requires d < 16
    ensures HexDigit(HEX[d]) == Some(d) && HEX[0] == '0'
  {
  }

  lemma EscapeFirst(s: string, rest: string)
    requires s != ""
    ensures InertChars(Escape(s)) + "\"" + rest
         == InertChars(EscapeChar(s[0])) + (InertChars(Escape(s[1..])) + "\"" + rest)
  {
    hide InertChars, EscapeChar;
    assert Escape(s) == EscapeChar(s[0]) + Escape(s[1..]);
    hide Escape;
    CharwiseConcat(EscapeChar(s[0]), Escape(s[1..]));
    Regroup(InertChars(EscapeChar(s[0])), InertChars(Escape(s[1..])), "\"", rest);
  }

  lemma Regroup(a: string, b: string, c: string, d: string)
    ensures (a + b) + c + d == a + (b + c + d)
  {
  }

  lemma ParseStringSteps(text: string, c: char, tail: string, s: string, rest: string)
    requires text != "" && text[0] != '"' && ParseChar(text) == Some((c, tail)) && ParseString(tail) == Some((s, rest))
    ensures ParseString(text) == Some(([c] + s, rest))
  {
    hide ParseChar;
  }

  lemma EmptyComesBack(rest: string)
    ensures ParseString(InertChars(Escape("")) + "\"" + rest) == Some(("", rest))
  {
    assert InertChars(Escape("")) + "\"" + rest == "\"" + rest;
  }

  lemma {:induction false} StringComesBack(s: string, rest: string)
    ensures ParseString(InertChars(Escape(s)) + "\"" + rest) == Some((s, rest))
  {
    hide *;
    if s == "" {
      EmptyComesBack(rest);
    } else {
      var text := InertChars(Escape(s)) + "\"" + rest;
      var first := InertChars(EscapeChar(s[0]));
      var tail := InertChars(Escape(s[1..])) + "\"" + rest;
      EscapeFirst(s, rest);
      assert text == first + tail;
      CharComesBack(s[0], tail);
      StringComesBack(s[1..], rest);
      assert text[0] == first[0];
      ParseStringSteps(text, s[0], tail, s[1..], rest);
      assert [s[0]] + s[1..] == s;
    }
  }

  /** The escapes that the encoder uses, character by character. */
  lemma KnownEscapes(c: char)
    ensures EscapeChar('\"') == "\\\"" && EscapeChar('\\') == "\\\\"
    ensures EscapeChar('\n') == "\\n" && EscapeChar('\r') == "\\r" && EscapeChar('\t') == "\\t"
    ensures EscapeChar('\U{8}') == "\\b" && EscapeChar('\U{C}') == "\\f" && EscapeChar('\U{1F}') == "\\u001f"
    ensures InertChar('<') == "\\u003c" && InertChar('>') == "\\u003e" && InertChar('&') == "\\u0026"
    ensures InertChar('\U{2028}') == "\\u2028" && InertChar('\U{2029}') == "\\u2029"
    ensures c >= ' ' && c != '\"' && c != '\\' ==> EscapeChar(c) == [c]
  {
  }

  // ---------------------------------------------------------------- numbers come back

  lemma {:induction false} DecimalDigits(n: nat)
    ensures Text.Decimal(n) != "" && forall i :: 0 <= i < |Text.Decimal(n)| ==> IsDigit(Text.Decimal(n)[i])
    ensures n > 0 ==> Text.Decimal(n)[0] != '0'
    ensures n == 0 ==> Text.Decimal(n) == "0"
  {
    assert forall d :: 0 <= d < 10 ==> IsDigit(Text.DIGITS[d]) && (d > 0 ==> Text.DIGITS[d] != '0');
    if n >= 10 {
      DecimalDigits(n / 10);
    }
  }

  lemma {:induction false} RunEnds(digits: string, rest: string)
    requires forall i :: 0 <= i < |digits| ==> IsDigit(digits[i])
    requires rest == "" || !IsDigit(rest[0])
    ensures DigitRun(digits + rest) == |digits|
  {
    if digits == "" {
      assert digits + rest == rest;
    } else {
      assert (digits + rest)[1..] == digits[1..] + rest;
      RunEnds(digits[1..], rest);
    }
  }

  lemma NaturalComesBack(n: nat, rest: string)
    requires rest == "" || !IsDigit(rest[0])
    ensures ParseNatural(Text.Decimal(n) + rest) == Some((n, rest))
  {
    var digits := Text.Decimal(n);
    DecimalDigits(n);
    RunEnds(digits, rest);
    Text.DecimalValue(n);
    assert (digits + rest)[..|digits|] == digits && (digits + rest)[|digits|..] == rest;
    if |digits| > 1 {
      assert n != 0;
    }
  }

  lemma SignedNumber(text: string, magnitude: int, rest: string)
    requires text != "" && ParseNatural(text) == Some((magnitude, rest))
    ensures ParseNumber("-" + text) == Some((Number(-magnitude), rest))
    ensures text[0] != '-' ==> ParseNumber(text) == Some((Number(magnitude), rest))
  {
    hide ParseNatural;
    assert ("-" + text)[1..] == text;
  }

  lemma NumberText(n: int, rest: string)
    ensures n < 0 ==> EncodeNumber(n) + rest == "-" + (Text.Decimal(-n) + rest)
    ensures n >= 0 ==> EncodeNumber(n) == Text.Decimal(n)
  {
    hide Text.Decimal;
  }

  lemma NaturalStart(n: nat, rest: string)
    ensures Text.Decimal(n) + rest != "" && (Text.Decimal(n) + rest)[0] != '-'
  {
    DecimalDigits(n);
    assert (Text.Decimal(n) + rest)[0] == Text.Decimal(n)[0];
    hide Text.Decimal;
  }

  lemma NumberComesBack(n: int, rest: string)
    requires rest == "" || !IsDigit(rest[0])
    ensures ParseNumber(EncodeNumber(n) + rest) == Some((Number(n), rest))
  {
    hide *;
    NumberText(n, rest);
    var m := if n < 0 then -n else n;
    NaturalComesBack(m, rest);
    NaturalStart(m, rest);
    SignedNumber(Text.Decimal(m) + rest, m, rest);
  }

  lemma DigitsPlain(n: nat)
    ensures Text.Decimal(n) != "" && IsDigit(Text.Decimal(n)[0])
    ensures forall i :: 0 <= i < |Text.Decimal(n)| ==> !Active(Text.Decimal(n)[i])
  {
    DecimalDigits(n);
    hide Text.Decimal;
    var digits := Text.Decimal(n);
    forall i | 0 <= i < |digits|
      ensures !Active(digits[i])
    {
      assert IsDigit(digits[i]);
    }
  }

  lemma NumberStart(n: int, rest: string)
    ensures EncodeNumber(n) != "" && (EncodeNumber(n)[0] == '-' || IsDigit(EncodeNumber(n)[0]))
    ensures forall i :: 0 <= i < |EncodeNumber(n)| ==> !Active(EncodeNumber(n)[i])
  {
    DigitsPlain(if n < 0 then -n else n);
    hide Text.Decimal, IsDigit;
    assert !Active('-');
    hide Active;
  }

  // ---------------------------------------------------------------- values come back

  /** What may follow a value. */
  predicate Follows(rest: string) {
    rest == "" || rest[0] in {',', ']', '}'}
  }

  lemma StringInert(s: string)
    ensures InertChars(EncodeString(s)) == "\"" + InertChars(Escape(s)) + "\""
  {
    hide Escape;
    CharwiseConcat("\"" + Escape(s), "\"");
    CharwiseConcat("\"", Escape(s));
    PlainInert("\"");
  }

  /** The first character decides how a value is read. */
  lemma ParseByFirst(text: string)
    requires text != ""
    ensures text[0] == '-' || IsDigit(text[0]) ==> Parse(text) == ParseNumber(text)
    ensures text[0] == '"' ==>
              Parse(text) == match ParseString(text[1..]) case None => None case Some(p) => Some((Str(p.0), p.1))
    ensures text[0] == '[' && |text| > 1 && text[1] != ']' ==>
              Parse(text) == match ParseItems(text[1..]) case None => None case Some(p) => Some((Arr(p.0), p.1))
    ensures text[0] == '{' && |text| > 1 && text[1] != '}' ==>
              Parse(text) == match ParseFields(text[1..]) case None => None case Some(p) => Some((Obj(p.0), p.1))
  {
    hide ParseItems, ParseFields, ParseString, ParseNumber;
    assert "null"[0] == 'n' && "true"[0] == 't' && "false"[0] == 'f';
    assert "[]"[1] == ']' && "{}"[1] == '}';
  }

  lemma ParseWord(word: string, v: Json, rest: string)
    requires (word == "null" && v == Null) || (word == "true" && v == Bool(true))
              || (word == "false" && v == Bool(false))
             || (word == "[]" && v == Arr([])) || (word == "{}" && v == Obj([]))
    ensures Parse(word + rest) == Some((v, rest))
  {
    hide ParseItems, ParseFields, ParseString, ParseNumber;
    var text := word + rest;
    assert text[..|word|] == word && text[|word|..] == rest && text[0] == word[0];
    assert "null"[0] == 'n' && "true"[0] == 't' && "false"[0] == 'f';
  }

  lemma LastItem(text: string, v: Json, rest: string)
    requires Parse(text) == Some((v, "]" + rest))
    ensures ParseItems(text) == Some(([v], rest))
  {
    hide Parse;
    assert ("]" + rest)[1..] == rest;
  }

  lemma OneItem(text: string, v: Json, tail: string, items: seq<Json>, rest: string)
    requires Parse(text) == Some((v, "," + tail)) && ParseItems(tail) == Some((items, rest))
    ensures ParseItems(text) == Some(([v] + items, rest))
  {
    hide Parse;
    assert ("," + tail)[1..] == tail;
  }

  lemma LastField(text: string, field: Field, rest: string)
    requires ParseField(text) == Some((field, "}" + rest))
    ensures ParseFields(text) == Some(([field], rest))
  {
    hide ParseField;
    assert ("}" + rest)[1..] == rest;
  }

  lemma OneField(text: string, field: Field, tail: string, fields: seq<Field>, rest: string)
    requires ParseField(text) == Some((field, "," + tail)) && ParseFields(tail) == Some((fields, rest))
    ensures ParseFields(text) == Some(([field] + fields, rest))
  {
    hide ParseField;
    assert ("," + tail)[1..] == tail;
  }

  lemma NameAndValue(body: string, name: string, text: string, v: Json, rest: string)
    requires ParseString(body) == Some((name, ":" + text)) && Parse(text) == Some((v, rest))
    ensures ParseField("\"" + body) == Some((Field(name, v), rest))
  {
    hide Parse, ParseString;
    assert ("\"" + body)[1..] == body && (":" + text)[1..] == text;
  }

  lemma {:induction false} ValueComesBack(v: Json, rest: string)
    requires Follows(rest)
    ensures Parse(InertChars(Encode(v)) + rest) == Some((v, rest))
    ensures InertChars(Encode(v)) != "" && InertChars(Encode(v))[0] !in {']', '}', ','}
    decreases v, 1
  {
    match v
    case Null => WordComesBack(v, rest);
    case Bool(b) => WordComesBack(v, rest);
    case Number(n) => NumberValueComesBack(n, rest);
    case Str(s) => StringValueComesBack(s, rest);
    case Arr(items) => ArrayComesBack(items, rest);
    case Obj(fields) => ObjectComesBack(fields, rest);
  }

  lemma WordComesBack(v: Json, rest: string)
    requires v.Null? || v.Bool?
    ensures Parse(InertChars(Encode(v)) + rest) == Some((v, rest))
    ensures InertChars(Encode(v)) != "" && InertChars(Encode(v))[0] !in {']', '}', ','}
  {
    PlainInert(Encode(v));
    ParseWord(Encode(v), v, rest);
    hide Parse;
  }

  lemma NumberValueComesBack(n: int, rest: string)
    requires Follows(rest)
    ensures Parse(InertChars(Encode(Number(n))) + rest) == Some((Number(n), rest))
    ensures InertChars(Encode(Number(n))) != "" && InertChars(Encode(Number(n)))[0] !in {']', '}', ','}
  {
    NumberStart(n, rest);
    PlainInert(EncodeNumber(n));
    NumberComesBack(n, rest);
    hide EncodeNumber, ParseNumber, Parse;
    var text := EncodeNumber(n) + rest;
    assert text[0] == EncodeNumber(n)[0];
    ParseByFirst(text);
  }

  lemma StringValueComesBack(s: string, rest: string)
    ensures Parse(InertChars(Encode(Str(s))) + rest) == Some((Str(s), rest))
    ensures InertChars(Encode(Str(s))) != "" && InertChars(Encode(Str(s)))[0] == '"'
  {
    StringInert(s);
    StringComesBack(s, rest);
    assert Encode(Str(s)) == EncodeString(s);
    hide *;
    var body := InertChars(Escape(s));
    StringPieces(body, rest);
    ParseByFirst("\"" + body + "\"" + rest);
  }

  lemma StringPieces(body: string, rest: string)
    ensures ("\"" + body + "\"" + rest)[1..] == body + "\"" + rest
    ensures ("\"" + body + "\"")[0] == '"' && ("\"" + body + "\"" + rest)[0] == '"'
  {
  }

  lemma Bracketed(open: string, body: string, close: string)
    requires |open| == 1 && |close| == 1 && !Active(open[0]) && !Active(close[0])
    ensures InertChars(open + body + close) == open + InertChars(body) + close
  {
    CharwiseConcat(open + body, close);
    CharwiseConcat(open, body);
    PlainInert(open);
    PlainInert(close);
    hide InertChars;
  }

  lemma {:induction false} ArrayComesBack(items: seq<Json>, rest: string)
    requires Follows(rest)
    ensures Parse(InertChars(Encode(Arr(items))) + rest) == Some((Arr(items), rest))
    ensures InertChars(Encode(Arr(items))) != "" && InertChars(Encode(Arr(items)))[0] == '['
    decreases items, 2
  {
    hide *;
    ArrayText(items);
    if items == [] {
      ParseWord("[]", Arr([]), rest);
    } else {
      var body := InertChars(EncodeItems(items));
      ItemsComeBack(items, rest);
      OpenPieces("[", body, "]", rest);
      ParseByFirst("[" + body + "]" + rest);
    }
  }

  lemma ArrayText(items: seq<Json>)
    ensures InertChars(Encode(Arr(items))) == if items == [] then "[]" else "[" + InertChars(EncodeItems(items)) + "]"
    ensures InertChars(Encode(Arr(items))) != "" && InertChars(Encode(Arr(items)))[0] == '['
  {
    Bracketed("[", EncodeItems(items), "]");
    assert Encode(Arr(items)) == "[" + EncodeItems(items) + "]";
    assert items == [] ==> EncodeItems(items) == "" && InertChars("") == "";
    hide InertChars, EncodeItems, Encode;
  }

  lemma OpenPieces(open: string, body: string, close: string, rest: string)
    requires |open| == 1 && body != ""
    ensures (open + body + close + rest)[1..] == body + close + rest
    ensures (open + body + close + rest)[0] == open[0] && (open + body + close + rest)[1] == body[0]
    ensures |open + body + close + rest| > 1
  {
  }

  lemma ItemsText(items: seq<Json>)
    requires items != []
    ensures |items| == 1 ==> items == [items[0]] && EncodeItems(items) == Encode(items[0])
    ensures |items| > 1 ==> items == [items[0]] + items[1..] && items[1..] != []
                            && EncodeItems(items) == Encode(items[0]) + "," + EncodeItems(items[1..])
  {
    hide Encode;
  }

  /** Re-associates the pieces of a list. */
  lemma Pieces(a: string, b: string, c: string, rest: string)
    ensures a + b + c + rest == a + (b + c + rest)
    ensures a + "," + b + c + rest == a + ("," + (b + c + rest))
    ensures a != "" ==> (a + b)[0] == a[0] && (a + "," + b)[0] == a[0] && a + "," + b != ""
  {
  }

  lemma {:induction false} ItemsComeBack(items: seq<Json>, rest: string)
    requires items != []
    ensures InertChars(EncodeItems(items)) != "" && InertChars(EncodeItems(items))[0] !in {']', '}', ','}
    ensures ParseItems(InertChars(EncodeItems(items)) + "]" + rest) == Some((items, rest))
    decreases items, 0
  {
    hide *;
    ItemsText(items);
    var first := InertChars(Encode(items[0]));
    if |items| == 1 {
      MayFollow("]", rest);
      ValueComesBack(items[0], "]" + rest);
      Pieces(first, "", "]", rest);
      Joined(first, "]", rest);
      LastItem(first + ("]" + rest), items[0], rest);
    } else {
      var more := InertChars(EncodeItems(items[1..]));
      var tail := more + "]" + rest;
      Comma(Encode(items[0]), EncodeItems(items[1..]));
      MayFollow(",", tail);
      ValueComesBack(items[0], "," + tail);
      ItemsComeBack(items[1..], rest);
      Pieces(first, more, "]", rest);
      OneItem(first + ("," + tail), items[0], tail, items[1..], rest);
    }
  }

  lemma Joined(a: string, b: string, c: string)
    ensures a + b + c == a + (b + c)
  {
  }

  lemma MayFollow(mark: string, rest: string)
    requires mark in {"]", "}", ","}
    ensures Follows(mark + rest)
  {
    assert (mark + rest)[0] == mark[0];
  }

  lemma Comma(a: string, b: string)
    ensures InertChars(a + "," + b) == InertChars(a) + "," + InertChars(b)
  {
    CharwiseConcat(a + ",", b);
    CharwiseConcat(a, ",");
    PlainInert(",");
    hide InertChars;
  }

  lemma {:induction false} ObjectComesBack(fields: seq<Field>, rest: string)
    requires Follows(rest)
    ensures Parse(InertChars(Encode(Obj(fields))) + rest) == Some((Obj(fields), rest))
    ensures InertChars(Encode(Obj(fields))) != "" && InertChars(Encode(Obj(fields)))[0] == '{'
    decreases fields, 3
  {
    hide *;
    ObjectText(fields);
    if fields == [] {
      ParseWord("{}", Obj([]), rest);
    } else {
      var body := InertChars(EncodeFields(fields));
      FieldsComeBack(fields, rest);
      OpenPieces("{", body, "}", rest);
      ParseByFirst("{" + body + "}" + rest);
    }
  }

  lemma ObjectText(fields: seq<Field>)
    ensures InertChars(Encode(Obj(fields))) == if fields == []
              then "{}" else "{" + InertChars(EncodeFields(fields)) + "}"
    ensures InertChars(Encode(Obj(fields))) != "" && InertChars(Encode(Obj(fields)))[0] == '{'
  {
    Bracketed("{", EncodeFields(fields), "}");
    assert Encode(Obj(fields)) == "{" + EncodeFields(fields) + "}";
    assert fields == [] ==> EncodeFields(fields) == "" && InertChars("") == "";
    hide InertChars, EncodeFields, Encode;
  }

  lemma {:induction false} FieldComesBack(field: Field, rest: string)
    requires Follows(rest)
    ensures ParseField(InertChars(EncodeField(field)) + rest) == Some((field, rest))
    ensures InertChars(EncodeField(field)) != "" && InertChars(EncodeField(field))[0] == '"'
    decreases field, 0
  {
    FieldText(field);
    hide EncodeField, InertChars, Encode, Parse, ParseString, Escape, ParseField, Follows;
    var body, value := InertChars(Escape(field.name)), InertChars(Encode(field.value));
    StringComesBack(field.name, ":" + (value + rest));
    ValueComesBack(field.value, rest);
    NameAndValue(body + "\"" + (":" + (value + rest)), field.name, value + rest, field.value, rest);
    FieldPieces(body, value, rest);
  }

  lemma FieldText(field: Field)
    ensures InertChars(EncodeField(field)) == "\"" + InertChars(Escape(field.name)) + "\"" + ":"
              + InertChars(Encode(field.value))
  {
    hide EncodeString, Encode;
    CharwiseConcat(EncodeString(field.name) + ":", Encode(field.value));
    CharwiseConcat(EncodeString(field.name), ":");
    PlainInert(":");
    StringInert(field.name);
    hide InertChars;
  }

  lemma FieldPieces(body: string, value: string, rest: string)
    ensures "\"" + (body + "\"" + (":" + (value + rest))) == ("\"" + body + "\"" + ":" + value) + rest
    ensures ("\"" + body + "\"" + ":" + value)[0] == '"'
  {
  }

  lemma FieldsText(fields: seq<Field>)
    requires fields != []
    ensures |fields| == 1 ==> fields == [fields[0]] && EncodeFields(fields) == EncodeField(fields[0])
    ensures |fields| > 1 ==> fields == [fields[0]] + fields[1..] && fields[1..] != []
                             && EncodeFields(fields) == EncodeField(fields[0]) + "," + EncodeFields(fields[1..])
  {
    hide EncodeField;
  }

  lemma {:induction false} FieldsComeBack(fields: seq<Field>, rest: string)
    requires fields != []
    ensures InertChars(EncodeFields(fields)) != "" && InertChars(EncodeFields(fields))[0] == '"'
    ensures ParseFields(InertChars(EncodeFields(fields)) + "}" + rest) == Some((fields, rest))
    decreases fields, 1
  {
    hide *;
    FieldsText(fields);
    var first := InertChars(EncodeField(fields[0]));
    if |fields| == 1 {
      MayFollow("}", rest);
      FieldComesBack(fields[0], "}" + rest);
      Joined(first, "}", rest);
      LastField(first + ("}" + rest), fields[0], rest);
    } else {
      var more := InertChars(EncodeFields(fields[1..]));
      var tail := more + "}" + rest;
      Comma(EncodeField(fields[0]), EncodeFields(fields[1..]));
      MayFollow(",", tail);
      FieldComesBack(fields[0], "," + tail);
      FieldsComeBack(fields[1..], rest);
      Pieces(first, more, "}", rest);
      OneField(first + ("," + tail), fields[0], tail, fields[1..], rest);
    }
  }

  /** The inert text decodes to exactly the value that was serialized. */
  lemma NothingLost(v: Json)
    ensures Parse(SafeJsonDumps(v)) == Some((v, ""))
  {
    hide *;
    DumpsCharwise(v);
    ValueComesBack(v, "");
    NoTail(InertChars(Encode(v)));
  }

  lemma DumpsCharwise(v: Json)
    ensures SafeJsonDumps(v) == InertChars(Encode(v)) && Follows("")
  {
    hide Inert, Encode;
    InertIsCharwise(Encode(v));
  }

  lemma NoTail(text: string)
    ensures text + "" == text
  {
  }

  /** Different values never share a rendering. */
  lemma DumpsInjective(v: Json, w: Json)
    requires SafeJsonDumps(v) == SafeJsonDumps(w)
    ensures v == w
  {
    hide *;
    NothingLost(v);
    NothingLost(w);
  }
}
