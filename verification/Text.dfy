/** Code-point order on strings, and zero-padded decimal numerals. */
module Text {

  predicate Less(a: string, b: string) {
    if b == "" then false
    else if a == "" then true
    else if a[0] != b[0] then a[0] < b[0]
    else Less(a[1..], b[1..])
  }

  lemma {:induction false} LessTotal(a: string, b: string)
    ensures a == b || Less(a, b) || Less(b, a)
  {
    if a != "" && b != "" && a[0] == b[0] {
      LessTotal(a[1..], b[1..]);
      assert a == [a[0]] + a[1..] && b == [b[0]] + b[1..];
    }
  }

  lemma {:induction false} LessAsymmetric(a: string, b: string)
    requires Less(a, b)
    ensures !Less(b, a) && a != b
  {
    if a != "" && a[0] == b[0] {
      LessAsymmetric(a[1..], b[1..]);
    }
  }

  lemma {:induction false} LessTransitive(a: string, b: string, c: string)
    requires Less(a, b) && Less(b, c)
    ensures Less(a, c)
  {
    if a != "" && a[0] == b[0] && b[0] == c[0] {
      LessTransitive(a[1..], b[1..], c[1..]);
    }
  }

  // ---------------------------------------------------------------- numerals

  const DIGITS := "0123456789"

  function Decimal(n: nat): string {
    if n < 10 then [DIGITS[n]] else Decimal(n / 10) + [DIGITS[n % 10]]
  }

  function Zeros(n: nat): string {
    seq(n, _ => '0')
  }

  /** '%0<width>d' of a natural number. */
  function Padded(n: nat, width: nat): string {
    var digits := Decimal(n);
    if |digits| < width then Zeros(width - |digits|) + digits else digits
  }

  function Value(numeral: string): int {
    if numeral == "" then 0
    else 10 * Value(numeral[..|numeral| - 1]) + (numeral[|numeral| - 1] as int - '0' as int)
  }

  lemma {:induction false} DecimalValue(n: nat)
    ensures Value(Decimal(n)) == n && Decimal(n) != ""
  {
    assert forall d :: 0 <= d < 10 ==> DIGITS[d] as int - '0' as int == d;
    if n < 10 {
      assert Decimal(n)[..0] == "";
    } else {
      DecimalValue(n / 10);
      assert Decimal(n)[..|Decimal(n)| - 1] == Decimal(n / 10);
    }
  }

  lemma {:induction false} LeadingZeros(k: nat, digits: string)
    ensures Value(Zeros(k) + digits) == Value(digits)
  {
    var all := Zeros(k) + digits;
    if digits != "" {
      assert all[..|all| - 1] == Zeros(k) + digits[..|digits| - 1];
      LeadingZeros(k, digits[..|digits| - 1]);
    } else if k != 0 {
      assert all[..|all| - 1] == Zeros(k - 1) + digits;
      LeadingZeros(k - 1, digits);
    }
  }

  lemma PaddedInjective(m: nat, n: nat, width: nat)
    requires Padded(m, width) == Padded(n, width)
    ensures m == n
  {
    PaddedValue(m, width);
    PaddedValue(n, width);
  }

  lemma PaddedValue(n: nat, width: nat)
    ensures Value(Padded(n, width)) == n
  {
    DecimalValue(n);
    if |Decimal(n)| < width {
      LeadingZeros(width - |Decimal(n)|, Decimal(n));
    }
  }

  // ---------------------------------------------------------------- splitting

  function Prepend(c: char, separator: char, parts: seq<string>): seq<string>
    requires parts != []
  {
    if c == separator then [""] + parts else [[c] + parts[0]] + parts[1..]
  }

  /** The parts between the separators. */
  function Split(text: string, separator: char): (parts: seq<string>)
    ensures parts != []
  {
    if text == "" then [""] else Prepend(text[0], separator, Split(text[1..], separator))
  }

  function Join(parts: seq<string>, separator: char): string {
    if parts == [] then ""
    else if |parts| == 1 then parts[0]
    else parts[0] + [separator] + Join(parts[1..], separator)
  }

  /** The parts after one more terminated piece is appended to the text. */
  function WithTail(parts: seq<string>, tail: string): seq<string>
    requires parts != []
  {
    var last := |parts| - 1;
    parts[..last] + [parts[last] + tail, ""]
  }

  lemma PrependTail(c: char, separator: char, parts: seq<string>, tail: string)
    requires parts != []
    ensures Prepend(c, separator, WithTail(parts, tail)) == WithTail(Prepend(c, separator, parts), tail)
  {
    if c != separator && |parts| == 1 {
      assert [c] + (parts[0] + tail) == ([c] + parts[0]) + tail;
    }
  }

  lemma {:induction false} SplitTail(text: string, tail: string, separator: char)
    requires separator !in tail
    ensures Split(text + tail + [separator], separator) == WithTail(Split(text, separator), tail)
  {
    if text == "" {
      assert text + tail + [separator] == tail + [separator] && "" + tail == tail;
      SplitOne(tail, separator);
    } else {
      var all := text + tail + [separator];
      assert all[0] == text[0] && all[1..] == text[1..] + tail + [separator];
      SplitTail(text[1..], tail, separator);
      hide WithTail, Prepend;
      PrependTail(text[0], separator, Split(text[1..], separator), tail);
    }
  }

  lemma {:induction false} SplitOne(line: string, separator: char)
    requires separator !in line
    ensures Split(line + [separator], separator) == [line, ""]
  {
    if line != "" {
      assert (line + [separator])[1..] == line[1..] + [separator];
      SplitOne(line[1..], separator);
      assert [line[0]] + line[1..] == line;
    } else {
      assert [separator][1..] == "";
    }
  }

  // ---------------------------------------------------------------- joining

  lemma {:induction false} SplitWord(word: string, rest: string, separator: char)
    requires separator !in word
    ensures Split(word, separator) == [word]
    ensures Split(word + [separator] + rest, separator) == [word] + Split(rest, separator)
  {
    var all := word + [separator] + rest;
    if word == "" {
      assert all[0] == separator && all[1..] == rest;
    } else {
      assert all[0] == word[0] && all[1..] == word[1..] + [separator] + rest;
      SplitWord(word[1..], rest, separator);
      assert [word[0]] + word[1..] == word;
    }
  }

  /** Splitting undoes joining. */
  lemma {:induction false} SplitJoin(parts: seq<string>, separator: char)
    requires parts != [] && forall i :: 0 <= i < |parts| ==> separator !in parts[i]
    ensures Split(Join(parts, separator), separator) == parts
  {
    SplitWord(parts[0], if |parts| == 1 then "" else Join(parts[1..], separator), separator);
    if |parts| == 1 {
      assert parts == [parts[0]];
    } else {
      SplitJoin(parts[1..], separator);
      assert parts == [parts[0]] + parts[1..];
    }
  }

  lemma {:induction false} JoinAppend(a: seq<string>, b: seq<string>, separator: char)
    requires a != [] && b != []
    ensures Join(a + b, separator) == Join(a, separator) + [separator] + Join(b, separator)
  {
    assert (a + b)[0] == a[0] && (a + b)[1..] == a[1..] + b;
    if |a| > 1 {
      JoinAppend(a[1..], b, separator);
    } else {
      assert a[1..] + b == b;
    }
  }
}
