/**
 Go strings and the few library routines on them that the core relies on. A Go string is a
 sequence of bytes: every character of a Dafny `string` in this project stands for one byte.
*/
module Text {

  /** strings.Compare: byte-wise lexicographic order, a proper prefix first. */
  function Compare(left: string, right: string): (r: int)
    ensures -1 <= r <= 1
  {
    if left == right then 0
    else if left == "" then -1
    else if right == "" then 1
    else if left[0] < right[0] then -1
    else if left[0] > right[0] then 1
    else Compare(left[1..], right[1..])
  }

  /** The `<` of Go strings. */
  predicate Less(left: string, right: string) {
    Compare(left, right) < 0
  }

  lemma {:induction false} CompareFlips(left: string, right: string)
    ensures Compare(left, right) == -Compare(right, left)
    ensures Compare(left, right) == 0 <==> left == right
  {
    if left != "" && right != "" && left[0] == right[0] {
      assert left == [left[0]] + left[1..] && right == [right[0]] + right[1..];
      CompareFlips(left[1..], right[1..]);
    }
  }

  lemma {:induction false} LessTransitive(a: string, b: string, c: string)
    requires Less(a, b) && Less(b, c)
    ensures Less(a, c)
  {
    if a != "" && c != "" && a[0] == c[0] {
      CompareFlips(b, b);
      assert b[0] == a[0];
      LessTransitive(a[1..], b[1..], c[1..]);
    }
    CompareFlips(a, b);
    CompareFlips(b, c);
  }

  /** They agree up to k, and there left ends or has the smaller byte. */
  ghost predicate EarlierAt(left: string, right: string, k: nat) {
    && k <= |left| && k < |right| && left[..k] == right[..k]
    && (k == |left| || left[k] < right[k])
  }

  /** Byte order: at the first difference the smaller byte comes first, and a proper prefix before the longer text. */
  lemma {:induction false} LessMeans(left: string, right: string)
    ensures Less(left, right) <==> exists k: nat :: EarlierAt(left, right, k)
  {
    forall k: nat | EarlierAt(left, right, k) && k > 0
      ensures left != "" && right != "" && left[0] == right[0]
    {
      SameStart(left, right, k);
    }
    if left != "" && right != "" && left[0] == right[0] {
      LessMeans(left[1..], right[1..]);
      assert left == [left[0]] + left[1..] && right == [right[0]] + right[1..];
      if k: nat :| EarlierAt(left[1..], right[1..], k) {
        assert left[..k + 1] == [left[0]] + left[1..][..k] && right[..k + 1] == [right[0]] + right[1..][..k];
        assert EarlierAt(left, right, k + 1);
      }
      if k: nat :| EarlierAt(left, right, k) && k > 0 {
        assert left[1..][..k - 1] == left[..k][1..] && right[1..][..k - 1] == right[..k][1..];
        assert EarlierAt(left[1..], right[1..], k - 1);
      }
    } else if right != "" && (left == "" || left[0] < right[0]) {
      assert EarlierAt(left, right, 0);
    }
  }

  lemma SameStart(left: string, right: string, k: nat)
    requires EarlierAt(left, right, k) && k > 0
    ensures left != "" && right != "" && left[0] == right[0]
  {
    assert left[..k][0] == right[..k][0];
  }

  /** strings.Split on a one-byte separator. */
  function Split(s: string, separator: char): (parts: seq<string>)
    ensures |parts| >= 1
  {
    if s == "" then [""]
    else
      var rest := Split(s[1..], separator);
      if s[0] == separator then [""] + rest
      else [[s[0]] + rest[0]] + rest[1..]
  }

  /** strings.Join. */
  function Join(parts: seq<string>, separator: string): string {
    if |parts| == 0 then ""
    else if |parts| == 1 then parts[0]
    else parts[0] + separator + Join(parts[1..], separator)
  }

  /** Splitting loses nothing, so two strings with the same parts are the same string. */
  lemma {:induction false} JoinSplit(s: string, separator: char)
    ensures Join(Split(s, separator), [separator]) == s
  {
    if s != "" {
      var rest := Split(s[1..], separator);
      JoinSplit(s[1..], separator);
      assert s == [s[0]] + s[1..];
      if s[0] == separator {
        assert ([""] + rest)[1..] == rest;
      } else {
        JoinHead(s[0], rest, [separator]);
      }
    }
  }

  lemma JoinHead(c: char, parts: seq<string>, separator: string)
    requires parts != []
    ensures Join([[c] + parts[0]] + parts[1..], separator) == [c] + Join(parts, separator)
  {
    var longer := [[c] + parts[0]] + parts[1..];
    if |parts| > 1 {
      assert longer[1..] == parts[1..];
      assert ([c] + parts[0]) + separator + Join(parts[1..], separator)
          == [c] + (parts[0] + separator + Join(parts[1..], separator));
    }
  }

  /** A string without the separator is one part. */
  lemma {:induction false} SplitNone(s: string, separator: char)
    requires separator !in s
    ensures Split(s, separator) == [s]
  {
    if s != "" {
      SplitNone(s[1..], separator);
      assert s == [s[0]] + s[1..];
    }
  }

  /** The text before the first separator is the first part. */
  lemma {:induction false} SplitFirst(part: string, rest: string, separator: char)
    requires separator !in part
    ensures Split(part + [separator] + rest, separator) == [part] + Split(rest, separator)
  {
    var s := part + [separator] + rest;
    if part == "" {
      assert s[1..] == rest;
    } else {
      assert s[1..] == part[1..] + [separator] + rest;
      SplitFirst(part[1..], rest, separator);
      assert part == [part[0]] + part[1..];
    }
  }

  /** Parts without the separator come back from their list. */
  lemma {:induction false} SplitJoin(parts: seq<string>, separator: char)
    requires parts != [] && forall i | 0 <= i < |parts| :: separator !in parts[i]
    ensures Split(Join(parts, [separator]), separator) == parts
  {
    if |parts| == 1 {
      SplitNone(parts[0], separator);
    } else {
      SplitFirst(parts[0], Join(parts[1..], [separator]), separator);
      SplitJoin(parts[1..], separator);
      assert parts == [parts[0]] + parts[1..];
    }
  }

  /** No part of a split holds the separator. */
  lemma {:induction false} SplitParts(s: string, separator: char)
    ensures forall i | 0 <= i < |Split(s, separator)| :: separator !in Split(s, separator)[i]
    ensures forall i, j | 0 <= i < |Split(s, separator)| && 0 <= j < |Split(s, separator)[i]| ::
        Split(s, separator)[i][j] in s
  {
    if s != "" {
      SplitParts(s[1..], separator);
      assert forall c | c in s[1..] :: c in s;
    }
  }

  /** Two texts are equal, and equal before their first separator, when the wholes are. */
  lemma FirstSeparator(a: string, restA: string, b: string, restB: string, separator: char)
    requires separator !in a && separator !in b && a + [separator] + restA == b + [separator] + restB
    ensures a == b && restA == restB
  {
    var m := a + [separator] + restA;
    assert m[|a|] == separator && m[|b|] == separator;
    assert forall i | 0 <= i < |a| :: m[i] == a[i];
    assert forall i | 0 <= i < |b| :: m[i] == b[i];
    assert a == m[..|a|] && b == m[..|b|];
    assert restA == m[|a| + 1..] && restB == m[|b| + 1..];
  }

  predicate Plain(parts: seq<string>) {
    forall i | 0 <= i < |parts| :: parts[i] != "" && ',' !in parts[i]
  }

  /** Parts without commas can be read back from their list. */
  lemma {:induction false} ListInjective(a: seq<string>, b: seq<string>)
    requires Plain(a) && Plain(b)
    requires Join(a, ", ") == Join(b, ", ")
    ensures a == b
  {
    if |a| > 1 && |b| > 1 {
      JoinFirst(a);
      JoinFirst(b);
      FirstSeparator(a[0], " " + Join(a[1..], ", "), b[0], " " + Join(b[1..], ", "), ',');
      assert (" " + Join(a[1..], ", "))[1..] == Join(a[1..], ", ");
      assert (" " + Join(b[1..], ", "))[1..] == Join(b[1..], ", ");
      ListInjective(a[1..], b[1..]);
      assert a == [a[0]] + a[1..] && b == [b[0]] + b[1..];
    } else {
      JoinHasComma(a);
      JoinHasComma(b);
    }
  }

  lemma JoinHasComma(parts: seq<string>)
    ensures |parts| > 1 ==> ',' in Join(parts, ", ")
  {
    if |parts| > 1 {
      JoinFirst(parts);
      assert Join(parts, ", ")[|parts[0]|] == ',';
    }
  }

  lemma JoinFirst(parts: seq<string>)
    requires |parts| > 1
    ensures Join(parts, ", ") == parts[0] + [','] + (" " + Join(parts[1..], ", "))
  {
  }

  predicate IsDigit(c: char) { '0' <= c <= '9' }

  predicate AllDigits(s: string) {
    forall i | 0 <= i < |s| :: IsDigit(s[i])
  }

  /** A decimal numeral as a reader of numbers writes it: no leading zero. */
  predicate Canonical(s: string) {
    s != "" && AllDigits(s) && (|s| == 1 || s[0] != '0')
  }

  /** The number a run of decimal digits denotes. */
  function Value(s: string): nat
    requires AllDigits(s)
  {
    if s == "" then 0
    else 10 * Value(s[..|s| - 1]) + (s[|s| - 1] as int - '0' as int)
  }

  /** strconv.Itoa and `%d` of a non-negative number. */
  function Decimal(n: nat): (s: string)
    ensures Canonical(s)
  {
    if n < 10 then [('0' as int + n) as char]
    else Decimal(n / 10) + [('0' as int + n % 10) as char]
  }

  /** strconv.Itoa of any integer. */
  function FormatInt(n: int): string { if n < 0 then "-" + Decimal(-n) else Decimal(n) }

  lemma {:induction false} ValueOfDecimal(n: nat)
    ensures Value(Decimal(n)) == n
  {
    var s := Decimal(n);
    if n < 10 {
      assert s[..0] == "";
    } else {
      ValueOfDecimal(n / 10);
      assert s[..|s| - 1] == Decimal(n / 10);
    }
  }

  lemma {:induction false} ValuePositive(s: string)
    requires Canonical(s) && s != "0"
    ensures Value(s) > 0
  {
    var prefix := s[..|s| - 1];
    if |s| > 1 {
      assert Canonical(prefix);
      ValuePositive(prefix);
    } else {
      assert s == [s[0]];
    }
  }

  /** Without leading zeros the digits are determined by the number. */
  lemma {:induction false} DecimalOfValue(s: string)
    requires Canonical(s)
    ensures Decimal(Value(s)) == s
  {
    var prefix, last := s[..|s| - 1], s[|s| - 1];
    assert s == prefix + [last];
    if |s| == 1 {
      assert prefix == "";
    } else {
      assert Canonical(prefix);
      ValuePositive(prefix);
      DecimalOfValue(prefix);
    }
  }

  /** Places count as in writing: what stands before k digits counts 10^k times. */
  lemma {:induction false} ValuePlaces(high: string, low: string)
    requires AllDigits(high) && AllDigits(low)
    ensures AllDigits(high + low) && Value(high + low) == Value(high) * Pow10(|low|) + Value(low)
    ensures forall c | IsDigit(c) :: Value([c]) == c as int - '0' as int
  {
    var s := high + low;
    assert forall c | IsDigit(c) :: [c][..0] == "";
    if low == "" {
      assert s == high;
    } else {
      var front := low[..|low| - 1];
      assert s[..|s| - 1] == high + front;
      ValuePlaces(high, front);
      PlaceUp(Value(high), Pow10(|front|), Value(front));
    }
  }

  lemma PlaceUp(high: int, place: int, low: int)
    ensures 10 * (high * place + low) == high * (10 * place) + 10 * low
  {
  }

  /** The decimal digits of a number are those that denote it, with a minus sign before them below zero. */
  lemma FormatIntMeans(n: int)
    ensures n >= 0 ==> Canonical(FormatInt(n)) && Value(FormatInt(n)) == n
    ensures n < 0 ==> exists digits: string :: FormatInt(n) == "-" + digits && Canonical(digits) && Value(digits) == -n
  {
    ValueOfDecimal(if n < 0 then -n else n);
  }

  function Pow10(k: nat): nat { if k == 0 then 1 else 10 * Pow10(k - 1) }

  /** A number below a power of ten has at most that many digits. */
  lemma {:induction false} DecimalLength(n: nat, k: nat)
    requires k > 0 && n < Pow10(k)
    ensures |Decimal(n)| <= k
  {
    if n >= 10 {
      DecimalLength(n / 10, k - 1);
    }
  }
}

/**
 UTF-8 as Go reads it, and what JSON makes of a string: json.Marshal writes U+FFFD for every byte
 that does not belong to a well-formed sequence (section 4 of RFC 3629).
*/
module Utf8 {
  import Sequences

  /** U+FFFD in UTF-8. */
  const REPLACEMENT := [0xEF as char, 0xBF as char, 0xBD as char]

  predicate InRange(c: char, low: int, high: int) { low <= c as int <= high }

  predicate Tail(c: char) { InRange(c, 0x80, 0xBF) }

  /** The length of the well-formed sequence that the text starts with, or zero. */
  function RuneLength(s: string): (n: nat)
    ensures n <= |s|
  {
    if |s| >= 1 && InRange(s[0], 0, 0x7F) then 1
    else if |s| >= 2 && InRange(s[0], 0xC2, 0xDF) && Tail(s[1]) then 2
    else if |s| >= 3 && SecondOfThree(s[0], s[1]) && Tail(s[2]) then 3
    else if |s| >= 4 && SecondOfFour(s[0], s[1]) && Tail(s[2]) && Tail(s[3]) then 4
    else 0
  }

  predicate SecondOfThree(first: char, second: char) {
    || (InRange(first, 0xE0, 0xE0) && InRange(second, 0xA0, 0xBF))
    || (InRange(first, 0xE1, 0xEC) && Tail(second))
    || (InRange(first, 0xED, 0xED) && InRange(second, 0x80, 0x9F))
    || (InRange(first, 0xEE, 0xEF) && Tail(second))
  }

  predicate SecondOfFour(first: char, second: char) {
    || (InRange(first, 0xF0, 0xF0) && InRange(second, 0x90, 0xBF))
    || (InRange(first, 0xF1, 0xF3) && Tail(second))
    || (InRange(first, 0xF4, 0xF4) && InRange(second, 0x80, 0x8F))
  }

  /** The characters of Unicode that UTF-8 encodes: no surrogates. */
  predicate Scalar(code: int) { 0 <= code < 0xD800 || 0xE000 <= code < 0x11_0000 }

  function TailOf(bits: int): char
    requires 0 <= bits < 64
  {
    (0x80 + bits) as char
  }

  /** Section 3 of RFC 3629: the bits of a character, six to every byte but the first. */
  function Encoded(code: int): (s: string)
    requires Scalar(code)
  {
    if code < 0x80 then [code as char]
    else if code < 0x800 then [(0xC0 + code / 64) as char, TailOf(code % 64)]
    else if code < 0x1_0000 then [(0xE0 + code / 4096) as char, TailOf(code / 64 % 64), TailOf(code % 64)]
    else
      [(0xF0 + code / 262144) as char, TailOf(code / 4096 % 64), TailOf(code / 64 % 64), TailOf(code % 64)]
  }

  /** The bits of a sequence of one to four bytes. */
  function Decoded(s: string): int
    requires 1 <= |s| <= 4
  {
    if |s| == 1 then s[0] as int
    else if |s| == 2 then (s[0] as int - 0xC0) * 64 + (s[1] as int - 0x80)
    else if |s| == 3 then (s[0] as int - 0xE0) * 4096 + (s[1] as int - 0x80) * 64 + (s[2] as int - 0x80)
    else
      (s[0] as int - 0xF0) * 262144 + (s[1] as int - 0x80) * 4096 + (s[2] as int - 0x80) * 64 + (s[3] as int - 0x80)
  }

  /** The encoding of a character is a well-formed sequence. */
  lemma EncodedIsRune(code: int, rest: string)
    requires Scalar(code)
    ensures RuneLength(Encoded(code) + rest) == |Encoded(code)|
  {
    var rune := Encoded(code);
    var s := rune + rest;
    assert s[0] == rune[0] && forall i | 0 <= i < |rune| :: s[i] == rune[i];
    if |rune| == 3 {
      ThreeEncoded(code);
    } else if |rune| == 4 {
      FourEncoded(code);
    }
  }

  lemma ThreeEncoded(code: int)
    requires Scalar(code) && 0x800 <= code < 0x1_0000
    ensures var rune := Encoded(code);
      |rune| == 3 && SecondOfThree(rune[0], rune[1]) && Tail(rune[2]) && !InRange(rune[0], 0, 0xDF)
  {
    assert code / 64 % 64 == code / 64 - code / 4096 * 64;
  }

  lemma FourEncoded(code: int)
    requires Scalar(code) && 0x1_0000 <= code
    ensures var rune := Encoded(code);
      && |rune| == 4 && SecondOfFour(rune[0], rune[1]) && Tail(rune[2]) && Tail(rune[3])
      && !InRange(rune[0], 0, 0xEF)
  {
    assert code / 4096 % 64 == code / 4096 - code / 262144 * 64;
  }

  /** There are no other well-formed sequences than the encodings of characters. */
  lemma RuneIsEncoded(s: string)
    requires RuneLength(s) > 0
    ensures var rune := s[..RuneLength(s)]; Scalar(Decoded(rune)) && Encoded(Decoded(rune)) == rune
  {
    var rune := s[..RuneLength(s)];
    if |rune| == 2 {
      TwoBytes(rune);
    } else if |rune| == 3 {
      ThreeBytes(rune);
    } else if |rune| == 4 {
      FourBytes(rune);
    }
  }

  lemma LowBits(high: int, low: int)
    requires 0 <= low < 64
    ensures (high * 64 + low) / 64 == high && (high * 64 + low) % 64 == low
  {
  }

  lemma TwoBytes(s: string)
    requires |s| == 2 && InRange(s[0], 0xC2, 0xDF) && Tail(s[1])
    ensures Scalar(Decoded(s)) && Encoded(Decoded(s)) == s
  {
    LowBits(s[0] as int - 0xC0, s[1] as int - 0x80);
  }

  lemma ThreeBytes(s: string)
    requires |s| == 3 && SecondOfThree(s[0], s[1]) && Tail(s[2])
    ensures Scalar(Decoded(s)) && Encoded(Decoded(s)) == s
  {
    var a, b, c := s[0] as int - 0xE0, s[1] as int - 0x80, s[2] as int - 0x80;
    LowBits(a, b);
    LowBits(a * 64 + b, c);
    assert Decoded(s) == (a * 64 + b) * 64 + c && Decoded(s) / 4096 == a;
  }

  lemma FourBytes(s: string)
    requires |s| == 4 && SecondOfFour(s[0], s[1]) && Tail(s[2]) && Tail(s[3])
    ensures Scalar(Decoded(s)) && Encoded(Decoded(s)) == s
  {
    var a, b, c, d := s[0] as int - 0xF0, s[1] as int - 0x80, s[2] as int - 0x80, s[3] as int - 0x80;
    LowBits(a, b);
    LowBits(a * 64 + b, c);
    LowBits((a * 64 + b) * 64 + c, d);
    var n := ((a * 64 + b) * 64 + c) * 64 + d;
    assert Decoded(s) == n && n / 64 / 64 == n / 4096 == a * 64 + b && n / 262144 == a;
  }

  predicate ValidText(s: string) {
    s == "" || (RuneLength(s) > 0 && ValidText(s[RuneLength(s)..]))
  }

  /** What is read back after a string was written as JSON. */
  function ThroughJson(s: string): string {
    if s == "" then ""
    else if RuneLength(s) > 0 then s[..RuneLength(s)] + ThroughJson(s[RuneLength(s)..])
    else REPLACEMENT + ThroughJson(s[1..])
  }

  /** A well-formed sequence is recognized whatever follows it. */
  lemma RuneStands(s: string, rest: string)
    requires RuneLength(s) > 0
    ensures RuneLength(s[..RuneLength(s)] + rest) == RuneLength(s)
  {
  }

  /** What comes out of JSON is well-formed. */
  lemma {:induction false} JsonIsValid(s: string)
    ensures ValidText(ThroughJson(s))
  {
    if s != "" {
      var n := RuneLength(s);
      if n > 0 {
        JsonIsValid(s[n..]);
        RuneStands(s, ThroughJson(s[n..]));
        assert (s[..n] + ThroughJson(s[n..]))[n..] == ThroughJson(s[n..]);
      } else {
        JsonIsValid(s[1..]);
        RuneStands(REPLACEMENT, ThroughJson(s[1..]));
        assert REPLACEMENT[..3] == REPLACEMENT;
        assert (REPLACEMENT + ThroughJson(s[1..]))[3..] == ThroughJson(s[1..]);
      }
    }
  }

  /** A string survives JSON exactly when it is well-formed. */
  lemma JsonKeeps(s: string)
    ensures ThroughJson(s) == s <==> ValidText(s)
  {
    if ThroughJson(s) == s {
      JsonIsValid(s);
    }
    if ValidText(s) {
      ValidKept(s);
    }
  }

  lemma {:induction false} ValidKept(s: string)
    requires ValidText(s)
    ensures ThroughJson(s) == s
  {
    if s != "" {
      ValidKept(s[RuneLength(s)..]);
    }
  }

  lemma RuneThrough(rune: string, rest: string)
    requires rune != "" && RuneLength(rune) == |rune|
    ensures ThroughJson(rune + rest) == rune + ThroughJson(rest)
  {
    assert rune[..|rune|] == rune;
    RuneStands(rune, rest);
    assert (rune + rest)[..|rune|] == rune && (rune + rest)[|rune|..] == rest;
  }

  /** Well-formed text stays, whatever follows it. */
  lemma {:induction false} ValidThrough(before: string, rest: string)
    requires ValidText(before)
    ensures ThroughJson(before + rest) == before + ThroughJson(rest)
  {
    if before == "" {
      assert before + rest == rest;
    } else {
      var rune, tail := before[..RuneLength(before)], before[RuneLength(before)..];
      FirstRune(before);
      ValidThrough(tail, rest);
      RuneThrough(rune, tail + rest);
      Sequences.Associative(rune, tail, rest);
      Sequences.Associative(rune, tail, ThroughJson(rest));
    }
  }

  lemma FirstRune(s: string)
    requires RuneLength(s) > 0
    ensures var rune := s[..RuneLength(s)]; RuneLength(rune) == |rune| && rune + s[|rune|..] == s
  {
    RuneStands(s, "");
    assert s[..RuneLength(s)] + "" == s[..RuneLength(s)];
  }

  /** A byte that starts no well-formed sequence becomes U+FFFD, and what stands before it stays. */
  lemma BadByteReplaced(before: string, s: string)
    requires ValidText(before) && s != "" && RuneLength(s) == 0
    ensures ThroughJson(before + s) == before + (Encoded(0xFFFD) + ThroughJson(s[1..]))
  {
    ValidThrough(before, s);
  }

  predicate Ascii(s: string) { forall i | 0 <= i < |s| :: s[i] as int < 0x80 }

  lemma {:induction false} AsciiIsValid(s: string)
    requires Ascii(s)
    ensures ValidText(s)
  {
    if s != "" {
      AsciiIsValid(s[1..]);
    }
  }

  lemma AsciiKept(s: string)
    requires Ascii(s)
    ensures ThroughJson(s) == s
  {
    AsciiIsValid(s);
    JsonKeeps(s);
  }
}
