/** Hexadecimal numbers as the host prints them and as the devices read them back. */
module Hex {
  import opened Words

  // ----- printing

  function Digit(d: nat): (c: char)
    requires d < 16
    ensures HexValue(c) == d && c != ' '
  {
    if d < 10 then '0' + (d as char) else 'a' + ((d - 10) as char)
  }

  /** `std::hex` output: lower case, no leading zeros. */
  function Print(v: nat): (s: string)
    ensures s != "" && AllHex(s)
  {
    if v < 16 then [Digit(v)] else Print(v / 16) + [Digit(v % 16)]
  }

  /** Value of a hexadecimal digit; 16 for any other character. */
  function HexValue(c: char): nat {
    if '0' <= c <= '9' then (c - '0') as nat
    else if 'a' <= c <= 'f' then (c - 'a') as nat + 10
    else if 'A' <= c <= 'F' then (c - 'A') as nat + 10
    else 16
  }

  predicate IsHex(c: char) {
    HexValue(c) < 16
  }

  predicate AllHex(s: string) {
    forall k :: 0 <= k < |s| ==> IsHex(s[k])
  }

  /** The number a string of hexadecimal digits stands for. */
  function Value(s: string): nat
    requires AllHex(s)
  {
    if s == "" then 0 else Value(s[..|s| - 1]) * 16 + HexValue(s[|s| - 1])
  }

  lemma {:induction false} PrintValue(v: nat)
    ensures Value(Print(v)) == v
  {
    var s := Print(v);
    if v < 16 {
      assert s[..0] == "";
    } else {
      PrintValue(v / 16);
      assert s[..|s| - 1] == Print(v / 16);
    }
  }

  function Pow16(n: nat): nat {
    if n == 0 then 1 else 16 * Pow16(n - 1)
  }

  /** A printed number has more than `n` digits exactly when it is at least 16^n. */
  lemma {:induction false} PrintLength(v: nat, n: nat)
    requires n > 0
    ensures |Print(v)| > n <==> v >= Pow16(n)
  {
    if v >= 16 {
      if n == 1 {
      } else {
        PrintLength(v / 16, n - 1);
      }
    } else {
      Pow16Positive(n - 1);
    }
  }

  lemma {:induction false} Pow16Positive(n: nat)
    ensures Pow16(n) >= 1
  {
    if n > 0 {
      Pow16Positive(n - 1);
    }
  }

  // ----- strtol(s, NULL, 16), for a long of the given largest value

  predicate IsSpace(c: char) {
    c == ' ' || 9 as char <= c <= 13 as char
  }

  function SkipSpaces(s: string): string {
    if s != "" && IsSpace(s[0]) then SkipSpaces(s[1..]) else s
  }

  /** The longest prefix of hexadecimal digits. */
  function HexPrefix(s: string): (p: string)
    ensures AllHex(p)
  {
    if s != "" && IsHex(s[0]) then [s[0]] + HexPrefix(s[1..]) else ""
  }

  function Unprefixed(s: string): string {
    if |s| > 2 && s[0] == '0' && (s[1] == 'x' || s[1] == 'X') && IsHex(s[2]) then s[2..] else s
  }

  /** Out-of-range results saturate. */
  function Clamp(v: int, longMax: nat): int {
    var least: int := -1 - longMax as int;
    if v > longMax then longMax else if v < least then least else v
  }

  function Strtol16(s: string, longMax: nat): int {
    var t := SkipSpaces(s);
    var neg := t != "" && t[0] == '-';
    var u := if t != "" && (t[0] == '-' || t[0] == '+') then t[1..] else t;
    var v: int := Value(HexPrefix(Unprefixed(u)));
    Clamp(if neg then -v else v, longMax)
  }

  lemma {:induction false} HexPrefixAll(s: string)
    requires AllHex(s)
    ensures HexPrefix(s) == s
  {
    if s != "" {
      HexPrefixAll(s[1..]);
    }
  }

  /** A printed number is read back, up to saturation, with or without its "0x". */
  lemma StrtolReadsPrinted(v: nat, longMax: nat)
    ensures Strtol16(Print(v), longMax) == Clamp(v, longMax)
    ensures Strtol16("0x" + Print(v), longMax) == Clamp(v, longMax)
  {
    PrintValue(v);
    StrtolDigits(Print(v), longMax);
  }

  /** Digits are read as what they stand for. */
  lemma StrtolDigits(s: string, longMax: nat)
    requires s != "" && AllHex(s)
    ensures Strtol16(s, longMax) == Clamp(Value(s), longMax)
    ensures Strtol16("0x" + s, longMax) == Clamp(Value(s), longMax)
  {
    hide Value;
    HexPrefixAll(s);
    assert IsHex(s[0]) && !IsSpace(s[0]) && s[0] != '-' && s[0] != '+';
    assert SkipSpaces(s) == s;
    assert |s| > 2 ==> IsHex(s[1]);
    assert Unprefixed(s) == s;
    var p := "0x" + s;
    assert SkipSpaces(p) == p;
    assert p[2] == s[0] && p[2..] == s;
  }

  /** So it is read back exactly when the device's long can hold it. */
  lemma StrtolExactIff(v: nat, longMax: nat)
    ensures Strtol16(Print(v), longMax) == v <==> v <= longMax
    ensures Strtol16("0x" + Print(v), longMax) == v <==> v <= longMax
  {
    StrtolReadsPrinted(v, longMax);
  }

  // ----- mango_nuplus_atox, with int arithmetic wrapping at 32 bits

  predicate IsLetter(c: char) {
    'a' <= c <= 'z' || 'A' <= c <= 'Z'
  }

  predicate IsDigit(c: char) {
    '0' <= c <= '9'
  }

  /** What one character adds; any letter is taken, 'x' counting 33. */
  function AtoxValue(c: char): nat
    requires IsLetter(c) || IsDigit(c)
  {
    if IsDigit(c) then (c - '0') as nat
    else if 'a' <= c then (c - 'a') as nat + 10
    else (c - 'A') as nat + 10
  }

  /** The parser's loop from the accumulator `v`. */
  function Accumulate(v: Word, s: string): Word
    decreases |s|
  {
    if s != "" && (IsLetter(s[0]) || IsDigit(s[0]))
    then Accumulate((v * 16 + AtoxValue(s[0])) % WORD, s[1..])
    else v
  }

  function AtoxOf(s: string): Word {
    var t := SkipSpaces(s);
    var neg := t != "" && t[0] == '-';
    var u := if t != "" && (t[0] == '-' || t[0] == '+') then t[1..] else t;
    var v := Accumulate(0, u);
    if neg then (WORD - v) % WORD else v
  }

  /** The parser's first loop, over white space. */
  method SkipBlanks(s: string) returns (at: nat)
    ensures at <= |s| && s[at..] == SkipSpaces(s)
  {
    at := 0;
    while at < |s| && (9 <= s[at] as int < 14 || s[at] == ' ')
      invariant at <= |s| && SkipSpaces(s[at..]) == SkipSpaces(s)
    {
      at := at + 1;
    }
  }

  /** The parser's second loop, over letters and digits from `from` on. */
  method ReadDigits(s: string, from: nat) returns (v: Word)
    requires from <= |s|
    ensures v == Accumulate(0, s[from..])
  {
    v := 0;
    var at := from;
    while at < |s| && (IsLetter(s[at]) || IsDigit(s[at]))
      invariant at <= |s| && Accumulate(v, s[at..]) == Accumulate(0, s[from..])
    {
      assert s[at..][1..] == s[at + 1..];
      v := (v * 16 + AtoxValue(s[at])) % WORD;
      at := at + 1;
    }
  }

  /** The parser itself, on a string that ends at its NUL. */
  method Atox(s: string) returns (r: Word)
    ensures r == AtoxOf(s)
  {
    var sign := 1;
    var at := SkipBlanks(s);
    if at < |s| {
      match s[at] {
        case '-' => sign, at := -1, at + 1;
        case '+' => at := at + 1;
        case _ =>
      }
    }
    var v := ReadDigits(s, at);
    r := if sign == -1 then (WORD - v) % WORD else v;
  }

  /** The same accumulation without the 32-bit wrap. */
  function Unwrapped(v: nat, s: string): nat
    requires AllHex(s)
    decreases |s|
  {
    if s == "" then v else Unwrapped(v * 16 + HexValue(s[0]), s[1..])
  }

  lemma WrapStep(v: nat, d: nat)
    ensures ((v % WORD) * 16 + d) % WORD == (v * 16 + d) % WORD
  {
    var q := v / WORD;
    assert v == q * WORD + v % WORD;
    assert v * 16 + d == (v % WORD) * 16 + d + (16 * q) * WORD;
    AddMultiple((v % WORD) * 16 + d, 16 * q);
  }

  lemma {:induction false} AddMultiple(a: nat, k: nat)
    ensures (a + k * WORD) % WORD == a % WORD
  {
    if k > 0 {
      AddMultiple(a, k - 1);
      assert a + k * WORD == a + (k - 1) * WORD + WORD;
    }
  }

  lemma {:induction false} AccumulateWraps(v: nat, s: string)
    requires AllHex(s)
    ensures Accumulate(v % WORD, s) == Unwrapped(v, s) % WORD
    decreases |s|
  {
    if s != "" {
      assert IsHex(s[0]) && AtoxValue(s[0]) == HexValue(s[0]);
      WrapStep(v, HexValue(s[0]));
      AccumulateWraps(v * 16 + HexValue(s[0]), s[1..]);
    }
  }

  lemma {:induction false} UnwrappedSnoc(v: nat, s: string)
    requires AllHex(s) && s != ""
    ensures Unwrapped(v, s) == Unwrapped(v, s[..|s| - 1]) * 16 + HexValue(s[|s| - 1])
    decreases |s|
  {
    if |s| > 1 {
      UnwrappedSnoc(v * 16 + HexValue(s[0]), s[1..]);
      assert s[1..][..|s| - 2] == s[..|s| - 1][1..];
    } else {
      assert s[1..] == "" && s[..0] == "";
    }
  }

  lemma ShiftPower(v: nat, p: nat)
    ensures v * (16 * p) == (v * p) * 16
  {
  }

  /** What stood in front of the digits is shifted out by them. */
  lemma {:induction false} UnwrappedValue(v: nat, s: string)
    requires AllHex(s)
    ensures Unwrapped(v, s) == v * Pow16(|s|) + Value(s)
    decreases |s|
  {
    if s != "" {
      var n := |s| - 1;
      UnwrappedSnoc(v, s);
      UnwrappedValue(v, s[..n]);
      ShiftPower(v, Pow16(n));
    }
  }

  /** The stray 33 of an 'x' vanishes exactly from eight digits on. */
  lemma {:induction false} StrayVanishes(n: nat)
    ensures (33 * Pow16(n)) % WORD == 0 <==> n >= 8
  {
    if n > 8 {
      StrayVanishes(n - 1);
      var q := (33 * Pow16(n - 1)) / WORD;
      assert 33 * Pow16(n) == 16 * (33 * Pow16(n - 1)) == 16 * q * WORD;
      AddMultiple(0, 16 * q);
    } else {
      Pow16Table(n);
    }
  }

  lemma Pow16Table(n: nat)
    requires n <= 8
    ensures Pow16(n) == [1, 0x10, 0x100, 0x1000, 0x1_0000, 0x10_0000, 0x100_0000, 0x1000_0000, 0x1_0000_0000][n]
  {
    if n > 0 {
      Pow16Table(n - 1);
    }
  }

  lemma HexStartsPlain(s: string)
    requires AllHex(s)
    ensures AtoxOf(s) == Accumulate(0, s)
    ensures AtoxOf("0x" + s) == Accumulate(33, s)
  {
    if s != "" {
      assert IsHex(s[0]) && !IsSpace(s[0]) && s[0] != '-' && s[0] != '+';
    }
    assert SkipSpaces(s) == s;
    var p := "0x" + s;
    assert SkipSpaces(p) == p;
    assert p[1..][1..] == s;
    assert Accumulate(0, p) == Accumulate(0, p[1..]) == Accumulate(33, s);
  }

  /**
   The NU+ parser is right, modulo 2^32, on every string of hexadecimal digits, and on one that
   carries the prefix "0x" if and only if it has at least eight digits.
   */
  lemma AtoxExactIff(s: string)
    requires AllHex(s)
    ensures AtoxOf(s) == Value(s) % WORD
    ensures AtoxOf("0x" + s) == Value(s) % WORD <==> |s| >= 8
  {
    hide *;
    PlainDigits(s);
    var stray := PrefixedDigits(s);
    SameResidue(Value(s), stray);
  }

  /** White space in front is skipped, '-' negates modulo 2^32 and '+' does nothing. */
  lemma AtoxSigned(s: string, c: char)
    requires AllHex(s)
    ensures AtoxOf("-" + s) == (WORD - Value(s) % WORD) % WORD && AtoxOf("+" + s) == Value(s) % WORD
    ensures IsSpace(c) ==> AtoxOf([c] + s) == AtoxOf(s)
  {
    PlainDigits(s);
    HexStartsPlain(s);
    var minus, plus := "-" + s, "+" + s;
    assert SkipSpaces(minus) == minus && minus[1..] == s;
    assert SkipSpaces(plus) == plus && plus[1..] == s;
    assert ([c] + s)[1..] == s;
  }

  lemma PlainDigits(s: string)
    requires AllHex(s)
    ensures AtoxOf(s) == Value(s) % WORD
  {
    HexStartsPlain(s);
    AccumulateWraps(0, s);
    UnwrappedValue(0, s);
  }

  /** The prefix adds a term that is a multiple of 2^32 exactly when eight digits or more follow. */
  lemma PrefixedDigits(s: string) returns (stray: nat)
    requires AllHex(s)
    ensures AtoxOf("0x" + s) == (Value(s) + stray) % WORD
    ensures stray % WORD == 0 <==> |s| >= 8
  {
    stray := 33 * Pow16(|s|);
    HexStartsPlain(s);
    AccumulateWraps(33, s);
    UnwrappedValue(33, s);
    StrayVanishes(|s|);
  }

  lemma SameResidue(a: nat, b: nat)
    ensures (a + b) % WORD == a % WORD <==> b % WORD == 0
  {
    var q := b / WORD;
    assert b == q * WORD + b % WORD;
    AddMultiple(a + b % WORD, q);
    assert (a + b) % WORD == (a + b % WORD) % WORD;
  }

  /** The parser inverts the printer on every word, and on prefixed words exactly from 0x10000000 on. */
  lemma {:induction false} AtoxReadsPrinted(v: Word)
    ensures AtoxOf(Print(v)) == v
    ensures AtoxOf("0x" + Print(v)) == v <==> v >= 0x1000_0000
  {
    PrintValue(v);
    AtoxExactIff(Print(v));
    PrintLength(v, 7);
    Pow16Table(7);
  }
}
