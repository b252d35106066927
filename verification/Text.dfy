/**
 The parts of Go's strings and strconv packages the panel relies on: decimal
 printing and reading with a 64-bit int, white-space trimming and lower-casing.
 */
module Text {

  const MAX_INT64 := 0x7FFF_FFFF_FFFF_FFFF

  const MIN_INT64 := -0x8000_0000_0000_0000

  const TWO_64 := 0x1_0000_0000_0000_0000

  /** Two's-complement wrap-around of a 64-bit int. */
  function Wrap64(x: int): (r: int)
    ensures MIN_INT64 <= r <= MAX_INT64
    decreases if x < 0 then -x else x + 1
  {
    if x > MAX_INT64 then Wrap64(x - TWO_64)
    else if x < MIN_INT64 then Wrap64(x + TWO_64)
    else x
  }

  /** Wrapping around is reduction modulo 2^64. */
  lemma {:induction false} Wrap64Modulo(x: int)
    ensures Wrap64(x) == (x - MIN_INT64) % TWO_64 + MIN_INT64
    decreases if x < 0 then -x else x + 1
  {
    if x > MAX_INT64 {
      Wrap64Modulo(x - TWO_64);
    } else if x < MIN_INT64 {
      Wrap64Modulo(x + TWO_64);
    }
  }

  lemma Wrap64Step(x: int, d: int)
    ensures Wrap64(Wrap64(x) * 10 + d) == Wrap64(x * 10 + d)
  {
    Wrap64Modulo(x);
    var k := (x - MIN_INT64) / TWO_64;
    assert Wrap64(x) == x - k * TWO_64;
    Wrap64Shift(x * 10 + d, -10 * k);
  }

  lemma Wrap64Shift(x: int, k: int)
    ensures Wrap64(x + k * TWO_64) == Wrap64(x)
  {
    Wrap64Modulo(x);
    Wrap64Modulo(x + k * TWO_64);
    var q := (x - MIN_INT64) / TWO_64;
    assert (x - MIN_INT64 + k * TWO_64) / TWO_64 == q + k;
  }

  lemma Wrap64Zero(x: int)
    ensures Wrap64(x) == 0 <==> x % TWO_64 == 0
  {
    Wrap64Modulo(x);
  }

  // ---- decimal numerals ----

  predicate IsDigit(c: char) { '0' <= c <= '9' }

  predicate AllDigits(s: string) { forall i :: 0 <= i < |s| ==> IsDigit(s[i]) }

  function DigitValue(c: char): nat
    requires IsDigit(c)
  {
    c as int - '0' as int
  }

  function DigitChar(d: nat): char
    requires d < 10
  {
    (d + '0' as int) as char
  }

  /** The number a digit string denotes. */
  function Numeral(s: string): nat
    requires AllDigits(s)
  {
    if s == "" then 0 else Numeral(s[..|s| - 1]) * 10 + DigitValue(s[|s| - 1])
  }

  /** strconv.Itoa on a non-negative int. */
  function Itoa(n: nat): string {
    if n < 10 then [DigitChar(n)] else Itoa(n / 10) + [DigitChar(n % 10)]
  }

  /** Printing then reading gives the number back; a printed number is a non-empty digit string. */
  lemma {:induction false} ItoaRoundTrip(n: nat)
    ensures AllDigits(Itoa(n)) && Itoa(n) != "" && Numeral(Itoa(n)) == n
  {
    if n >= 10 {
      ItoaRoundTrip(n / 10);
      assert Itoa(n)[..|Itoa(n)| - 1] == Itoa(n / 10);
    } else {
      assert Itoa(n)[..0] == "";
    }
  }

  /** strconv.Atoi on a digit string with the error dropped: out-of-range input clamps. */
  function AtoiClamped(s: string): nat
    requires AllDigits(s)
  {
    if Numeral(s) > MAX_INT64 then MAX_INT64 else Numeral(s)
  }

  // ---- trimming and lower-casing ----

  /** unicode.IsSpace. */
  predicate IsSpace(c: char) {
    || '\t' <= c <= '\r'
    || c == ' '
    || c in {'\U{85}', '\U{A0}', '\U{1680}', '\U{2028}', '\U{2029}', '\U{202F}', '\U{205F}', '\U{3000}'}
    || '\U{2000}' <= c <= '\U{200A}'
  }

  function TrimLeft(s: string): string {
    if s != "" && IsSpace(s[0]) then TrimLeft(s[1..]) else s
  }

  function TrimRight(s: string): string {
    if s != "" && IsSpace(s[|s| - 1]) then TrimRight(s[..|s| - 1]) else s
  }

  /** strings.TrimSpace. */
  function TrimSpace(s: string): string { TrimRight(TrimLeft(s)) }

  predicate AllSpace(s: string) { forall i :: 0 <= i < |s| ==> IsSpace(s[i]) }

  lemma {:induction false} TrimLeftOf(pre: string, s: string)
    requires AllSpace(pre) && (s != "" ==> !IsSpace(s[0]))
    ensures TrimLeft(pre + s) == s
  {
    if pre == "" {
      assert pre + s == s;
    } else {
      assert (pre + s)[1..] == pre[1..] + s;
      TrimLeftOf(pre[1..], s);
    }
  }

  lemma {:induction false} TrimRightOf(s: string, post: string)
    requires AllSpace(post) && (s != "" ==> !IsSpace(s[|s| - 1]))
    ensures TrimRight(s + post) == s
  {
    if post == "" {
      assert s + post == s;
    } else {
      assert (s + post)[..|s + post| - 1] == s + post[..|post| - 1];
      TrimRightOf(s, post[..|post| - 1]);
    }
  }

  lemma {:induction false} TrimLeftParts(s: string) returns (pre: string)
    ensures AllSpace(pre) && s == pre + TrimLeft(s)
  {
    if s != "" && IsSpace(s[0]) {
      var rest := TrimLeftParts(s[1..]);
      pre := [s[0]] + rest;
    } else {
      pre := "";
    }
  }

  lemma {:induction false} TrimRightParts(s: string) returns (post: string)
    ensures AllSpace(post) && s == TrimRight(s) + post
  {
    if s != "" && IsSpace(s[|s| - 1]) {
      var rest := TrimRightParts(s[..|s| - 1]);
      post := rest + [s[|s| - 1]];
    } else {
      post := "";
    }
  }

  /**
   unicode.ToLower as far as the ASCII outcome goes: besides A..Z, exactly two
   code points lower to an ASCII letter. Every other code point stays outside
   ASCII, where no later check can tell it from itself.
   */
  function LowerChar(c: char): char {
    if 'A' <= c <= 'Z' then (c as int + 32) as char
    else if c == '\U{130}' then 'i'
    else if c == '\U{212A}' then 'k'
    else c
  }

  function ToLower(s: string): (r: string)
    ensures |r| == |s| && forall i :: 0 <= i < |s| ==> r[i] == LowerChar(s[i])
  {
    seq(|s|, i requires 0 <= i < |s| => LowerChar(s[i]))
  }
}
