/** Number-to-text and text-to-number conversions that the decoder relies on:
    Arduino's String(n, base) (no leading zeros, lower-case hexadecimal digits)
    and String::toInt on a string of decimal digits. */
module Radix {

  predicate ValidBase(base: nat) {
    2 <= base <= 16
  }

  /** The character of digit d. */
  function DigitChar(d: nat): char
    requires d < 16
  {
    if d < 10 then ('0' as int + d) as char else ('a' as int + d - 10) as char
  }

  /** The value of one digit character; anything else reads as 0. */
  function CharValue(c: char): nat {
    if '0' <= c <= '9' then c as int - '0' as int
    else if 'a' <= c <= 'f' then c as int - 'a' as int + 10
    else 0
  }

  function Power(base: nat, k: nat): (p: nat)
    requires ValidBase(base)
    ensures p >= 1
  {
    if k == 0 then 1 else base * Power(base, k - 1)
  }

  /** String(n, base): the digits of n, most significant first, without leading zeros. */
  function Digits(n: nat, base: nat): (s: string)
    requires ValidBase(base)
  {
    if n < base then [DigitChar(n)]
    else
      DivideDown(n, base);
      Digits(n / base, base) + [DigitChar(n % base)]
  }

  /** Dividing by the base shrinks a number and leaves a digit. */
  lemma DivideDown(n: nat, base: nat)
    requires ValidBase(base) && n >= base
    ensures n / base < n && n % base < base
  {
  }

  lemma DigitValue(d: nat)
    requires d < 16
    ensures CharValue(DigitChar(d)) == d
  {
  }

  /** The number a string of digits denotes (toInt on decimal text). */
  function Parse(s: string, base: nat): nat
    requires ValidBase(base)
  {
    if s == [] then 0 else Parse(s[..|s| - 1], base) * base + CharValue(s[|s| - 1])
  }

  /** String(n, BIN) is made of '0' and '1' and reads back as n. */
  lemma {:induction false} BinaryDigits(n: nat)
    ensures forall i :: 0 <= i < |Digits(n, 2)| ==> Digits(n, 2)[i] in "01"
    ensures Parse(Digits(n, 2), 2) == n
    decreases n
  {
    var d := Digits(n, 2);
    if n < 2 {
      assert d == [] + [DigitChar(n)];
      ParseSnoc([], DigitChar(n), 2);
    } else {
      var d', c := Digits(n / 2, 2), DigitChar(n % 2);
      BinaryDigits(n / 2);
      assert d == d' + [c];
      assert c == '0' || c == '1';
      ParseSnoc(d', c, 2);
    }
  }

  /** A number below 2^k has at most k binary digits. */
  lemma {:induction false} BinaryLength(n: nat, k: nat)
    requires k >= 1 && n < Power(2, k)
    ensures |Digits(n, 2)| <= k
    decreases k
  {
    if n >= 2 {
      BinaryLength(n / 2, k - 1);
    }
  }

  /** toInt(String(n)) == n: decimal text reads back as the number. */
  lemma {:induction false} DecimalDigits(n: nat)
    ensures Parse(Digits(n, 10), 10) == n
    decreases n
  {
    if n < 10 {
      assert Digits(n, 10) == [] + [DigitChar(n)];
      ParseSnoc([], DigitChar(n), 10);
      DigitValue(n);
    } else {
      DecimalDigits(n / 10);
      ParseSnoc(Digits(n / 10, 10), DigitChar(n % 10), 10);
      DigitValue(n % 10);
    }
  }

  /** String(n, HEX) reads back as n. */
  lemma {:induction false} HexDigits(n: nat)
    ensures Parse(Digits(n, 16), 16) == n
    decreases n
  {
    if n < 16 {
      assert Digits(n, 16) == [] + [DigitChar(n)];
      ParseSnoc([], DigitChar(n), 16);
      DigitValue(n);
    } else {
      HexDigits(n / 16);
      ParseSnoc(Digits(n / 16, 16), DigitChar(n % 16), 16);
      DigitValue(n % 16);
    }
  }

  /** One- and two-digit numbers. */
  lemma DecimalLength(n: nat)
    requires n < 100
    ensures |Digits(n, 10)| == if n < 10 then 1 else 2
  {
  }

  /** Appending one character shifts the value by one digit. */
  lemma ParseSnoc(s: string, c: char, base: nat)
    requires ValidBase(base)
    ensures Parse(s + [c], base) == Parse(s, base) * base + CharValue(c)
  {
    assert (s + [c])[..|s|] == s;
  }

  /** Concatenated digit strings read as the left part shifted past the right part. */
  lemma {:induction false} ParseConcat(a: string, b: string, base: nat)
    requires ValidBase(base)
    ensures Parse(a + b, base) == Parse(a, base) * Power(base, |b|) + Parse(b, base)
    decreases |b|
  {
    if b == [] {
      assert a + b == a;
    } else {
      var b' := b[..|b| - 1];
      assert (a + b)[..|a + b| - 1] == a + b';
      ParseConcat(a, b', base);
      var pa, pb', c := Parse(a, base), Parse(b', base), CharValue(b[|b| - 1]);
      assert Parse(a + b, base) == Parse(a + b', base) * base + c;
      assert Parse(b, base) == pb' * base + c;
      assert Power(base, |b|) == base * Power(base, |b'|);
      MulDistrib(pa, Power(base, |b'|), pb', base);
    }
  }

  /** Helper: (x * y + z) * b == x * (b * y) + z * b. */
  lemma MulDistrib(x: nat, y: nat, z: nat, b: nat)
    ensures (x * y + z) * b == x * (b * y) + z * b
  {
  }
}
