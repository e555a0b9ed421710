/** Keybus words are kept as text: one '0' or '1' per sampled bit, oldest first.
    This module gives the meaning of the two bit-field helpers of the decoder,
    binToInt and byteToBin (DSCPanel/DSC.cpp). */
module Bits {
  import opened Radix

  /** Arduino's `byte`. */
  type byte = x: int | 0 <= x < 256

  predicate IsBits(s: string) {
    forall i :: 0 <= i < |s| ==> s[i] == '0' || s[i] == '1'
  }

  /** The character the capture routine appends for a data-line level. */
  function BitChar(high: bool): char {
    if high then '1' else '0'
  }

  /** Bit i of a word: 1 exactly when s[i] is '1'. Past the end, Arduino's
      String yields the character '\0', which is not '1' and so reads as 0. */
  function BitAt(s: string, i: nat): nat {
    if i < |s| && s[i] == '1' then 1 else 0
  }

  /** Bit k (0 = least significant) of v, what `v & (1 << k)` tests. */
  predicate Bit(v: nat, k: nat) {
    if k == 0 then v % 2 == 1 else Bit(v / 2, k - 1)
  }

  /** The value binToInt computes: len characters from offset, most significant first. */
  function BitsValue(s: string, offset: nat, len: nat): (v: nat)
    ensures v < Power(2, len)
  {
    if len == 0 then 0 else 2 * BitsValue(s, offset, len - 1) + BitAt(s, offset + len - 1)
  }

  /** binToInt (DSC.cpp:423-432): the shift-and-or loop. */
  method BinToInt(s: string, offset: nat, len: nat) returns (v: nat)
    ensures v == BitsValue(s, offset, len)
    ensures v < Power(2, len)
  {
    v := 0;
    for j := 0 to len
      invariant v == BitsValue(s, offset, j)
    {
      v := v * 2;
      if offset + j < |s| && s[offset + j] == '1' {
        v := v + 1;
      }
    }
  }

  /** The eight-character pattern of a byte, most significant bit first. */
  function ByteBits(b: byte): (s: string)
    ensures |s| == 8 && IsBits(s)
  {
    seq(8, i requires 0 <= i < 8 => BitChar(Bit(b, 7 - i)))
  }

  /** The eight characters of ByteBits spelled out, bit 7 first. */
  lemma ByteBitsSpelled(b: byte)
    ensures ByteBits(b) == [BitChar(Bit(b, 7)), BitChar(Bit(b, 6)), BitChar(Bit(b, 5)), BitChar(Bit(b, 4)),
                            BitChar(Bit(b, 3)), BitChar(Bit(b, 2)), BitChar(Bit(b, 1)), BitChar(Bit(b, 0))]
  {
  }

  /** byteToBin (DSC.cpp:434-441): String(b, BIN) padded with leading zeros to eight characters. */
  method ByteToBin(b: byte) returns (r: string)
    ensures r == ByteBits(b)
    ensures BitsValue(r, 0, 8) == b
  {
    var bin := Digits(b, 2);
    BinaryFitsByte(b);
    var zeros := 8 - |bin|;
    var zStr := "";
    for i := 0 to zeros
      invariant zStr == Zeros(i)
    {
      zStr := zStr + "0";
    }
    r := zStr + bin;
    PaddedBinary(b);
    ByteBitsValue(b);
  }

  /** A byte has at most eight binary digits. */
  lemma BinaryFitsByte(b: byte)
    ensures |Digits(b, 2)| <= 8
  {
    assert Power(2, 8) == 256;
    BinaryLength(b, 8);
  }

  /** Padding String(b, BIN) with zeros to eight characters gives the byte's pattern. */
  lemma PaddedBinary(b: byte)
    ensures |Digits(b, 2)| <= 8
    ensures Zeros(8 - |Digits(b, 2)|) + Digits(b, 2) == ByteBits(b)
  {
    BinaryFitsByte(b);
    var bin := Digits(b, 2);
    var z := Zeros(8 - |bin|);
    assert IsBits(z + bin) by {
      BinaryBits(b);
      BitsConcat(z, bin);
    }
    assert BitsValue(z + bin, 0, 8) == b by {
      BinaryBits(b);
      ZerosThenValue(z, bin);
    }
    ByteBitsValue(b);
    BitStringsEqual(z + bin, ByteBits(b));
  }

  lemma BitsConcat(s: string, t: string)
    requires IsBits(s) && IsBits(t)
    ensures IsBits(s + t)
  {
  }

  /** k zero characters. */
  function Zeros(k: nat): (s: string)
    ensures |s| == k && IsBits(s)
  {
    seq(k, _ => '0')
  }

  // ----- lemmas about BitsValue -----

  /** Bit k of the field value is the character k places before the field's end:
      the field really is read most significant bit first. */
  lemma {:induction false} BitOfValue(s: string, offset: nat, n: nat, k: nat)
    requires k < n
    ensures Bit(BitsValue(s, offset, n), k) <==> BitAt(s, offset + n - 1 - k) == 1
    decreases n
  {
    var v' := BitsValue(s, offset, n - 1);
    var b := BitAt(s, offset + n - 1);
    assert BitsValue(s, offset, n) == 2 * v' + b;
    if k > 0 {
      assert (2 * v' + b) / 2 == v';
      BitOfValue(s, offset, n - 1, k - 1);
    }
  }

  /** Two numbers below 2^n that agree on their low n bits are equal. */
  lemma {:induction false} BitsDetermine(x: nat, y: nat, n: nat)
    requires x < Power(2, n) && y < Power(2, n)
    requires forall k :: 0 <= k < n ==> (Bit(x, k) <==> Bit(y, k))
    ensures x == y
    decreases n
  {
    if n == 0 {
    } else {
      assert Bit(x, 0) <==> Bit(y, 0);
      forall k | 0 <= k < n - 1
        ensures Bit(x / 2, k) <==> Bit(y / 2, k)
      {
        assert Bit(x, k + 1) <==> Bit(y, k + 1);
      }
      BitsDetermine(x / 2, y / 2, n - 1);
    }
  }

  /** Characters after a field do not change its value. */
  lemma {:induction false} BitsPrefix(s: string, t: string, offset: nat, n: nat)
    requires offset + n <= |s|
    ensures BitsValue(s + t, offset, n) == BitsValue(s, offset, n)
    decreases n
  {
    if n > 0 {
      BitsPrefix(s, t, offset, n - 1);
    }
  }

  /** Characters before a field only move its offset. */
  lemma {:induction false} BitsShift(p: string, s: string, offset: nat, n: nat)
    ensures BitsValue(p + s, |p| + offset, n) == BitsValue(s, offset, n)
    decreases n
  {
    if n > 0 {
      BitsShift(p, s, offset, n - 1);
      assert BitAt(p + s, |p| + offset + n - 1) == BitAt(s, offset + n - 1);
    }
  }

  /** A field of zeros is worth 0. */
  lemma {:induction false} ZerosValue(k: nat, n: nat)
    requires n <= k
    ensures BitsValue(Zeros(k), 0, n) == 0
    decreases n
  {
    if n > 0 {
      ZerosValue(k, n - 1);
    }
  }

  /** Leading zeros do not change the value of a bit string. */
  lemma {:induction false} ZerosThenValue(z: string, d: string)
    requires z == Zeros(|z|)
    ensures BitsValue(z + d, 0, |z| + |d|) == BitsValue(d, 0, |d|)
    decreases |d|
  {
    if d == [] {
      assert z + d == z + [];
      BitsPrefix(z, [], 0, |z|);
      ZerosValue(|z|, |z|);
    } else {
      var d', c := d[..|d| - 1], d[|d| - 1];
      assert z + d == (z + d') + [c];
      assert d == d' + [c];
      ZerosThenValue(z, d');
      BitsPrefix(z + d', [c], 0, |z| + |d'|);
      BitsPrefix(d', [c], 0, |d'|);
    }
  }

  /** On a string of '0'/'1', the MSB-first field value equals the base-2 reading. */
  lemma {:induction false} BitsParse(d: string)
    requires IsBits(d)
    ensures BitsValue(d, 0, |d|) == Parse(d, 2)
    decreases |d|
  {
    if d != [] {
      var d' := d[..|d| - 1];
      assert d == d' + [d[|d| - 1]];
      BitsParse(d');
      BitsPrefix(d', [d[|d| - 1]], 0, |d'|);
    }
  }

  /** String(b, BIN) is a bit string whose MSB-first field value is b. */
  lemma BinaryBits(b: byte)
    ensures IsBits(Digits(b, 2))
    ensures BitsValue(Digits(b, 2), 0, |Digits(b, 2)|) == b
  {
    BinaryDigits(b);
    BitsParse(Digits(b, 2));
  }

  /** binToInt(byteToBin(b), 0, 8) == b. */
  lemma ByteBitsValue(b: byte)
    ensures BitsValue(ByteBits(b), 0, 8) == b
  {
    var v := BitsValue(ByteBits(b), 0, 8);
    assert Power(2, 8) == 256;
    forall k | 0 <= k < 8
      ensures Bit(v, k) <==> Bit(b, k)
    {
      BitOfValue(ByteBits(b), 0, 8, k);
      assert ByteBits(b)[7 - k] == BitChar(Bit(b, k));
    }
    BitsDetermine(v, b, 8);
  }

  /** Bit strings of one length with one value are the same string. */
  lemma BitStringsEqual(s: string, t: string)
    requires IsBits(s) && IsBits(t) && |s| == |t|
    requires BitsValue(s, 0, |s|) == BitsValue(t, 0, |t|)
    ensures s == t
  {
    forall i | 0 <= i < |s|
      ensures s[i] == t[i]
    {
      BitOfValue(s, 0, |s|, |s| - 1 - i);
      BitOfValue(t, 0, |t|, |t| - 1 - i);
    }
  }

  /** byteToBin(binToInt(s, 0, 8)) == s for every eight-character bit string. */
  lemma ByteBitsOfValue(s: string)
    requires IsBits(s) && |s| == 8
    ensures ByteBits(BitsValue(s, 0, 8)) == s
  {
    assert Power(2, 8) == 256;
    var b: byte := BitsValue(s, 0, 8);
    ByteBitsValue(b);
    BitStringsEqual(ByteBits(b), s);
  }
}
