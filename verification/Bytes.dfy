/**
 Byte strings and the four representations the repository builds from them:
 big-endian integers, lower-case hexadecimal, byte-wise exclusive or and
 decimal text.  Every representation comes with its inverse.
 */
module Bytes {
  import opened Wrappers

  type Byte = b: int | 0 <= b < 256
  type Bytes = seq<Byte>

  /** 256 to the power k. */
  function Radix(k: nat): (r: int)
    ensures r >= 1
  {
    if k == 0 then 1 else 256 * Radix(k - 1)
  }

  const WORD: int := 0x1_0000_0000_0000_0000

  lemma RadixOfEight()
    ensures Radix(8) == WORD
  {
    assert Radix(4) == 0x1_0000_0000;
    assert Radix(6) == 0x1_0000_0000_0000;
  }

  /** `int.to_bytes(k, "big")`. */
  function BigEndian(n: int, k: nat): (r: Bytes)
    requires 0 <= n < Radix(k)
    ensures |r| == k
  {
    if k == 0 then [] else BigEndian(n / 256, k - 1) + [n % 256]
  }

  /** `int.from_bytes(b, "big")`. */
  function FromBigEndian(b: Bytes): (n: int)
    ensures 0 <= n < Radix(|b|)
  {
    if b == [] then 0 else 256 * FromBigEndian(b[..|b| - 1]) + b[|b| - 1]
  }

  lemma {:induction false} BigEndianRoundTrip(n: int, k: nat)
    requires 0 <= n < Radix(k)
    ensures FromBigEndian(BigEndian(n, k)) == n
  {
    if k > 0 {
      BigEndianRoundTrip(n / 256, k - 1);
      assert BigEndian(n, k)[..k - 1] == BigEndian(n / 256, k - 1);
    }
  }

  lemma {:induction false} BigEndianOfFromBigEndian(b: Bytes)
    ensures BigEndian(FromBigEndian(b), |b|) == b
  {
    if b != [] {
      var front, last := b[..|b| - 1], b[|b| - 1];
      BigEndianOfFromBigEndian(front);
      BigEndianSnoc(FromBigEndian(front), |front|, last);
      assert b == front + [last];
    }
  }

  lemma BigEndianSnoc(n: int, k: nat, last: Byte)
    requires 0 <= n < Radix(k)
    ensures 256 * n + last < Radix(k + 1) && BigEndian(256 * n + last, k + 1) == BigEndian(n, k) + [last]
  {
    assert (256 * n + last) / 256 == n && (256 * n + last) % 256 == last;
  }

  /** An eight-byte length or count. */
  function Word(n: int): (r: Bytes)
    requires 0 <= n < WORD
    ensures |r| == 8 && FromBigEndian(r) == n
  {
    RadixOfEight();
    BigEndianRoundTrip(n, 8);
    BigEndian(n, 8)
  }

  function FromWord(b: Bytes): (n: int)
    requires |b| == 8
    ensures 0 <= n < WORD && Word(n) == b
  {
    RadixOfEight();
    BigEndianOfFromBigEndian(b);
    FromBigEndian(b)
  }

  // ------------------------------------------------------------ exclusive or

  function Pow2(k: nat): (r: int)
    ensures r >= 1
  {
    if k == 0 then 1 else 2 * Pow2(k - 1)
  }

  /** Exclusive or of two k-bit numbers, bit by bit. */
  function XorBits(a: int, b: int, k: nat): (r: int)
    requires a >= 0 && b >= 0
    ensures 0 <= r < Pow2(k)
  {
    if k == 0 then 0 else 2 * XorBits(a / 2, b / 2, k - 1) + (a + b) % 2
  }

  lemma XorStep(half: int, bit: int, b: int, k: nat)
    requires half >= 0 && 0 <= bit < 2 && b >= 0 && k > 0
    ensures XorBits(2 * half + bit, b, k) == 2 * XorBits(half, b / 2, k - 1) + (bit + b) % 2
  {
    HalfOf(half, bit);
    SumParity(half, bit + b);
  }

  lemma HalfOf(half: int, bit: int)
    requires half >= 0 && 0 <= bit < 2
    ensures (2 * half + bit) / 2 == half
  {
  }

  lemma SumParity(half: int, c: int)
    ensures (2 * half + c) % 2 == c % 2
  {
  }

  lemma TwiceParity(bit: int, b: int)
    requires 0 <= bit < 2 && b >= 0
    ensures ((bit + b) % 2 + b) % 2 == bit
  {
  }

  lemma Halves(a: int)
    requires a >= 0
    ensures a == 2 * (a / 2) + a % 2 && a / 2 >= 0 && 0 <= a % 2 < 2
  {
  }

  lemma {:induction false} XorBitsTwice(a: int, b: int, k: nat)
    requires 0 <= a < Pow2(k) && b >= 0
    ensures XorBits(XorBits(a, b, k), b, k) == a
  {
    if k > 0 {
      Halves(a);
      var half, bit := a / 2, a % 2;
      XorBitsTwice(half, b / 2, k - 1);
      XorStep(half, bit, b, k);
      XorStep(XorBits(half, b / 2, k - 1), (bit + b) % 2, b, k);
      TwiceParity(bit, b);
    }
  }

  function XorByte(a: Byte, b: Byte): Byte {
    assert Pow2(8) == 256 by { assert Pow2(4) == 16; }
    XorBits(a, b, 8)
  }

  /** `bytes(left ^ right for left, right in zip(a, b, strict=True))`. */
  function Xor(a: Bytes, b: Bytes): (r: Bytes)
    requires |a| == |b|
    ensures |r| == |a|
    ensures forall i :: 0 <= i < |a| ==> r[i] == XorByte(a[i], b[i])
  {
    seq(|a|, i requires 0 <= i < |a| => XorByte(a[i], b[i]))
  }

  lemma XorTwice(a: Bytes, b: Bytes)
    requires |a| == |b|
    ensures Xor(Xor(a, b), b) == a
  {
    assert Pow2(8) == 256 by { assert Pow2(4) == 16; }
    forall i | 0 <= i < |a| ensures Xor(Xor(a, b), b)[i] == a[i] {
      XorBitsTwice(a[i], b[i], 8);
    }
  }

  // ------------------------------------------------------------- hexadecimal

  function HexDigit(d: int): (c: Byte)
    requires 0 <= d < 16
  {
    if d < 10 then 48 + d else 87 + d
  }

  /** The lower-case digits only: upper-case tokens are refused by the source. */
  predicate IsHexDigit(c: int) {
    48 <= c <= 57 || 97 <= c <= 102
  }

  function HexValue(c: int): (d: int)
    requires IsHexDigit(c)
    ensures 0 <= d < 16 && HexDigit(d) == c
  {
    if c <= 57 then c - 48 else c - 87
  }

  /** `bytes.hex()`, as ASCII codes. */
  function Hex(b: Bytes): (r: Bytes)
    ensures |r| == 2 * |b|
    ensures forall i :: 0 <= i < |r| ==> IsHexDigit(r[i])
  {
    if b == [] then [] else [HexDigit(b[0] / 16), HexDigit(b[0] % 16)] + Hex(b[1..])
  }

  /** `bytes.fromhex()` on lower-case digits. */
  function FromHex(t: seq<int>): (r: Bytes)
    requires |t| % 2 == 0
    requires forall i :: 0 <= i < |t| ==> IsHexDigit(t[i])
    ensures 2 * |r| == |t|
  {
    if t == [] then [] else [16 * HexValue(t[0]) + HexValue(t[1])] + FromHex(t[2..])
  }

  lemma {:induction false} FromHexOfHex(b: Bytes)
    ensures FromHex(Hex(b)) == b
  {
    if b != [] {
      FromHexOfHex(b[1..]);
      assert Hex(b)[2..] == Hex(b[1..]);
    }
  }

  lemma HexCons(hi: int, lo: int, rest: Bytes)
    requires 0 <= hi < 16 && 0 <= lo < 16
    ensures Hex([16 * hi + lo] + rest) == [HexDigit(hi), HexDigit(lo)] + Hex(rest)
  {
    var b: Bytes := [16 * hi + lo] + rest;
    assert b[0] / 16 == hi && b[0] % 16 == lo && b[1..] == rest;
  }

  lemma {:induction false} HexOfFromHex(t: seq<int>)
    requires |t| % 2 == 0
    requires forall i :: 0 <= i < |t| ==> IsHexDigit(t[i])
    ensures Hex(FromHex(t)) == t
  {
    if t != [] {
      HexOfFromHex(t[2..]);
      HexCons(HexValue(t[0]), HexValue(t[1]), FromHex(t[2..]));
      assert t == [t[0], t[1]] + t[2..];
    }
  }

  // ----------------------------------------------------------------- decimal

  /** `str(n)` for a natural number, as ASCII codes. */
  function Digits(n: nat): (r: Bytes)
    ensures |r| > 0 && forall i :: 0 <= i < |r| ==> 48 <= r[i] <= 57
  {
    if n < 10 then [48 + n] else Digits(n / 10) + [48 + n % 10]
  }

  /** `str(n)` for any integer. */
  function Decimal(n: int): (r: Bytes) {
    if n < 0 then [45] + Digits(-n) else Digits(n)
  }

  function FromDigits(b: Bytes): (n: int) {
    if b == [] then 0 else 10 * FromDigits(b[..|b| - 1]) + b[|b| - 1] - 48
  }

  function FromDecimal(b: Bytes): (n: int) {
    if b != [] && b[0] == 45 then -FromDigits(b[1..]) else FromDigits(b)
  }

  lemma {:induction false} FromDigitsOfDigits(n: nat)
    ensures FromDigits(Digits(n)) == n
  {
    if n >= 10 {
      FromDigitsOfDigits(n / 10);
      assert Digits(n)[..|Digits(n)| - 1] == Digits(n / 10);
    }
  }

  lemma FromDecimalOfDecimal(n: int)
    ensures FromDecimal(Decimal(n)) == n
  {
    FromDigitsOfDigits(if n < 0 then -n else n);
    if n < 0 {
      assert Decimal(n)[1..] == Digits(-n);
    }
  }

  function Zeros(k: nat): (r: Bytes)
    ensures |r| == k
  {
    if k == 0 then [] else Zeros(k - 1) + [48]
  }

  /** `f"{n:0{width}d}"`. */
  function Padded(n: nat, width: nat): Bytes {
    var d := Digits(n);
    Zeros(if |d| < width then width - |d| else 0) + d
  }

  lemma {:induction false} ZerosAreZero(k: nat)
    ensures FromDigits(Zeros(k)) == 0
  {
    if k > 0 {
      ZerosAreZero(k - 1);
    }
  }

  lemma {:induction false} LeadingZeros(k: nat, d: Bytes)
    ensures FromDigits(Zeros(k) + d) == FromDigits(d)
  {
    if d == [] {
      ZerosAreZero(k);
      assert Zeros(k) + d == Zeros(k);
    } else {
      var init, last := d[..|d| - 1], d[|d| - 1];
      LeadingZeros(k, init);
      assert Zeros(k) + d == Zeros(k) + init + [last];
    }
  }

  /** A padded number reads as that number, and has no more digits than the width unless it needs them. */
  lemma PaddedReads(n: nat, width: nat)
    ensures FromDigits(Padded(n, width)) == n && |Padded(n, width)| >= width
    ensures |Padded(n, width)| > width ==> Padded(n, width) == Digits(n)
  {
    LeadingZeros(if |Digits(n)| < width then width - |Digits(n)| else 0, Digits(n));
    FromDigitsOfDigits(n);
    assert [] + Digits(n) == Digits(n);
  }

  /** Padding to a width never makes two numbers alike. */
  lemma PaddedInjective(m: nat, n: nat, width: nat)
    requires Padded(m, width) == Padded(n, width)
    ensures m == n
  {
    LeadingZeros(if |Digits(m)| < width then width - |Digits(m)| else 0, Digits(m));
    LeadingZeros(if |Digits(n)| < width then width - |Digits(n)| else 0, Digits(n));
    FromDigitsOfDigits(m);
    FromDigitsOfDigits(n);
  }
}
