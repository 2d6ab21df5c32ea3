/** Bit strings and powers of two.
    A deflate stream is read least significant bit first, so the low bits of a bit
    buffer are the next bits of the stream. */
module Bits {

  type byte = b: int | 0 <= b < 256

  function Pow2(n: nat): (r: nat)
    ensures r >= 1
  {
    if n == 0 then 1 else 2 * Pow2(n - 1)
  }

  /** v >> n */
  function Shr(v: nat, n: nat): (r: nat)
    ensures r <= v
  {
    if n == 0 then v else Shr(v / 2, n - 1)
  }

  /** v & (2^n - 1) */
  function Low(v: nat, n: nat): (r: nat)
    ensures r < Pow2(n) && r <= v
  {
    if n == 0 then 0 else v % 2 + 2 * Low(v / 2, n - 1)
  }

  /** The low n bits of v, least significant first. */
  function LowBits(v: nat, n: nat): (s: seq<bool>)
    ensures |s| == n
  {
    if n == 0 then [] else [v % 2 == 1] + LowBits(v / 2, n - 1)
  }

  /** The number whose low bits are s. */
  function FromBits(s: seq<bool>): (v: nat)
    ensures v < Pow2(|s|)
  {
    if s == [] then 0 else (if s[0] then 1 else 0) + 2 * FromBits(s[1..])
  }

  function ByteBits(s: seq<byte>): (r: seq<bool>)
    ensures |r| == 8 * |s|
  {
    if s == [] then [] else LowBits(s[0], 8) + ByteBits(s[1..])
  }

  lemma {:induction false} Pow2Add(a: nat, b: nat)
    ensures Pow2(a + b) == Pow2(a) * Pow2(b)
  {
    if a > 0 {
      Pow2Add(a - 1, b);
      assert 2 * (Pow2(a - 1) * Pow2(b)) == (2 * Pow2(a - 1)) * Pow2(b);
    }
  }

  lemma {:induction false} Pow2Mono(a: nat, b: nat)
    requires a <= b
    ensures Pow2(a) <= Pow2(b)
  {
    if a < b { Pow2Mono(a, b - 1); }
  }

  lemma Pow2Values()
    ensures Pow2(1) == 2 && Pow2(2) == 4 && Pow2(3) == 8 && Pow2(4) == 16 && Pow2(5) == 32 && Pow2(6) == 64
    ensures Pow2(7) == 128 && Pow2(8) == 256 && Pow2(9) == 512 && Pow2(10) == 1024
    ensures Pow2(11) == 2048 && Pow2(12) == 4096 && Pow2(13) == 8192 && Pow2(14) == 16384
    ensures Pow2(15) == 32768 && Pow2(16) == 65536
  {
    assert Pow2(4) == 16;
    assert Pow2(8) == 256;
    assert Pow2(12) == 4096;
  }

  lemma MulDouble(p: nat, x: nat)
    ensures (2 * p) * x == 2 * (p * x) && x * (2 * p) == 2 * (x * p)
  {
  }

  lemma {:induction false} LowShr(v: nat, n: nat)
    ensures v == Low(v, n) + Pow2(n) * Shr(v, n)
  {
    if n > 0 {
      LowShr(v / 2, n - 1);
      MulDouble(Pow2(n - 1), Shr(v, n));
    }
  }

  lemma HalveSum(a: nat, m: nat)
    ensures (a + 2 * m) / 2 == a / 2 + m && (a + 2 * m) % 2 == a % 2
  {
  }

  /** Placing b above a, where a has n bits, then taking them apart again. */
  lemma {:induction false} Placed(a: nat, n: nat, b: nat)
    requires a < Pow2(n)
    ensures Low(a + b * Pow2(n), n) == a && Shr(a + b * Pow2(n), n) == b
  {
    if n > 0 {
      Placed(a / 2, n - 1, b);
      MulDouble(Pow2(n - 1), b);
      HalveSum(a, b * Pow2(n - 1));
    } else {
      assert b * Pow2(n) == b;
    }
  }

  lemma {:induction false} LowOfSmall(v: nat, n: nat)
    requires v < Pow2(n)
    ensures Low(v, n) == v && Shr(v, n) == 0
  {
    if n > 0 { LowOfSmall(v / 2, n - 1); }
  }

  lemma {:induction false} ShrShr(v: nat, a: nat, b: nat)
    ensures Shr(Shr(v, a), b) == Shr(v, a + b)
  {
    if a > 0 { ShrShr(v / 2, a - 1, b); }
  }

  lemma {:induction false} LowBitsTake(v: nat, k: nat, n: nat)
    requires k <= n
    ensures LowBits(v, n) == LowBits(v, k) + LowBits(Shr(v, k), n - k)
  {
    if k > 0 { LowBitsTake(v / 2, k - 1, n - 1); }
  }

  lemma {:induction false} FromLowBits(v: nat, n: nat)
    ensures FromBits(LowBits(v, n)) == Low(v, n)
  {
    if n > 0 {
      FromLowBits(v / 2, n - 1);
      assert LowBits(v, n)[1..] == LowBits(v / 2, n - 1);
    }
  }

  lemma {:induction false} LowBitsOfLow(v: nat, n: nat)
    ensures LowBits(Low(v, n), n) == LowBits(v, n)
  {
    if n > 0 {
      LowBitsOfLow(v / 2, n - 1);
      assert Low(v, n) / 2 == Low(v / 2, n - 1);
    }
  }

  /** Placing b above the low k bits concatenates the bit strings.  This is what
      `buffer |= b << k` does while buffer is below 2^k: no bit is set twice, so | adds. */
  lemma LowBitsConcat(a: nat, k: nat, b: nat, m: nat)
    requires a < Pow2(k)
    ensures LowBits(a + b * Pow2(k), k + m) == LowBits(a, k) + LowBits(b, m)
  {
    var v := a + b * Pow2(k);
    Placed(a, k, b);
    LowBitsTake(v, k, k + m);
    LowBitsOfLow(v, k);
  }

  lemma {:induction false} ByteBitsAppend(s: seq<byte>, t: seq<byte>)
    ensures ByteBits(s + t) == ByteBits(s) + ByteBits(t)
  {
    if s == [] {
      assert s + t == t;
    } else {
      assert (s + t)[1..] == s[1..] + t;
      ByteBitsAppend(s[1..], t);
    }
  }

  lemma SmallMultipleIsZero(x: int, d: int)
    requires 0 < d && -d < x * d < d
    ensures x == 0
  {
    assert x > 0 ==> (x - 1) * d >= 0;
    assert x < 0 ==> (-x - 1) * d >= 0;
  }

  lemma QuotientUnique(d: int, q: int, r: int, q': int, r': int)
    requires 0 <= r < d && 0 <= r' < d && q * d + r == q' * d + r'
    ensures q == q' && r == r'
  {
    assert (q - q') * d == r' - r;
    SmallMultipleIsZero(q - q', d);
  }

  /** Masking is remainder and shifting is division. */
  lemma LowIsRemainder(v: nat, n: nat)
    ensures Low(v, n) == v % Pow2(n) && Shr(v, n) == v / Pow2(n)
  {
    LowShr(v, n);
    hide Low, Shr, Pow2;
    var p := Pow2(n);
    assert v == (v / p) * p + v % p;
    assert p * Shr(v, n) == Shr(v, n) * p;
    QuotientUnique(p, v / p, v % p, Shr(v, n), Low(v, n));
  }

  lemma {:induction false} ShrBound(v: nat, k: nat, n: nat)
    requires v < Pow2(n) && k <= n
    ensures Shr(v, k) < Pow2(n - k)
  {
    if k > 0 { ShrBound(v / 2, k - 1, n - 1); }
  }

  // ---------------------------------------------------------------- exclusive or

  /** Bitwise exclusive or. */
  function Xor(a: nat, b: nat): (x: nat) {
    if a == 0 then b else 2 * Xor(a / 2, b / 2) + (a + b) % 2
  }

  lemma {:induction false} XorParts(a: nat, b: nat)
    ensures Xor(a, b) % 2 == (a + b) % 2 && Xor(a, b) / 2 == Xor(a / 2, b / 2)
  {
  }

  lemma {:induction false} XorBound(a: nat, b: nat, n: nat)
    requires a < Pow2(n) && b < Pow2(n)
    ensures Xor(a, b) < Pow2(n)
  {
    if n > 0 && a > 0 { XorBound(a / 2, b / 2, n - 1); }
  }

  lemma {:induction false} XorCommutes(a: nat, b: nat)
    ensures Xor(a, b) == Xor(b, a)
    decreases a + b
  {
    if a > 0 || b > 0 {
      XorCommutes(a / 2, b / 2);
      XorParts(a, b);
      XorParts(b, a);
    }
  }

  lemma XorNone()
    ensures Xor(0, 0) == 0
  {
  }

  lemma {:induction false} XorAssociates(a: nat, b: nat, c: nat)
    ensures Xor(Xor(a, b), c) == Xor(a, Xor(b, c))
    decreases a + b + c
  {
    hide Xor;
    XorNone();
    if a > 0 || b > 0 || c > 0 {
      XorAssociates(a / 2, b / 2, c / 2);
      var x, y := Xor(a, b), Xor(b, c);
      XorParts(a, b);
      XorParts(b, c);
      XorParts(x, c);
      XorParts(a, y);
      OddSum(a, b, c, x, y);
    }
  }

  lemma OddSum(a: nat, b: nat, c: nat, x: nat, y: nat)
    requires x % 2 == (a + b) % 2 && y % 2 == (b + c) % 2
    ensures (x + c) % 2 == (a + y) % 2
  {
  }

  lemma {:induction false} XorSelf(a: nat)
    ensures Xor(a, a) == 0
  {
    if a > 0 { XorSelf(a / 2); }
  }

  /** The exclusive or of two bytes. */
  function XorByte(a: byte, b: byte): (x: byte) {
    Pow2Values();
    XorBound(a, b, 8);
    Xor(a, b)
  }

  /** XOR-ing the same byte in again takes it out. */
  lemma XorTwice(a: nat, b: nat)
    ensures Xor(Xor(a, b), b) == a
  {
    XorAssociates(a, b, b);
    XorSelf(b);
    XorCommutes(a, 0);
  }
}
