/** SHA-1 as FIPS 180-2 defines it: the 80-word schedule, the compression of a block, the padding of
    a whole message (sections 4.1.1, 5.1.1 and 6.1). */
module Sha1Spec {

  datatype Vars = Vars(a: bv32, b: bv32, c: bv32, d: bv32, e: bv32)

  const INITIAL := Vars(0x67452301, 0xefcdab89, 0x98badcfe, 0x10325476, 0xc3d2e1f0)

  const BLOCK := 64

  function Rotl1(x: bv32): bv32 { (x << 1) | (x >> 31) }
  function Rotl5(x: bv32): bv32 { (x << 5) | (x >> 27) }
  function Rotl30(x: bv32): bv32 { (x << 30) | (x >> 2) }

  /** Addition modulo 2^32. */
  function Add(x: bv32, y: bv32): bv32 { x + y }

  function Sum(v: bv32, w: bv32, x: bv32, y: bv32, z: bv32): bv32 { v + w + x + y + z }

  function Ch(x: bv32, y: bv32, z: bv32): bv32 { (x & y) ^ (!x & z) }
  function Parity(x: bv32, y: bv32, z: bv32): bv32 { x ^ y ^ z }
  function Maj(x: bv32, y: bv32, z: bv32): bv32 { (x & y) ^ (x & z) ^ (y & z) }

  function F(t: nat, b: bv32, c: bv32, d: bv32): bv32 {
    if t < 20 then Ch(b, c, d) else if t < 40 then Parity(b, c, d) else if t < 60 then Maj(b, c, d) else Parity(b, c, d)
  }

  function K(t: nat): bv32 {
    if t < 20 then 0x5a827999 else if t < 40 then 0x6ed9eba1 else if t < 60 then 0x8f1bbcdc else 0xca62c1d6
  }

  /** Word t of the message schedule. */
  function W(m: seq<bv32>, t: nat): bv32
    requires |m| == 16
  {
    if t < 16 then m[t] else Rotl1(W(m, t - 3) ^ W(m, t - 8) ^ W(m, t - 14) ^ W(m, t - 16))
  }

  function Round(v: Vars, t: nat, w: bv32): Vars {
    Vars(Sum(Rotl5(v.a), F(t, v.b, v.c, v.d), v.e, K(t), w), v.a, Rotl30(v.b), v.c, v.d)
  }

  function Rounds(v: Vars, m: seq<bv32>, n: nat): Vars
    requires |m| == 16
  {
    if n == 0 then v else Round(Rounds(v, m, n - 1), n - 1, W(m, n - 1))
  }

  function Plus(x: Vars, y: Vars): Vars {
    Vars(Add(x.a, y.a), Add(x.b, y.b), Add(x.c, y.c), Add(x.d, y.d), Add(x.e, y.e))
  }

  function Compress(h: Vars, m: seq<bv32>): Vars
    requires |m| == 16
  {
    Plus(h, Rounds(h, m, 80))
  }

  function Word(b0: bv8, b1: bv8, b2: bv8, b3: bv8): bv32 {
    ((b0 as bv32) << 24) | ((b1 as bv32) << 16) | ((b2 as bv32) << 8) | (b3 as bv32)
  }

  /** Whole words, most significant byte first. */
  function Words(s: seq<bv8>): (m: seq<bv32>)
    requires |s| % 4 == 0
    ensures |m| == |s| / 4 && forall i :: 0 <= i < |m| ==> m[i] == Word(s[4 * i], s[4 * i + 1], s[4 * i + 2], s[4 * i + 3])
  {
    if s == [] then [] else [Word(s[0], s[1], s[2], s[3])] + Words(s[4..])
  }

  /** The hash value after whole blocks. */
  function Blocks(h: Vars, s: seq<bv8>): Vars
    requires |s| % BLOCK == 0
  {
    if s == [] then h else Compress(Blocks(h, s[..|s| - BLOCK]), Words(s[|s| - BLOCK..]))
  }

  function Zeros(n: nat): (z: seq<bv8>)
    ensures |z| == n && forall i :: 0 <= i < n ==> z[i] == 0
  {
    if n == 0 then [] else Zeros(n - 1) + [0]
  }

  function ByteOf(v: nat, scale: nat): bv8
    requires scale > 0
  {
    (v / scale % 256) as bv8
  }

  /** A length in bits, of 64 bits. */
  function Length(bits: nat): (s: seq<bv8>)
    ensures |s| == 8
  {
    [ByteOf(bits, 0x100_0000_0000_0000), ByteOf(bits, 0x1_0000_0000_0000), ByteOf(bits, 0x100_0000_0000),
     ByteOf(bits, 0x1_0000_0000), ByteOf(bits, 0x100_0000), ByteOf(bits, 0x1_0000), ByteOf(bits, 0x100), ByteOf(bits, 1)]
  }

  /** A one bit, the fewest zeros that reach 56 bytes into a block, and the length. */
  function Padding(n: nat): (s: seq<bv8>)
    ensures (n + |s|) % BLOCK == 0
  {
    hide Zeros, Length;
    PadFills(n);
    [0x80] + Zeros((119 - n % 64) % 64) + Length(8 * n)
  }

  lemma PadFills(n: nat)
    ensures (n + (119 - n % 64) % 64 + 9) % 64 == 0
  {
    var q, r := n / 64, n % 64;
    var k := (119 - r) % 64;
    assert k == if r < 56 then 55 - r else 119 - r;
    assert n + k + 9 == 64 * (q + (if r < 56 then 1 else 2));
  }

  /** The bytes of a word, most significant first. */
  function Bytes(w: bv32): seq<bv8> {
    [((w >> 24) & 0xff) as bv8, ((w >> 16) & 0xff) as bv8, ((w >> 8) & 0xff) as bv8, (w & 0xff) as bv8]
  }

  function Digest(msg: seq<bv8>): seq<bv8> {
    var h := Blocks(INITIAL, msg + Padding(|msg|));
    Bytes(h.a) + Bytes(h.b) + Bytes(h.c) + Bytes(h.d) + Bytes(h.e)
  }
}
