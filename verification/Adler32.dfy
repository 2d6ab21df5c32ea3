/** The Adler-32 checksum with the modulus taken once a block (mz_adler32). */
module Adler32 {
  import opened Bits

  const BASE := 65521
  const BLOCK := 5552

  type u32 = x: int | 0 <= x < 0x1_0000_0000

  /** Section 2.2 of RFC 1950, byte by byte: both sums reduced at every step. */
  function Checksum(s1: nat, s2: nat, data: seq<byte>): (r: (nat, nat))
    decreases |data|
  {
    if data == [] then (s1, s2) else
      var t := (s1 + data[0]) % BASE;
      Checksum(t, (s2 + t) % BASE, data[1..])
  }

  function Adler(adler: u32, data: seq<byte>): (r: u32) {
    ChecksumBound(adler % 65536, adler / 65536, data);
    var s := Checksum(adler % 65536, adler / 65536, data);
    s.1 * 65536 + s.0
  }

  lemma {:induction false} ChecksumBound(s1: nat, s2: nat, data: seq<byte>)
    requires s1 < 65536 && s2 < 65536
    ensures Checksum(s1, s2, data).0 < 65536 && Checksum(s1, s2, data).1 < 65536
    decreases |data|
  {
    if data != [] {
      var t := (s1 + data[0]) % BASE;
      ChecksumBound(t, (s2 + t) % BASE, data[1..]);
    }
  }

  /** Checksumming two parts in turn is checksumming them together. */
  lemma {:induction false} ChecksumAppend(s1: nat, s2: nat, a: seq<byte>, b: seq<byte>)
    ensures Checksum(s1, s2, a + b) == (var s := Checksum(s1, s2, a); Checksum(s.0, s.1, b))
    decreases |a|
  {
    if a == [] {
      assert a + b == b;
    } else {
      assert (a + b)[1..] == a[1..] + b;
      var t := (s1 + a[0]) % BASE;
      ChecksumAppend(t, (s2 + t) % BASE, a[1..], b);
    }
  }

  lemma AdlerAppend(adler: u32, a: seq<byte>, b: seq<byte>)
    ensures Adler(adler, a + b) == Adler(Adler(adler, a), b)
  {
    hide Checksum;
    var s1, s2 := adler % 65536, adler / 65536;
    ChecksumAppend(s1, s2, a, b);
    ChecksumBound(s1, s2, a);
    Halves(Checksum(s1, s2, a).0, Checksum(s1, s2, a).1);
  }

  lemma Halves(lo: nat, hi: nat)
    requires lo < 65536
    ensures (hi * 65536 + lo) % 65536 == lo && (hi * 65536 + lo) / 65536 == hi
  {
  }

  // ---------------------------------------------------------------- sums without reduction

  /** Both sums, never reduced. */
  function Sums(s1: nat, s2: nat, data: seq<byte>): (r: (nat, nat))
    decreases |data|
  {
    if data == [] then (s1, s2) else Sums(s1 + data[0], s2 + s1 + data[0], data[1..])
  }

  lemma {:induction false} SumsLast(s1: nat, s2: nat, data: seq<byte>, b: byte)
    ensures Sums(s1, s2, data + [b]) == (var s := Sums(s1, s2, data); (s.0 + b, s.1 + s.0 + b))
    decreases |data|
  {
    if data == [] {
      assert data + [b] == [b] && [b][1..] == [];
    } else {
      assert (data + [b])[1..] == data[1..] + [b];
      SumsLast(s1 + data[0], s2 + s1 + data[0], data[1..], b);
    }
  }

  lemma ModAdd(x: nat, y: nat, z: nat)
    requires x % BASE == y % BASE
    ensures (x + z) % BASE == (y + z) % BASE
  {
    var p, q := x / BASE, y / BASE;
    assert x + z == (y + z) + BASE * (p - q);
    QuotientUnique(BASE, (x + z) / BASE, (x + z) % BASE, (y + z) / BASE + (p - q), (y + z) % BASE);
  }

  /** Reducing late gives the same remainders. */
  lemma {:induction false} DeferredModulus(s1: nat, s2: nat, t1: nat, t2: nat, data: seq<byte>)
    requires s1 % BASE == t1 % BASE && s2 % BASE == t2 % BASE
    ensures Sums(s1, s2, data).0 % BASE == Checksum(t1, t2, data).0 % BASE
    ensures Sums(s1, s2, data).1 % BASE == Checksum(t1, t2, data).1 % BASE
    ensures data != [] ==> Checksum(t1, t2, data).0 < BASE && Checksum(t1, t2, data).1 < BASE
    decreases |data|
  {
    if data != [] {
      var b := data[0];
      var t := (t1 + b) % BASE;
      ModAdd(s1, t1, b);
      assert (s1 + b) % BASE == t == t % BASE;
      ModAdd(s2, t2, s1 + b);
      ModAdd(s1 + b, t, t2);
      assert (s2 + s1 + b) % BASE == (t2 + t) % BASE;
      DeferredModulus(s1 + b, s2 + s1 + b, t, (t2 + t) % BASE, data[1..]);
    }
  }

  /** How large the sums get within a block. */
  ghost predicate Small(s1: nat, s2: nat, n: nat) {
    s1 <= 65535 + 255 * n && s2 <= 65535 * (n + 1) + 255 * Triangle(n)
  }

  function Triangle(n: nat): (t: nat) {
    if n == 0 then 0 else Triangle(n - 1) + n
  }

  lemma {:induction false} TriangleIs(n: nat)
    ensures 2 * Triangle(n) == n * (n + 1)
  {
    if n > 0 { TriangleIs(n - 1); }
  }

  lemma {:induction false} TriangleMono(n: nat, m: nat)
    requires n <= m
    ensures Triangle(n) <= Triangle(m)
  {
    if n < m { TriangleMono(n, m - 1); }
  }

  /** 5552 bytes are the most that cannot overflow 32 bits. */
  lemma BlockFits(s1: nat, s2: nat, n: nat)
    requires Small(s1, s2, n) && n <= BLOCK
    ensures s1 < 0x1_0000_0000 && s2 < 0x1_0000_0000
  {
    TriangleMono(n, BLOCK);
    TriangleIs(BLOCK);
  }

  lemma SmallStep(s1: nat, s2: nat, n: nat, b: byte)
    requires Small(s1, s2, n)
    ensures Small(s1 + b, s2 + s1 + b, n + 1)
  {
  }

  /** One block, without reduction. */
  method SumBlock(data: seq<byte>, from: nat, n: nat, a1: u32, a2: u32) returns (s1: u32, s2: u32)
    requires from + n <= |data| && n <= BLOCK && a1 <= 65535 && a2 <= 65535
    ensures (s1, s2) == Sums(a1, a2, data[from..from + n])
  {
    hide Small, Sums;
    s1, s2 := a1, a2;
    var i := 0;
    StartSmall(a1, a2, data, from);
    while i + 7 < n
      invariant 0 <= i <= n && Small(s1, s2, i) && (s1, s2) == Sums(a1, a2, data[from..from + i])
    {
      ghost var i0 := i;
      for k := 0 to 8
        invariant i == i0 + k <= n && Small(s1, s2, i) && (s1, s2) == Sums(a1, a2, data[from..from + i])
      {
        s1, s2 := AddByte(data, from, i, a1, a2, s1, s2);
        i := i + 1;
      }
    }
    while i < n
      invariant 0 <= i <= n && Small(s1, s2, i) && (s1, s2) == Sums(a1, a2, data[from..from + i])
    {
      s1, s2 := AddByte(data, from, i, a1, a2, s1, s2);
      i := i + 1;
    }
  }

  lemma StartSmall(a1: nat, a2: nat, data: seq<byte>, from: nat)
    requires a1 <= 65535 && a2 <= 65535 && from <= |data|
    ensures Small(a1, a2, 0) && Sums(a1, a2, data[from..from]) == (a1, a2)
  {
  }

  method AddByte(data: seq<byte>, from: nat, i: nat, ghost a1: nat, ghost a2: nat, s1: u32, s2: u32) returns (t1: u32, t2: u32)
    requires from + i < |data| && i < BLOCK && Small(s1, s2, i) && (s1, s2) == Sums(a1, a2, data[from..from + i])
    ensures Small(t1, t2, i + 1) && (t1, t2) == Sums(a1, a2, data[from..from + i + 1])
  {
    var b := data[from + i];
    SmallStep(s1, s2, i, b);
    BlockFits(s1 + b, s2 + s1 + b, i + 1);
    SumsLast(a1, a2, data[from..from + i], b);
    assert data[from..from + i + 1] == data[from..from + i] + [b];
    t1 := s1 + b;
    t2 := s2 + t1;
  }

  /** mz_adler32: the first block is what does not fill whole blocks, and may be empty. */
  method Compute(adler: u32, data: seq<byte>) returns (r: u32)
    ensures r == Adler(adler, data)
  {
    hide Sums, Checksum;
    var s1: u32, s2: u32 := adler % 65536, adler / 65536;
    ghost var a1, a2 := s1, s2;
    var left, blockLen, at := |data|, |data| % BLOCK, 0;
    NoBytes(a1, a2, data);
    while left > 0
      invariant 0 <= left && at + left == |data| && s1 < 65536 && s2 < 65536
      invariant if blockLen == BLOCK then left % BLOCK == 0 else at == 0 && blockLen == left % BLOCK
      invariant s1 % BASE == Checksum(a1, a2, data[..at]).0 % BASE && s2 % BASE == Checksum(a1, a2, data[..at]).1 % BASE
      invariant at > 0 || left == 0 ==> (s1, s2) == Checksum(a1, a2, data[..at])
      decreases left, if blockLen == 0 then 1 else 0
    {
      ghost var b1, b2 := s1, s2;
      s1, s2 := SumBlock(data, at, blockLen, s1, s2);
      BlockChecksum(a1, a2, data, at, blockLen, b1, b2);
      s1 := s1 % BASE;
      s2 := s2 % BASE;
      at, left := at + blockLen, left - blockLen;
      blockLen := BLOCK;
    }
    assert data[..at] == data;
    r := s2 * 65536 + s1;
  }

  lemma NoBytes(a1: nat, a2: nat, data: seq<byte>)
    ensures Checksum(a1, a2, data[..0]) == (a1, a2)
  {
  }

  lemma BlockChecksum(a1: nat, a2: nat, data: seq<byte>, at: nat, n: nat, b1: nat, b2: nat)
    requires at + n <= |data|
    requires b1 % BASE == Checksum(a1, a2, data[..at]).0 % BASE && b2 % BASE == Checksum(a1, a2, data[..at]).1 % BASE
    ensures var s, c := Sums(b1, b2, data[at..at + n]), Checksum(a1, a2, data[..at + n]);
            && s.0 % BASE == c.0 % BASE && s.1 % BASE == c.1 % BASE
            && (n > 0 ==> c.0 < BASE && c.1 < BASE)
  {
    hide Sums, Checksum;
    var c := Checksum(a1, a2, data[..at]);
    ChecksumAppend(a1, a2, data[..at], data[at..at + n]);
    assert data[..at] + data[at..at + n] == data[..at + n];
    DeferredModulus(b1, b2, c.0, c.1, data[at..at + n]);
  }
}
