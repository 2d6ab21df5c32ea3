/** The packets of the one-way transport: sizes, layout, and the sequence a bundle is cut into. */
module OutnetPackets {
  import opened Bits
  import opened Parity

  const MAX_MTU := 255
  const LANES := 5
  const SEQ_LIMIT := 16384   // sequence numbers keep 14 bits

  // ---------------------------------------------------------------- sizes

  /** Data bytes of a packet, as the sender and as the receiver work them out. */
  function SenderData(mtu: nat): nat
    requires mtu >= 4
  {
    (mtu - 4) * 3 / 4
  }

  function ReceiverData(mtu: nat): nat
    requires mtu >= 4
  {
    (mtu - 3) * 3 / 4
  }

  /** Both sides accept an MTU, and agree, exactly when it is four more than a multiple of four. */
  lemma SizesAgree(mtu: nat)
    requires mtu >= 4
    ensures SenderData(mtu) % 3 == 0 && ReceiverData(mtu) % 3 == 0 <==> (mtu - 4) % 4 == 0
    ensures (mtu - 4) % 4 == 0 ==> SenderData(mtu) == ReceiverData(mtu) == 3 * ((mtu - 4) / 4)
  {
    hide SenderData, ReceiverData;
    var q, r := (mtu - 4) / 4, (mtu - 4) % 4;
    DataSizes(mtu, q, r);
    if r == 3 {
      Thirds(q, 2);
      Thirds(q + 1, 0);
    } else {
      Thirds(q, r);
      Thirds(q, if r == 0 then 0 else r - 1);
    }
  }

  lemma Thirds(q: nat, r: nat)
    requires r < 3
    ensures (3 * q + r) % 3 == r
  {
  }

  lemma DataSizes(mtu: nat, q: nat, r: nat)
    requires mtu == 4 + 4 * q + r && r < 4
    ensures SenderData(mtu) == 3 * q + (if r == 0 then 0 else r - 1)
    ensures ReceiverData(mtu) == 3 * q + r
  {
    assert (mtu - 4) * 3 == 4 * (3 * q) + 3 * r;
    assert (mtu - 3) * 3 == 4 * (3 * q) + 3 * r + 3;
  }

  // ---------------------------------------------------------------- layout

  /** A packet's contents; the sequence number comes with the start and end flags. */
  datatype Packet = Packet(number: nat, start: bool, end: bool, data: seq<byte>, stripe: seq<byte>)

  ghost predicate ValidPacket(x: Packet, p: nat) {
    x.number < SEQ_LIMIT && |x.data| == 3 * p && |x.stripe| == p
  }

  /** n | f, f a power of two. */
  function WithFlag(n: nat, f: nat): (r: nat)
    requires f > 0
  {
    if n / f % 2 == 1 then n else n + f
  }

  /** The sender's seq: the number, with the flags set in it. */
  function Flagged(x: Packet): nat {
    var n := if x.start then WithFlag(x.number, 0x4000) else x.number;
    if x.end then WithFlag(n, 0x8000) else n
  }

  function Encode(lane: byte, mtu: byte, x: Packet): (r: seq<byte>) {
    [lane, Flagged(x) % 256, Flagged(x) / 256 % 256, mtu] + x.data + x.stripe
  }

  /** The lane, the number with the start flag 0x4000 and the end flag 0x8000, lowest byte first, and the MTU;
      then three parts of data, and one of parity. */
  lemma PacketLayout(lane: byte, mtu: byte, x: Packet)
    requires x.number < 16384
    ensures Encode(lane, mtu, x) ==
            [lane, x.number % 256, x.number / 256 + (if x.start then 0x40 else 0) + (if x.end then 0x80 else 0), mtu] + x.data + x.stripe
  {
    var n, s, e := x.number, if x.start then 1 else 0, if x.end then 2 else 0;
    assert Flagged(x) == n + 0x4000 * (s + e) by {
      hide WithFlag;
      AtTop(0, n);
      AtTop(s, n);
    }
    LowByte(s + e, n);
    HighByte(s + e, n / 256);
  }

  /** What a receiver takes a packet for: the number keeps 14 bits, and the next two run into the flags. */
  function AsRead(x: Packet): (y: Packet)
    ensures y == x <==> x.number < SEQ_LIMIT
  {
    x.(number := x.number % SEQ_LIMIT, start := x.start || x.number / 0x4000 % 2 == 1, end := x.end || x.number / 0x8000 % 2 == 1)
  }

  /** Reading the number and the flags back, whatever the number is. */
  lemma FlagsRead(x: Packet)
    ensures var lo, hi, y := Flagged(x) % 256, Flagged(x) / 256 % 256, AsRead(x);
            (lo + 256 * hi) % 0x4000 == y.number && (hi / 0x40 % 2 == 1 <==> y.start) && (hi / 0x80 % 2 == 1 <==> y.end)
  {
    hide Flagged;
    var q := FlaggedIs(x);
    HeaderParts(q, x.number % 0x4000);
  }

  lemma HeaderParts(q: nat, r: nat)
    requires r < 0x4000
    ensures var lo, hi := (0x4000 * q + r) % 256, (0x4000 * q + r) / 256 % 256;
            (lo + 256 * hi) % 0x4000 == r && hi / 0x40 % 2 == q % 2 && hi / 0x80 % 2 == q / 2 % 2
  {
    var m := q % 4;
    assert m % 2 == q % 2 && m / 2 == q / 2 % 2 by { QuarterBits(q); }
    LowByte(q, r);
    HighByte(q, r / 256);
    HighFlags(m, r / 256);
    NumberOf(m, r);
  }

  lemma QuarterBits(q: nat)
    ensures q % 4 % 2 == q % 2 && q % 4 / 2 == q / 2 % 2
  {
  }

  lemma FlaggedIs(x: Packet) returns (q: nat)
    ensures Flagged(x) == 0x4000 * q + x.number % 0x4000
    ensures q % 2 == 1 <==> x.start || x.number / 0x4000 % 2 == 1
    ensures q / 2 % 2 == 1 <==> x.end || x.number / 0x8000 % 2 == 1
  {
    hide WithFlag;
    var p, r := x.number / 0x4000, x.number % 0x4000;
    HalfOf(x.number);
    AtTop(p, r);
    q := if x.start && p % 2 == 0 then p + 1 else p;
    assert q / 2 == p / 2;
    AtTop(q, r);
    q := if x.end && q / 2 % 2 == 0 then q + 2 else q;
  }

  lemma HalfOf(n: nat)
    ensures n == 0x4000 * (n / 0x4000) + n % 0x4000 && n / 0x8000 == n / 0x4000 / 2
  {
  }

  /** A flag set above the 14 bits. */
  lemma AtTop(q: nat, r: nat)
    requires r < 0x4000
    ensures WithFlag(0x4000 * q + r, 0x4000) == 0x4000 * (if q % 2 == 1 then q else q + 1) + r
    ensures WithFlag(0x4000 * q + r, 0x8000) == 0x4000 * (if q / 2 % 2 == 1 then q else q + 2) + r
  {
    var n := 0x4000 * q + r;
    assert n / 0x4000 == q;
    assert n / 0x8000 == q / 2 by { HalfOf(n); }
  }

  lemma LowByte(q: nat, r: nat)
    ensures (0x4000 * q + r) % 256 == r % 256 && (0x4000 * q + r) / 256 == 64 * q + r / 256
  {
    QuotientUnique(256, (0x4000 * q + r) / 256, (0x4000 * q + r) % 256, 64 * q + r / 256, r % 256);
  }

  lemma HighByte(q: nat, a: nat)
    requires a < 64
    ensures (64 * q + a) % 256 == 64 * (q % 4) + a
  {
    QuotientUnique(256, (64 * q + a) / 256, (64 * q + a) % 256, q / 4, 64 * (q % 4) + a);
  }

  lemma HighFlags(m: nat, a: nat)
    requires m < 4 && a < 64
    ensures (64 * m + a) / 0x40 % 2 == m % 2 && (64 * m + a) / 0x80 % 2 == m / 2
  {
    assert m == 0 || m == 1 || m == 2 || m == 3;
  }

  lemma NumberOf(m: nat, r: nat)
    requires r < 0x4000
    ensures (r % 256 + 256 * (64 * m + r / 256)) % 0x4000 == r
  {
    assert r % 256 + 256 * (64 * m + r / 256) == 0x4000 * m + r;
    QuotientUnique(0x4000, (0x4000 * m + r) / 0x4000, (0x4000 * m + r) % 0x4000, m, r);
  }

  // ---------------------------------------------------------------- a bundle in packets

  /** The serialised bundle: the two lengths, the manifest, the body. */
  function Serialise(manifest: seq<byte>, body: seq<byte>): (s: seq<byte>)
    requires |manifest| < 65536 && |body| < 0x1_0000_0000
    ensures |s| == 6 + |manifest| + |body|
  {
    var m, b := |manifest|, |body|;
    [m % 256, m / 256, b % 256, b / 256 % 256, b / 0x1_0000 % 256, b / 0x100_0000] + manifest + body
  }

  /** The manifest's length in two bytes, the body's in four, lowest bytes first. */
  lemma BundleLayout(manifest: seq<byte>, body: seq<byte>)
    requires |manifest| < 65536 && |body| < 0x1_0000_0000
    ensures var s := Serialise(manifest, body);
            && Number(s[0], s[1], 0, 0) == |manifest| && Number(s[2], s[3], s[4], s[5]) == |body|
            && s[6..6 + |manifest|] == manifest && s[6 + |manifest|..] == body
  {
    FourBytes(|body|);
  }

  /** Four bytes as a number, the lowest first. */
  function Number(a: nat, b: nat, c: nat, d: nat): nat {
    a + 0x100 * b + 0x1_0000 * c + 0x100_0000 * d
  }

  lemma FourBytes(b: nat)
    requires b < 0x1_0000_0000
    ensures b == b % 256 + 256 * (b / 256 % 256) + 0x1_0000 * (b / 0x1_0000 % 256) + 0x100_0000 * (b / 0x100_0000)
  {
  }

  function Zeros(n: nat): (z: seq<byte>)
    ensures |z| == n && forall i :: 0 <= i < n ==> z[i] == 0
  {
    if n == 0 then [] else [0] + Zeros(n - 1)
  }

  /** Room for a zone of zeros, so that the last zone can be read whole. */
  function Padded(s: seq<byte>): (r: seq<byte>)
    ensures |r| == |s| + 4 * MAX_MTU && r[..|s|] == s
  {
    s + Zeros(4 * MAX_MTU)
  }

  /** How many zones of four packets of 3p bytes a bundle takes. */
  function ZoneCount(len: nat, p: nat): (z: nat)
    requires p > 0
  {
    (len + 12 * p - 1) / (12 * p)
  }

  lemma ZoneCountBounds(len: nat, p: nat)
    requires 0 < p <= 62 && len > 0
    ensures var z := ZoneCount(len, p);
            z > 0 && (z - 1) * (12 * p) < len <= z * (12 * p) <= len + 4 * MAX_MTU
  {
    var n, z := len + 12 * p - 1, ZoneCount(len, p);
    assert n == z * (12 * p) + n % (12 * p);
    assert (z - 1) * (12 * p) == z * (12 * p) - 12 * p;
  }

  /** Slice k of zone z. */
  function Slice(s: seq<byte>, p: nat, z: nat, k: nat): (r: seq<byte>)
    requires (z + 1) * (12 * p) <= |s| && k < 4
    ensures |r| == 3 * p
  {
    SliceFits(p, z, k);
    s[z * (12 * p) + k * (3 * p)..z * (12 * p) + k * (3 * p) + 3 * p]
  }

  lemma SliceFits(p: nat, z: nat, k: nat)
    requires k < 4
    ensures k * (3 * p) + 3 * p <= 12 * p
    ensures z * (12 * p) + k * (3 * p) == (4 * z + k) * (3 * p)
    ensures z * (12 * p) + k * (3 * p) + 3 * p <= (z + 1) * (12 * p) == z * (12 * p) + 12 * p
  {
    assert k == 0 || k == 1 || k == 2 || k == 3;
  }

  function ZoneAt(s: seq<byte>, p: nat, z: nat): (d: seq<seq<byte>>)
    requires (z + 1) * (12 * p) <= |s|
    ensures Zone(d, p)
  {
    [Slice(s, p, z, 0), Slice(s, p, z, 1), Slice(s, p, z, 2), Slice(s, p, z, 3)]
  }

  /** Packet i of a bundle whose serialised form has len bytes. */
  function PacketAt(s: seq<byte>, len: nat, p: nat, i: nat): (x: Packet)
    requires p > 0 && (i / 4 + 1) * (12 * p) <= |s|
  {
    var d := ZoneAt(s, p, i / 4);
    Packet(i, i == 0, i % 4 == 3 && i / 4 + 1 >= ZoneCount(len, p), d[i % 4], Stripe(d, p, i % 4))
  }

  /** Where packet i stands in its zone. */
  lemma Place(i: nat, p: nat)
    requires p > 0
    ensures (i * (3 * p)) % (12 * p) == (i % 4) * (3 * p)
    ensures i * (3 * p) - (i % 4) * (3 * p) == (i / 4) * (12 * p)
    ensures ((i % 4) * (3 * p)) / (3 * p) == i % 4 && (i * (3 * p)) / (3 * p) == i
  {
    var q, r := i / 4, i % 4;
    assert i == 4 * q + r;
    assert i * (3 * p) == q * (12 * p) + r * (3 * p);
    SliceFits(p, q, r);
    QuotientUnique(12 * p, (i * (3 * p)) / (12 * p), (i * (3 * p)) % (12 * p), q, r * (3 * p));
    QuotientUnique(3 * p, (r * (3 * p)) / (3 * p), (r * (3 * p)) % (3 * p), r, 0);
    QuotientUnique(3 * p, (i * (3 * p)) / (3 * p), (i * (3 * p)) % (3 * p), i, 0);
  }

  /** Every packet's zone lies in the padded bundle. */
  lemma InPadded(s: seq<byte>, p: nat, i: nat)
    requires 0 < p <= 62 && |s| > 0 && i < 4 * ZoneCount(|s|, p)
    ensures (i / 4 + 1) * (12 * p) <= |Padded(s)|
  {
    hide ZoneCount;
    ZoneCountBounds(|s|, p);
    MulUp(i / 4 + 1, ZoneCount(|s|, p), 12 * p);
  }

  lemma MulUp(a: nat, b: nat, p: nat)
    requires a <= b
    ensures a * p <= b * p
  {
  }

  lemma ThirdOfSlice(s: seq<byte>, p: nat, z: nat, j: nat, t: nat)
    requires j < 4 && t < 3 && (z + 1) * (12 * p) <= |s|
    ensures var at := z * (12 * p) + j * (3 * p) + t * p;
            at + p <= |s| && Third(Slice(s, p, z, j), t, p) == s[at..at + p]
  {
    hide Third, Slice;
    SliceBytes(s, p, z, j);
    ThirdBytes(Slice(s, p, z, j), t, p);
    SubSub(s, z * (12 * p) + j * (3 * p), 3 * p, t * p, p);
  }

  lemma SliceBytes(s: seq<byte>, p: nat, z: nat, j: nat)
    requires j < 4 && (z + 1) * (12 * p) <= |s|
    ensures var at := z * (12 * p) + j * (3 * p); at + 3 * p <= |s| && Slice(s, p, z, j) == s[at..at + 3 * p]
  {
    SliceFits(p, z, j);
  }

  lemma ThirdBytes(x: seq<byte>, t: nat, p: nat)
    requires t < 3 && |x| == 3 * p
    ensures t * p + p <= |x| && Third(x, t, p) == x[t * p..t * p + p]
  {
    Third0(t, p);
  }

  lemma SubSub(s: seq<byte>, a: nat, n: nat, b: nat, k: nat)
    requires a + n <= |s| && b + k <= n
    ensures s[a..a + n][b..b + k] == s[a + b..a + b + k]
  {
    var x, y := s[a..a + n][b..b + k], s[a + b..a + b + k];
    forall i | 0 <= i < k
      ensures x[i] == y[i]
    {
      assert s[a..a + n][b + i] == s[a + b + i];
    }
  }
}
