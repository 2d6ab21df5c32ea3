/** The uplink: one lane sends a serialised bundle packet by packet
    (outernet_uplink_build_packet). */
module OutnetSender {
  import opened Bits
  import opened Parity
  import opened OutnetPackets

  class Uplink {
    const lane: byte
    const mtu: byte
    const packet: array<byte>    // outernet_packet
    var packetLen: nat
    var active: bool             // serialised_bundle_number != -1
    var bundle: array<byte>      // serialised_bundle, with room for a zone behind it
    var len: nat                 // serialised_len
    var offset: nat              // serialised_offset

    ghost predicate Shaped()
      reads this
    {
      && packet.Length == MAX_MTU && packet != bundle && mtu >= 8 && (mtu - 4) % 4 == 0
      && (active ==> 0 < len && bundle.Length == len + 4 * MAX_MTU)
    }

    function P(): (p: nat)
      requires mtu >= 8
      ensures 1 <= p <= 62
    {
      (mtu - 4) / 4
    }

    /** In the middle of sending s: packet i comes next. */
    ghost predicate Sending(s: seq<byte>, i: nat)
      reads this, bundle
    {
      && Shaped() && active && len == |s| && bundle[..] == Padded(s)
      && i < 4 * ZoneCount(len, P()) && offset == i * (3 * P())
    }

    constructor (lane: byte, mtu: byte)
      requires mtu >= 8 && (mtu - 4) % 4 == 0
      ensures Shaped() && !active && this.lane == lane && this.mtu == mtu && fresh(packet) && fresh(bundle)
    {
      this.lane, this.mtu := lane, mtu;
      packet := new byte[MAX_MTU];
      bundle := new byte[0];
      packetLen, active, len, offset := 0, false, 0, 0;
    }

    /** outernet_uplink_next_in_queue: serialises the bundle, and room for a zone of zeros. */
    method Load(manifest: seq<byte>, body: seq<byte>)
      requires Shaped() && !active && |manifest| < 65536 && |body| < 0x1_0000_0000
      modifies this
      ensures fresh(bundle) && Sending(Serialise(manifest, body), 0)
    {
      var s := Serialise(manifest, body) + Zeros(4 * MAX_MTU);
      bundle := new byte[|s|](i requires 0 <= i < |s| => s[i]);
      len, offset, active := |s| - 4 * MAX_MTU, 0, true;
      assert bundle[..] == s;
      ZoneCountBounds(len, P());
    }

    /** outernet_uplink_build_packet: the next packet, and, after the last of the bundle, an idle lane. */
    method BuildPacket(ghost s: seq<byte>, ghost i: nat) returns (ok: bool)
      requires Shaped() && (active ==> Sending(s, i))
      modifies this`packetLen, this`offset, this`active, packet
      ensures ok <==> old(active)
      ensures ok ==> packetLen <= MAX_MTU && i < 4 * ZoneCount(|s|, P()) && (i / 4 + 1) * (12 * P()) <= |Padded(s)|
      ensures ok ==> packet[..packetLen] == Encode(lane, mtu, PacketAt(Padded(s), |s|, P(), i))
      ensures ok ==> if i + 1 < 4 * ZoneCount(|s|, P()) then Sending(s, i + 1) else !active
    {
      hide Padded, ZoneCount, Stripe, Zeros, Third, ZoneAt, Encode, Slice, P, WithFlag;
      ok := active;
      if !active { return; }
      ghost var p := P();
      Place(i, p);
      InPadded(s, p, i);
      LastPacket(|s|, p, i);
      var dataBytes, parityBytes, zoneStart, k := Locate(i);
      var stripe := BuildStripe(bundle, zoneStart, k, parityBytes, Padded(s), i / 4);
      var seqNumber := offset / dataBytes;
      if offset == 0 { seqNumber := WithFlag(seqNumber, 0x4000); }
      var at := offset;
      offset := offset + dataBytes;
      if offset >= len && k == 3 {
        seqNumber := WithFlag(seqNumber, 0x8000);
        active := false;
      }
      SliceFits(p, i / 4, i % 4);
      Glue(at, dataBytes, stripe, parityBytes, seqNumber);
      GluedIs(Padded(s), |s|, p, i, lane, mtu, seqNumber, packet[..packetLen]);
    }

    /** Sizes, and where the next packet lies in its parity zone. */
    method Locate(ghost i: nat) returns (dataBytes: nat, parityBytes: nat, zoneStart: nat, k: nat)
      requires Shaped() && offset == i * (3 * P())
      ensures dataBytes == 3 * P() && parityBytes == P() && zoneStart == (i / 4) * (12 * P()) && k == i % 4
      ensures 4 + dataBytes + parityBytes <= MAX_MTU
    {
      SizesAgree(mtu);
      Place(i, P());
      dataBytes := (mtu - 4) * 3 / 4;
      parityBytes := dataBytes / 3;
      var zoneSize := dataBytes * 4;
      assert zoneSize == 12 * P();
      zoneStart := offset - offset % zoneSize;
      k := (offset - zoneStart) / dataBytes;
    }

    /** Puts header, data and stripe together. */
    method Glue(at: nat, dataBytes: nat, stripe: array<byte>, parityBytes: nat, seqNumber: nat)
      requires packet.Length == MAX_MTU && packet != bundle && packet != stripe && stripe.Length == parityBytes
      requires 4 + dataBytes + parityBytes <= MAX_MTU && at + dataBytes <= bundle.Length
      modifies this`packetLen, packet
      ensures packetLen == 4 + dataBytes + parityBytes
      ensures packet[..packetLen] == [lane, seqNumber % 256, seqNumber / 256 % 256, mtu] + bundle[at..at + dataBytes] + stripe[..]
    {
      CopyInto(bundle, at, packet, 4, dataBytes);
      ghost var data := packet[..][4..4 + dataBytes];
      CopyInto(stripe, 0, packet, 4 + dataBytes, parityBytes);
      KeptPart(packet[..], data, 4, dataBytes);
      packet[0], packet[1], packet[2], packet[3] := lane, seqNumber % 256, seqNumber / 256 % 256, mtu;
      packetLen := 4 + dataBytes + parityBytes;
      FourParts(packet[..], data, stripe[..], lane, seqNumber, mtu);
    }
  }

  lemma KeptPart(packet: seq<byte>, data: seq<byte>, a: nat, n: nat)
    requires a + n <= |packet| && packet[..a + n][a..] == data
    ensures packet[a..a + n] == data
  {
  }

  lemma FourParts(packet: seq<byte>, data: seq<byte>, stripe: seq<byte>, lane: byte, seqNumber: nat, mtu: byte)
    requires 4 + |data| + |stripe| <= |packet|
    requires packet[0] == lane && packet[1] == seqNumber % 256 && packet[2] == seqNumber / 256 % 256 && packet[3] == mtu
    requires packet[4..4 + |data|] == data && packet[4 + |data|..4 + |data| + |stripe|] == stripe
    ensures packet[..4 + |data| + |stripe|] == [lane, seqNumber % 256, seqNumber / 256 % 256, mtu] + data + stripe
  {
  }

  /** What was put together is the packet. */
  lemma GluedIs(S: seq<byte>, len: nat, p: nat, i: nat, lane: byte, mtu: byte, seqNumber: nat, bytes: seq<byte>)
    requires p > 0 && (i / 4 + 1) * (12 * p) <= |S| && i * (3 * p) + 3 * p <= |S|
    requires seqNumber == Flagged(PacketAt(S, len, p, i))
    requires bytes == [lane, seqNumber % 256, seqNumber / 256 % 256, mtu] + S[i * (3 * p)..i * (3 * p) + 3 * p]
                      + Stripe(ZoneAt(S, p, i / 4), p, i % 4)
    ensures bytes == Encode(lane, mtu, PacketAt(S, len, p, i))
  {
    hide Stripe, ZoneCount, Flagged;
    SliceFits(p, i / 4, i % 4);
    assert i == 4 * (i / 4) + i % 4;
    assert ZoneAt(S, p, i / 4)[i % 4] == Slice(S, p, i / 4, i % 4);
  }

  /** The test for the last packet: past the end of the bundle, at the end of a zone. */
  lemma LastPacket(len: nat, p: nat, i: nat)
    requires 0 < p <= 62 && len > 0 && i < 4 * ZoneCount(len, p)
    ensures i % 4 == 3 ==> ((i + 1) * (3 * p) >= len <==> i / 4 + 1 >= ZoneCount(len, p))
    ensures i + 1 == 4 * ZoneCount(len, p) <==> i % 4 == 3 && i / 4 + 1 >= ZoneCount(len, p)
    ensures (i + 1) * (3 * p) == i * (3 * p) + 3 * p
  {
    hide ZoneCount;
    ZoneCountBounds(len, p);
    var z := ZoneCount(len, p);
    if i % 4 == 3 {
      assert (i + 1) * (3 * p) == (i / 4 + 1) * (12 * p);
      if i / 4 + 1 < z { MulUp(i / 4 + 1, z - 1, 12 * p); } else { MulUp(z, i / 4 + 1, 12 * p); }
    }
  }

  /** bcopy. */
  method CopyInto(from: array<byte>, a: nat, to: array<byte>, b: nat, n: nat)
    requires from != to && a + n <= from.Length && b + n <= to.Length
    modifies to
    ensures to[b..b + n] == from[a..a + n] && to[..b] == old(to[..b]) && to[b + n..] == old(to[b + n..])
  {
    var i := 0;
    while i < n
      invariant 0 <= i <= n && to[..b] == old(to[..b]) && to[b + n..] == old(to[b + n..])
      invariant to[b..b + i] == from[a..a + i]
    {
      to[b + i] := from[a + i];
      i := i + 1;
      assert to[b..b + i] == to[b..b + i - 1] + [to[b + i - 1]];
      assert from[a..a + i] == from[a..a + i - 1] + [from[a + i - 1]];
    }
  }

  /** The slices that stripe k covers, in order. */
  function Covered(k: nat, n: nat): (j: nat)
    requires k < 4 && n < 3
    ensures j < 4 && j != k
  {
    if n < k then n else n + 1
  }

  /** The switch over the stripe number, and the XOR loop. */
  method BuildStripe(bundle: array<byte>, start: nat, k: nat, p: nat, ghost s: seq<byte>, ghost z: nat) returns (stripe: array<byte>)
    requires k < 4 && bundle[..] == s && (z + 1) * (12 * p) <= |s| && start == z * (12 * p)
    ensures fresh(stripe) && stripe.Length == p && stripe[..] == Stripe(ZoneAt(s, p, z), p, k)
  {
    hide Stripe, ZoneAt, XorSeq, OperandAt;
    var a, b, c := Offsets(k, p);
    StripeFrom(s, p, z, k, start + a, start + b, start + c);
    stripe := XorThree(bundle, start + a, start + b, start + c, p);
  }

  lemma StripeFrom(s: seq<byte>, p: nat, z: nat, k: nat, a: nat, b: nat, c: nat)
    requires k < 4 && (z + 1) * (12 * p) <= |s|
    requires a == z * (12 * p) + OperandAt(k, 0, p)
    requires b == z * (12 * p) + OperandAt(k, 1, p)
    requires c == z * (12 * p) + OperandAt(k, 2, p)
    ensures a + p <= |s| && b + p <= |s| && c + p <= |s|
    ensures XorSeq(XorSeq(s[a..a + p], s[b..b + p]), s[c..c + p]) == Stripe(ZoneAt(s, p, z), p, k)
  {
    hide Stripe, ZoneAt, XorSeq, OperandAt;
    OperandFits(p, z, k, 0);
    OperandFits(p, z, k, 1);
    OperandFits(p, z, k, 2);
    StripeParts(s, p, z, k);
  }

  method Offsets(k: nat, p: nat) returns (a: nat, b: nat, c: nat)
    requires k < 4
    ensures a == OperandAt(k, 0, p) && b == OperandAt(k, 1, p) && c == OperandAt(k, 2, p)
  {
    var d := 3 * p;
    if k == 0 {
      a, b, c := d * 1 + p * 0, d * 2 + p * 0, d * 3 + p * 0;
    } else if k == 1 {
      a, b, c := d * 0 + p * 0, d * 2 + p * 1, d * 3 + p * 1;
    } else if k == 2 {
      a, b, c := d * 0 + p * 1, d * 1 + p * 1, d * 3 + p * 2;
    } else {
      a, b, c := d * 0 + p * 2, d * 1 + p * 2, d * 2 + p * 2;
    }
    Operands(k, p, a, b, c);
  }

  /** Where the n-th operand of stripe k starts in its zone. */
  function OperandAt(k: nat, n: nat, p: nat): nat
    requires k < 4 && n < 3
  {
    (3 * Covered(k, n) + ThirdIn(Covered(k, n), k)) * p
  }

  lemma Operands(k: nat, p: nat, a: nat, b: nat, c: nat)
    requires k < 4
    requires k == 0 ==> a == 3 * p && b == 6 * p && c == 9 * p
    requires k == 1 ==> a == 0 && b == 7 * p && c == 10 * p
    requires k == 2 ==> a == p && b == 4 * p && c == 11 * p
    requires k == 3 ==> a == 2 * p && b == 5 * p && c == 8 * p
    ensures a == OperandAt(k, 0, p) && b == OperandAt(k, 1, p) && c == OperandAt(k, 2, p)
  {
  }

  lemma OperandFits(p: nat, z: nat, k: nat, n: nat)
    requires k < 4 && n < 3
    ensures z * (12 * p) + OperandAt(k, n, p) + p <= (z + 1) * (12 * p)
  {
    var j, t := Covered(k, n), ThirdIn(Covered(k, n), k);
    SliceFits(p, z, j);
    Third0(t, p);
    ThirdPlace(p, j, t);
  }

  /** The n-th operand of stripe k. */
  function Operand(s: seq<byte>, p: nat, z: nat, k: nat, n: nat): (r: seq<byte>)
    requires k < 4 && n < 3 && (z + 1) * (12 * p) <= |s|
    ensures |r| == p
  {
    OperandFits(p, z, k, n);
    var at := z * (12 * p) + OperandAt(k, n, p);
    s[at..at + p]
  }

  lemma OperandIs(s: seq<byte>, p: nat, z: nat, k: nat, n: nat)
    requires k < 4 && n < 3 && (z + 1) * (12 * p) <= |s|
    ensures Third(ZoneAt(s, p, z)[Covered(k, n)], ThirdIn(Covered(k, n), k), p) == Operand(s, p, z, k, n)
  {
    hide Third, Slice;
    ThirdPlace(p, Covered(k, n), ThirdIn(Covered(k, n), k));
    ThirdOfSlice(s, p, z, Covered(k, n), ThirdIn(Covered(k, n), k));
  }

  lemma StripeParts(s: seq<byte>, p: nat, z: nat, k: nat)
    requires k < 4 && (z + 1) * (12 * p) <= |s|
    ensures Stripe(ZoneAt(s, p, z), p, k)
         == XorSeq(XorSeq(Operand(s, p, z, k, 0), Operand(s, p, z, k, 1)), Operand(s, p, z, k, 2))
  {
    hide XorSeq, Slice, Third, ZoneAt, Operand;
    OperandIs(s, p, z, k, 0);
    OperandIs(s, p, z, k, 1);
    OperandIs(s, p, z, k, 2);
  }

  lemma ThirdPlace(p: nat, j: nat, t: nat)
    ensures (3 * j + t) * p == j * (3 * p) + t * p
  {
  }

  method XorThree(src: array<byte>, a: nat, b: nat, c: nat, p: nat) returns (r: array<byte>)
    requires a + p <= src.Length && b + p <= src.Length && c + p <= src.Length
    ensures fresh(r) && r.Length == p
    ensures r[..] == XorSeq(XorSeq(src[a..a + p], src[b..b + p]), src[c..c + p])
  {
    hide XorByte, XorSeq;
    r := new byte[p];
    ghost var x, y, z := src[a..a + p], src[b..b + p], src[c..c + p];
    var i := 0;
    while i < p
      invariant 0 <= i <= p
      invariant forall q :: 0 <= q < i ==> r[q] == XorByte(XorByte(x[q], y[q]), z[q])
    {
      r[i] := XorByte(XorByte(src[a + i], src[b + i]), src[c + i]);
      i := i + 1;
    }
    XoredThree(r[..], x, y, z);
  }

  lemma XoredThree(r: seq<byte>, x: seq<byte>, y: seq<byte>, z: seq<byte>)
    requires |r| == |x| == |y| == |z|
    requires forall q :: 0 <= q < |r| ==> r[q] == XorByte(XorByte(x[q], y[q]), z[q])
    ensures r == XorSeq(XorSeq(x, y), z)
  {
    hide XorByte;
  }
}
