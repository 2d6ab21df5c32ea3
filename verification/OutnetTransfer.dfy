/** Uplink, lossy channel and receiver together. */
module OutnetTransfer {
  import opened Bits
  import opened OutnetPackets
  import opened OutnetLane
  import opened OutnetZone
  import opened OutnetRun
  import opened OutnetSender
  import opened OutnetReceiver

  /** The channel brings packet i over copies[i] times: the packets heard of the first n. */
  ghost function Heard(copies: seq<nat>, n: nat): (ids: seq<nat>)
    requires n <= |copies|
  {
    if n == 0 then [] else Heard(copies, n - 1) + Times(n - 1, copies[n - 1])
  }

  ghost function Times(i: nat, k: nat): (ids: seq<nat>)
    ensures |ids| == k && forall j :: 0 <= j < k ==> ids[j] == i
  {
    if k == 0 then [] else Times(i, k - 1) + [i]
  }

  lemma {:induction false} HeardInOrder(copies: seq<nat>, n: nat)
    requires n <= |copies|
    ensures InOrder(Heard(copies, n), n)
  {
    if n > 0 {
      HeardInOrder(copies, n - 1);
    }
  }

  lemma TimesHas(i: nat, k: nat, j: nat)
    ensures j in Times(i, k) <==> j == i && k > 0
  {
    if k > 0 { assert Times(i, k)[0] == i; }
  }

  /** A packet is heard exactly if the channel brought it. */
  lemma {:induction false} HeardIfBrought(copies: seq<nat>, n: nat, i: nat)
    requires n <= |copies|
    ensures i in Heard(copies, n) <==> i < n && copies[i] > 0
  {
    hide Times;
    if n > 0 {
      HeardIfBrought(copies, n - 1, i);
      TimesHas(n - 1, copies[n - 1], i);
    }
  }

  /** What is heard up to some moment is a beginning of what is heard in all. */
  lemma {:induction false} HeardSoFar(copies: seq<nat>, i: nat, k: nat, n: nat)
    requires i < n <= |copies| && k <= copies[i]
    ensures Heard(copies, i) + Times(i, k) <= Heard(copies, n)
    decreases n
  {
    if i + 1 < n {
      HeardSoFar(copies, i, k, n - 1);
    } else {
      TimesSoFar(i, k, copies[i]);
    }
  }

  lemma {:induction false} TimesSoFar(i: nat, k: nat, m: nat)
    requires k <= m
    ensures Times(i, k) <= Times(i, m)
  {
    if k < m {
      TimesSoFar(i, k, m - 1);
    }
  }

  /** A beginning of a good run is one. */
  lemma {:induction false} GoodSoFar(c: Cast, ids: seq<nat>, sofar: seq<nat>)
    requires GoodRun(c, ids) && sofar <= ids
    ensures GoodRun(c, sofar)
    decreases |ids|
  {
    hide GoodRun;
    if |sofar| < |ids| {
      RunPrefix(c, ids);
      assert sofar <= ids[..|ids| - 1];
      GoodSoFar(c, ids[..|ids| - 1], sofar);
    } else {
      assert sofar == ids;
    }
  }

  lemma RunOneMore(l: Lane, c: Cast, ids: seq<nat>, i: nat)
    requires GoodRun(c, ids + [i]) && Resting(l) && l.waiting
    ensures GoodRun(c, ids) && Resting(Run(l, c, ids)) && i < 4 * c.Zones() && SameSize(Run(l, c, ids), c.Nth(i), c.p)
    ensures Run(l, c, ids + [i]) == Saw(Run(l, c, ids), c.Nth(i), c.p)
  {
    hide GoodRun, Saw, InRun, Cast.Zones, Cast.Nth, Got, Recoverable, Resting, SameSize;
    RunPrefix(c, ids + [i]);
    assert (ids + [i])[..|ids|] == ids;
    RunIsSafe(l, c, ids);
    SawInRun(Run(l, c, ids), c, Got(ids), i, l.given);
  }

  // ---------------------------------------------------------------- over the channel

  /** What a packet is, sent and heard. */
  lemma SentIs(c: Cast, i: nat, lane: byte, mtu: byte, rest: seq<byte>)
    requires c.Fits() && i < 4 * c.Zones() && lane < LANES && mtu >= 8 && mtu - 4 == 4 * c.p
    requires |Encode(lane, mtu, c.Nth(i)) + rest| >= 256
    ensures Read(Encode(lane, mtu, c.Nth(i)) + rest) == Piece(lane, c.Nth(i), c.p)
    ensures var b := Encode(lane, mtu, c.Nth(i)) + rest; b[0] == lane && b[3] == mtu
  {
    hide Cast.Zones, Cast.Nth, Encode;
    ReadEncode(lane, mtu, c.Nth(i), rest);
    Ends(lane, mtu, c.Nth(i), rest);
  }

  lemma Ends(lane: byte, mtu: byte, x: Packet, rest: seq<byte>)
    ensures var b := Encode(lane, mtu, x) + rest; |b| > 3 && b[0] == lane && b[3] == mtu
  {
  }

  method Arrive(packet: array<byte>, n: nat) returns (buffer: array<byte>)
    requires n <= packet.Length <= 255
    ensures fresh(buffer) && buffer.Length == 4096 && buffer[..n] == packet[..n]
  {
    buffer := new byte[4096];
    var j := 0;
    while j < n
      invariant 0 <= j <= n && buffer[..j] == packet[..j]
    {
      buffer[j] := packet[j];
      j := j + 1;
      assert buffer[..j] == buffer[..j - 1] + [buffer[j - 1]];
      assert packet[..j] == packet[..j - 1] + [packet[j - 1]];
    }
  }

  /** One packet is heard by the lane it names. */
  method Hear(lanes: seq<RxLane>, lane: byte, packet: array<byte>, n: nat, ghost mtu: byte, ghost l0: Lane, ghost c: Cast,
              ghost ids: seq<nat>, ghost i: nat)
    requires |lanes| == LANES && lane < LANES && lanes[lane].Shaped() && n <= packet.Length <= 255
    requires Resting(l0) && l0.waiting && GoodRun(c, ids + [i]) && GoodRun(c, ids) && lanes[lane].View() == Run(l0, c, ids)
    requires c.Fits() && mtu >= 8 && mtu - 4 == 4 * c.p && i < 4 * c.Zones()
    requires packet[..n] == Encode(lane, mtu, c.Nth(i))
    modifies lanes[lane], lanes[lane].pz, lanes[lane].pb
    ensures lanes[lane].Shaped() && lanes[lane].View() == Run(l0, c, ids + [i])
  {
    hide GoodRun, Saw, InRun, Cast.Zones, Cast.Nth, Got, Recoverable, Resting, SameSize, Encode, Run, Read, Overruns;
    ghost var rx := lanes[lane];
    var buffer := Arrive(packet, n);
    assert buffer[..] == buffer[..n] + buffer[n..];
    SentIs(c, i, lane, mtu, buffer[n..]);
    RunOneMore(l0, c, ids, i);
    RestingIs(Run(l0, c, ids));
    OneSizeSurvives(buffer[..], Run(l0, c, ids));
    var outcome := SawPacket(lanes, buffer);
  }

  lemma OneMoreTime(copies: seq<nat>, i: nat, k: nat)
    requires i < |copies| && k < copies[i]
    ensures Heard(copies, i) + Times(i, k) + [i] == Heard(copies, i) + Times(i, k + 1) <= Heard(copies, |copies|)
    ensures Heard(copies, i) + Times(i, k) <= Heard(copies, |copies|)
  {
    hide Heard;
    HeardSoFar(copies, i, k, |copies|);
    HeardSoFar(copies, i, k + 1, |copies|);
  }

  lemma ThePacket(c: Cast, i: nat, s: seq<byte>)
    requires c.Fits() && i < 4 * c.Zones() && s == Serialise(c.manifest, c.body)
    ensures (i / 4 + 1) * (12 * c.p) <= |Padded(s)| && c.Nth(i) == PacketAt(Padded(s), |s|, c.p, i)
  {
    hide Padded, PacketAt;
    InPadded(s, c.p, i);
  }

  lemma HeardNext(copies: seq<nat>, i: nat)
    requires i < |copies|
    ensures Heard(copies, i) + Times(i, 0) == Heard(copies, i)
    ensures Heard(copies, i + 1) == Heard(copies, i) + Times(i, copies[i])
  {
  }

  /** The copies of one packet. */
  method HearAll(lanes: seq<RxLane>, lane: byte, packet: array<byte>, n: nat, copies: seq<nat>, i: nat, ghost mtu: byte,
                 ghost l0: Lane, ghost c: Cast)
    requires |lanes| == LANES && lane < LANES && lanes[lane].Shaped() && n <= packet.Length <= 255
    requires packet != lanes[lane].pz && packet != lanes[lane].pb
    requires Resting(l0) && l0.waiting && c.Fits() && i < |copies| == 4 * c.Zones()
    requires GoodRun(c, Heard(copies, |copies|)) && GoodRun(c, Heard(copies, i)) && lanes[lane].View() == Run(l0, c, Heard(copies, i))
    requires c.Fits() && mtu >= 8 && mtu - 4 == 4 * c.p && packet[..n] == Encode(lane, mtu, c.Nth(i))
    modifies lanes[lane], lanes[lane].pz, lanes[lane].pb
    ensures lanes[lane].Shaped() && GoodRun(c, Heard(copies, i + 1)) && lanes[lane].View() == Run(l0, c, Heard(copies, i + 1))
  {
    hide GoodRun, Cast.Zones, Cast.Nth, Resting, Encode, Run, Heard;
    ghost var ids := Heard(copies, i);
    HeardNext(copies, i);
    var k := 0;
    while k < copies[i]
      invariant 0 <= k <= copies[i] && lanes[lane].Shaped()
      invariant packet[..n] == Encode(lane, mtu, c.Nth(i))
      invariant GoodRun(c, ids + Times(i, k)) && lanes[lane].View() == Run(l0, c, ids + Times(i, k))
    {
      OneMoreTime(copies, i, k);
      GoodSoFar(c, Heard(copies, |copies|), ids + Times(i, k + 1));
      Hear(lanes, lane, packet, n, mtu, l0, c, ids + Times(i, k), i);
      k := k + 1;
    }
  }

  lemma SizeIs(up: Uplink, p: nat)
    requires up.mtu >= 8 && up.mtu - 4 == 4 * p
    ensures up.P() == p
  {
  }

  /** The sender's next packet, and the copies of it that come over. */
  method SendOne(up: Uplink, lanes: seq<RxLane>, lane: byte, copies: seq<nat>, i: nat, ghost s: seq<byte>, ghost l0: Lane,
                 ghost c: Cast)
    requires |lanes| == LANES && lane < LANES && lanes[lane].Shaped() && up.Shaped()
    requires up.packet != lanes[lane].pz && up.packet != lanes[lane].pb && up.bundle != lanes[lane].pz && up.bundle != lanes[lane].pb
    requires up.lane == lane && up.mtu - 4 == 4 * c.p
    requires Resting(l0) && l0.waiting && c.Fits() && i < |copies| == 4 * c.Zones() && s == Serialise(c.manifest, c.body)
    requires GoodRun(c, Heard(copies, |copies|)) && GoodRun(c, Heard(copies, i)) && lanes[lane].View() == Run(l0, c, Heard(copies, i))
    requires up.Sending(s, i)
    modifies up`packetLen, up`offset, up`active, up.packet, lanes[lane], lanes[lane].pz, lanes[lane].pb
    ensures up.Shaped() && lanes[lane].Shaped()
    ensures if i + 1 < |copies| then up.Sending(s, i + 1) else !up.active
    ensures GoodRun(c, Heard(copies, i + 1)) && lanes[lane].View() == Run(l0, c, Heard(copies, i + 1))
  {
    hide GoodRun, Cast.Nth, Resting, Encode, Run, Serialise, Padded, PacketAt, ZoneCount, Heard, Cast.Zones, Uplink.P;
    ZonesIs(c, s);
    ThePacket(c, i, s);
    SizeIs(up, c.p);
    var ok := up.BuildPacket(s, i);
    HearAll(lanes, lane, up.packet, up.packetLen, copies, i, up.mtu, l0, c);
  }

  /** A bundle is sent from the first packet to the last, and the channel brings packet i over
      copies[i] times; it loses no more than the recovery can cope with. The lane ends as the run
      says. */
  method Transfer(lanes: seq<RxLane>, lane: byte, mtu: byte, manifest: seq<byte>, body: seq<byte>, copies: seq<nat>, ghost c: Cast)
    requires |lanes| == LANES && lane < LANES && mtu >= 8 && mtu - 4 == 4 * c.p && c == Cast(manifest, body, c.p)
    requires lanes[lane].Shaped() && Resting(lanes[lane].View()) && lanes[lane].waiting
    requires c.Fits() && |copies| == 4 * c.Zones() && GoodRun(c, Heard(copies, |copies|))
    modifies lanes[lane], lanes[lane].pz, lanes[lane].pb
    ensures lanes[lane].View() == Run(old(lanes[lane].View()), c, Heard(copies, |copies|))
  {
    hide GoodRun, Cast.Nth, Resting, Encode, Run, Serialise, Padded, PacketAt, ZoneCount, Heard, Cast.Zones;
    ghost var l0 := lanes[lane].View();
    ghost var s := Serialise(manifest, body);
    var up := new Uplink(lane, mtu);
    up.Load(manifest, body);
    NoneHeard(copies, c);
    RunOfNone(l0, c);
    SomeZone(c);
    ZonesIs(c, s);
    var i := 0;
    while i < |copies|
      invariant 0 <= i <= |copies| && up.Shaped() && lanes[lane].Shaped()
      invariant up.packet != lanes[lane].pz && up.packet != lanes[lane].pb && up.bundle != lanes[lane].pz && up.bundle != lanes[lane].pb
      invariant fresh(up) && fresh(up.packet) && fresh(up.bundle)
      invariant if i < |copies| then up.Sending(s, i) else !up.active
      invariant GoodRun(c, Heard(copies, i)) && lanes[lane].View() == Run(l0, c, Heard(copies, i))
    {
      SendOne(up, lanes, lane, copies, i, s, l0, c);
      i := i + 1;
    }
  }

  lemma NoneHeard(copies: seq<nat>, c: Cast)
    requires GoodRun(c, Heard(copies, |copies|))
    ensures Heard(copies, 0) == [] && GoodRun(c, [])
  {
    hide GoodRun;
    GoodSoFar(c, Heard(copies, |copies|), []);
  }

  lemma ZonesIs(c: Cast, s: seq<byte>)
    requires c.Fits() && s == Serialise(c.manifest, c.body)
    ensures c.Zones() == ZoneCount(|s|, c.p)
  {
  }

  lemma RunOfNone(l: Lane, c: Cast)
    requires GoodRun(c, []) && Resting(l) && l.waiting
    ensures Run(l, c, []) == l
  {
  }

  ghost predicate BringsThree(copies: seq<nat>) {
    forall i :: 0 <= i < |copies| && i % 4 < 3 ==> copies[i] > 0
  }

  lemma {:induction false} AllHeard(c: Cast, copies: seq<nat>)
    requires c.Fits() && |copies| == 4 * c.Zones() && BringsThree(copies)
    ensures GoodRun(c, Heard(copies, |copies|)) && AllCame(Got(Heard(copies, |copies|)), c.Zones())
  {
    hide Cast.Zones, Heard;
    var n, ids := |copies|, Heard(copies, |copies|);
    HeardInOrder(copies, n);
    forall z: nat
      ensures LosesLast(Got(ids), z)
      ensures z < c.Zones() ==> ThreeCame(Got(ids), z)
    {
      HeardIfBrought(copies, n, 4 * z);
      HeardIfBrought(copies, n, 4 * z + 1);
      HeardIfBrought(copies, n, 4 * z + 2);
      HeardIfBrought(copies, n, 4 * z + 3);
      PlacesInZone(z);
    }
  }

  lemma PlacesInZone(z: nat)
    ensures (4 * z) % 4 == 0 && (4 * z + 1) % 4 == 1 && (4 * z + 2) % 4 == 2
  {
  }

  /** So, if the first three packets of every zone are brought over, the receiver is handed exactly
      the sender's bundle: by the end packet, or else by the next start. */
  lemma TransferDelivers(l: Lane, c: Cast, copies: seq<nat>)
    requires c.Fits() && Resting(l) && l.waiting && |copies| == 4 * c.Zones() && BringsThree(copies)
    ensures |copies| > 0 && GoodRun(c, Heard(copies, |copies|))
    ensures Delivered(Run(l, c, Heard(copies, |copies|)), c, l.given, copies[|copies| - 1] > 0)
  {
    hide Cast.Zones, Run, Resting, Begun, Heard, GoodRun, AllCame, BringsThree, Delivered;
    AllHeard(c, copies);
    RunDelivers(l, c, Heard(copies, |copies|));
    SomeZone(c);
    HeardIfBrought(copies, |copies|, |copies| - 1);
  }

  lemma SomeZone(c: Cast)
    requires c.Fits()
    ensures c.Zones() > 0
  {
    ZoneCountBounds(c.Len(), c.p);
  }
}
