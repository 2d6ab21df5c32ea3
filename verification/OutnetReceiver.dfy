/** The receiver of the one-way transport: five lanes updated in place (outernetrx.c). */
module OutnetReceiver {
  import opened Bits
  import opened Recovery
  import opened OutnetPackets
  import opened OutnetLane

  class RxLane {
    var waiting: bool        // waitingForStart
    var zone: nat            // parity_zone_number
    var last: nat            // last_parity_zone_number
    var bitmap: nat          // parity_zone_bitmap
    var dataBytes: nat
    const pz: array<byte>    // parity_zone
    const pb: array<byte>    // parity_bytes
    var data: seq<byte>      // data, of data_size bytes
    var given: seq<Received> // calls of rhizome_update_bundle

    ghost predicate Shaped()
      reads this
    {
      pz != pb && pz.Length == ZONE_BUF && pb.Length == PARITY_BUF && dataBytes % 3 == 0
    }

    ghost function View(): (l: Lane)
      reads this, pz, pb
    {
      Lane(waiting, zone, last, bitmap, dataBytes / 3, pz[..], pb[..], data, given)
    }

    /** As outernet_rx_setup leaves it. */
    constructor ()
      ensures Shaped() && Resting(View()) && waiting && given == [] && fresh(pz) && fresh(pb)
    {
      pz, pb := new byte[ZONE_BUF], new byte[PARITY_BUF];
      waiting, zone, last, bitmap, dataBytes, data, given := true, 0, 0, 0, 0, [], [];
    }

    method TryBundleInsert()
      modifies this`given
      ensures View() == TryInsert(old(View()))
    {
      if |data| < 6 { return; }
      var packedLen := data[0] + 256 * (data[1] as nat);
      var payloadLen := data[2] + 256 * (data[3] as nat) + 0x1_0000 * (data[4] as nat) + 0x100_0000 * (data[5] as nat);
      if (6 + payloadLen) % 0x1_0000_0000 > |data| { return; }
      given := given + [Received(Cut(data, 6, packedLen), Cut(data, 6 + packedLen, payloadLen))];
    }

    method LaneInit()
      modifies this`given, this`waiting, this`zone, this`last, this`bitmap, this`data
      ensures View() == Init(old(View()))
    {
      hide Holding;
      TryBundleInsert();
      waiting, zone, last, bitmap, data := true, 0, 0, 0, [];
    }

    /** Not ok: the source writes past the buffer. */
    method CommitParityZone() returns (ok: bool)
      requires Shaped() && Sized(View())
      modifies this`data, this`last, this`zone, this`bitmap
      ensures ok <==> CanCommit(old(View()))
      ensures ok ==> View() == Commit(old(View()))
    {
      hide Zeros, Grown, Commit;
      ghost var l := View();
      var need, at, n := (zone + 1) * 4 * dataBytes, zone * 4 * dataBytes, 4 * dataBytes;
      CommitIs(l, dataBytes, need, at, n);
      GrowTo(need);
      if at + n > |data| { return false; }
      CopyZone(at, n);
      last := zone;
      zone := zone + 1;
      bitmap := 0;
      ok := true;
    }

    method CopyZone(at: nat, n: nat)
      requires at + n <= |data| && n <= pz.Length
      modifies this`data
      ensures data == old(data)[..at] + pz[..n] + old(data)[at + n..]
    {
      data := data[..at] + pz[..n] + data[at + n..];
    }

    method GrowTo(need: nat)
      requires |data| <= Grown(|data|, need)
      modifies this`data
      ensures data == old(data) + Zeros(Grown(|old(data)|, need) - |old(data)|)
    {
      if |data| == 0 || |data| < need {
        var size := |data|;
        if size == 0 { size := FIRST_SIZE; } else { size := size * 2; }
        data := data + Zeros(size - |data|);
      }
    }

    method UpdateParityZone() returns (ok: bool)
      requires Shaped() && Sized(View())
      modifies this`data, this`last, this`zone, this`bitmap, pz
      ensures ok <==> !Commits(old(View())) || CanCommit(old(View()))
      ensures ok ==> View() == Update(old(View()))
    {
      hide Recover, Commit, Grown;
      var p := dataBytes / 3;
      ok := true;
      if bitmap in {0x7, 0xb, 0xd, 0xe} {
        RecoverSlice(pz, pb, p, bitmap);
        ok := CommitParityZone();
      } else if bitmap == 0xf {
        ok := CommitParityZone();
      }
    }

    /** Copies a packet's data and stripe in, and marks the piece. */
    method StorePiece(number: nat, buffer: array<byte>, size: nat, ghost x: Packet)
      requires Shaped() && Sized(View()) && size % 3 == 0 && 0 < size <= 189 && ValidPacket(x, size / 3)
      requires buffer != pz && buffer != pb && buffer.Length >= 4 + size + size / 3
      requires x.number == number && x.data == buffer[4..4 + size] && x.stripe == buffer[4 + size..4 + size + size / 3]
      modifies this`bitmap, this`dataBytes, pz, pb
      ensures Shaped() && View() == Store(old(View()), x, size / 3)
    {
      hide WithPiece, Put;
      var parityBytes := size / 3;
      var offset := (number * size) % (size * 4);
      var slice := number % 4;
      PieceOffset(number, size, parityBytes);
      CopyOver(buffer, 4, size, pz, offset);
      CopyOver(buffer, 4 + size, parityBytes, pb, slice * parityBytes);
      bitmap := WithPiece(bitmap, slice);
      dataBytes := size;
    }

    /** outernet_rx_saw_packet, once the header is read. */
    method SawPiece(number: nat, start: bool, end: bool, buffer: array<byte>, size: nat, ghost x: Packet) returns (ok: bool)
      requires Shaped() && Sized(View()) && size % 3 == 0 && 0 < size <= 189 && ValidPacket(x, size / 3)
      requires buffer != pz && buffer != pb && buffer.Length >= 4 + size + size / 3
      requires x.number == number && x.data == buffer[4..4 + size] && x.stripe == buffer[4 + size..4 + size + size / 3]
      requires x.start == start && x.end == end
      modifies this, pz, pb
      ensures ok <==> !Overruns(old(View()), x, size / 3)
      ensures ok ==> Shaped() && View() == Saw(old(View()), x, size / 3)
    {
      hide Update, Store, Holding, CanCommit, WithPiece;
      if start || (number == 1 && waiting) {
        LaneInit();
        waiting := false;
      }
      if waiting && number > 1 { return true; }
      waiting := false;
      if number / 4 < zone && number / 4 != last {
        LaneInit();
        return true;
      }
      ok := true;
      if number / 4 == 1 + zone {
        if Few(bitmap) { LaneInit(); } else { ok := UpdateParityZone(); }
      } else if number / 4 == zone {
        StoreSized(View(), x, size / 3);
        StorePiece(number, buffer, size, x);
        ok := UpdateParityZone();
      }
      if !ok { return; }
      if number / 4 > 1 + zone {
        LaneInit();
        return;
      }
      if end {
        TryBundleInsert();
        LaneInit();
      }
    }
  }

  lemma CommitIs(l: Lane, dataBytes: nat, need: nat, at: nat, n: nat)
    requires Sized(l) && l.p == dataBytes / 3 && dataBytes % 3 == 0
    requires need == (l.zone + 1) * 4 * dataBytes && at == l.zone * 4 * dataBytes && n == 4 * dataBytes
    ensures |l.data| <= Grown(|l.data|, need) && n <= ZONE_BUF == |l.pz|
    ensures CanCommit(l) <==> at + n <= Grown(|l.data|, need)
    ensures var d := l.data + Zeros(Grown(|l.data|, need) - |l.data|);
            at + n <= |d| ==>
              Commit(l) == l.(data := d[..at] + l.pz[..n] + d[at + n..], last := l.zone, zone := l.zone + 1, bitmap := 0)
  {
    hide Zeros, Grown;
    CommitSize(l.zone, dataBytes, l.p);
    GrownIsMore(|l.data|, need);
  }

  lemma GrownIsMore(size: nat, need: nat)
    ensures size <= Grown(size, need)
  {
  }

  lemma CommitSize(zone: nat, d: nat, p: nat)
    requires d == 3 * p
    ensures (zone + 1) * 4 * d == (zone + 1) * (12 * p) && zone * 4 * d == zone * (12 * p) && 4 * d == 12 * p
    ensures (zone + 1) * (12 * p) == zone * (12 * p) + 12 * p
  {
  }

  lemma PieceOffset(n: nat, d: nat, p: nat)
    requires d == 3 * p && p > 0
    ensures (n * d) % (d * 4) == (n % 4) * (3 * p) && (n % 4) * (3 * p) + d <= 12 * p && (n % 4) * p + p <= 4 * p
  {
    Place(n, p);
    SliceFits(p, 0, n % 4);
  }

  /** memcpy */
  method CopyOver(from: array<byte>, a: nat, n: nat, to: array<byte>, b: nat)
    requires from != to && a + n <= from.Length && b + n <= to.Length
    modifies to
    ensures to[..] == Put(old(to[..]), b, from[a..a + n])
  {
    var i := 0;
    while i < n
      invariant 0 <= i <= n && to[..b] == old(to[..b]) && to[b + n..] == old(to[b + n..])
      invariant to[b..b + i] == from[a..a + i]
    {
      to[b + i] := from[a + i];
      i := i + 1;
      assert to[b..b + i] == to[b..b + i - 1] + [to[b + i - 1]];
      assert from[a..a + i] == from[a..a + i - 1] + [from[a + i - 1]];
    }
    assert to[..] == to[..b] + to[b..b + n] + to[b + n..];
  }

  // ---------------------------------------------------------------- the header

  /** What a packet's header comes to. With a size of nothing the source divides by zero; with a size
      that wrapped around it goes on to copy a gigabyte. */
  datatype Reading = NoSuchLane | BadSize | NoSize | WrappedSize | Piece(lane: nat, x: Packet, p: nat)

  /** C's unsigned 32-bit arithmetic. */
  function Unsigned(v: int): (r: nat)
    ensures r < 0x1_0000_0000
  {
    v % 0x1_0000_0000
  }

  /** data_bytes of line 379: packet_mtu is unsigned, and so is all of the expression. */
  function DataBytes(mtu: byte): (d: nat) {
    Unsigned(Unsigned(mtu - 3) * 3) / 4
  }

  lemma DataBytesAre(mtu: byte)
    ensures mtu >= 4 ==> DataBytes(mtu) == ReceiverData(mtu)
    ensures mtu == 3 ==> DataBytes(mtu) == 0
    ensures mtu == 2 ==> DataBytes(mtu) == 0x3fff_ffff
    ensures mtu == 1 ==> DataBytes(mtu) == 0x3fff_fffe
    ensures mtu == 0 ==> DataBytes(mtu) == 0x3fff_fffd
  {
    if mtu >= 3 {
      Fits32(mtu - 3);
      Fits32((mtu - 3) * 3);
    } else if mtu == 2 {
    } else if mtu == 1 {
    } else {
    }
  }

  lemma Fits32(v: int)
    requires 0 <= v < 0x1_0000_0000
    ensures Unsigned(v) == v
  {
  }

  /** What the bytes of a packet say. */
  function Read(b: seq<byte>): (r: Reading)
    requires |b| >= 256
    ensures r.Piece? ==> r.lane == b[0] < LANES && 0 < r.p <= 63 && ValidPacket(r.x, r.p)
  {
    DataBytesAre(b[3]);
    var d := DataBytes(b[3]);
    if b[0] >= LANES then NoSuchLane
    else if d / 3 * 3 != d then BadSize
    else if d == 0 then NoSize
    else if d >= 0x2000_0000 then WrappedSize
    else
      Piece(b[0], Packet((b[1] + 256 * (b[2] as nat)) % 0x4000, b[2] / 0x40 % 2 == 1, b[2] / 0x80 % 2 == 1,
                         b[4..4 + d], b[4 + d..4 + d + d / 3]), d / 3)
  }

  /** Exactly which packets are taken, and exactly which the source does not survive: those for one of
      its lanes whose size byte is 2, 3 or 4. */
  lemma ReadingBySize(b: seq<byte>)
    requires |b| >= 256
    ensures Read(b).NoSuchLane? <==> b[0] >= LANES
    ensures Read(b).WrappedSize? <==> b[0] < LANES && b[3] == 2
    ensures Read(b).NoSize? <==> b[0] < LANES && 3 <= b[3] <= 4
    ensures Read(b).Piece? <==> b[0] < LANES && b[3] >= 7 && (b[3] % 4 == 0 || b[3] % 4 == 3)
  {
    var m := b[3];
    DataBytesAre(m);
    if m >= 4 {
      hide ReceiverData;
      DataSizes(m, (m - 4) / 4, (m - 4) % 4);
      if m % 4 == 3 { Thirds((m - 4) / 4 + 1, 0); } else { Thirds((m - 4) / 4, m % 4); }
    }
  }

  /** What the sender encodes is read back, whatever follows it in the buffer, but for what the
      flags make of its number. */
  lemma ReadEncode(lane: byte, mtu: byte, x: Packet, rest: seq<byte>)
    requires lane < LANES && mtu >= 8 && mtu - 4 == 4 * |x.stripe| && |x.data| == 3 * |x.stripe|
    requires |Encode(lane, mtu, x) + rest| >= 256
    ensures Read(Encode(lane, mtu, x) + rest) == Piece(lane, AsRead(x), |x.stripe|)
  {
    hide Flagged, DataBytes, ReceiverData, SenderData, Unsigned;
    SizesAgree(mtu);
    DataBytesAre(mtu);
    FlagsRead(x);
    var b, d := Encode(lane, mtu, x) + rest, ReceiverData(mtu);
    assert b[4..4 + d] == x.data && b[4 + d..4 + d + d / 3] == x.stripe;
  }

  // ---------------------------------------------------------------- numbers of more than 14 bits

  /** Packet i of a serialised bundle. */
  function Sent(s: seq<byte>, p: nat, i: nat): (x: Packet)
    requires 0 < p <= 62 && |s| > 0 && i < 4 * ZoneCount(|s|, p)
    ensures x.number == i && |x.data| == 3 * p && |x.stripe| == p && x.start == (i == 0)
  {
    InPadded(s, p, i);
    PacketAt(Padded(s), |s|, p, i)
  }

  /** Every packet of the bundle is taken for what it is. */
  ghost predicate ReadsBack(s: seq<byte>, p: nat)
    requires 0 < p <= 62 && |s| > 0
  {
    forall i: nat :: i < 4 * ZoneCount(|s|, p) ==> AsRead(Sent(s, p, i)) == Sent(s, p, i)
  }

  /** Exactly the bundles of up to 49152p bytes; in a longer one packet 16384 is taken for the start
      of another bundle. */
  lemma ReadsBackIff(s: seq<byte>, p: nat)
    requires 0 < p <= 62 && |s| > 0
    ensures ReadsBack(s, p) <==> |s| <= 49152 * p
    ensures |s| > 49152 * p ==>
              SEQ_LIMIT < 4 * ZoneCount(|s|, p) && AsRead(Sent(s, p, SEQ_LIMIT)).number == 0 && AsRead(Sent(s, p, SEQ_LIMIT)).start
  {
    hide AsRead, Sent, ZoneCount;
    ZoneCountBounds(|s|, p);
    ZonesOf(|s|, p, ZoneCount(|s|, p));
    if |s| > 49152 * p {
      OneTooMany(Sent(s, p, SEQ_LIMIT));
    }
  }

  lemma OneTooMany(x: Packet)
    requires x.number == SEQ_LIMIT
    ensures AsRead(x).number == 0 && AsRead(x).start
  {
  }

  lemma ZonesOf(len: nat, p: nat, z: nat)
    requires p > 0 && z > 0 && (z - 1) * (12 * p) < len <= z * (12 * p)
    ensures z <= 4096 <==> len <= 49152 * p
  {
    if z <= 4096 { MulUp(z, 4096, 12 * p); } else { MulUp(4096, z - 1, 12 * p); }
  }

  /** What a packet does to its lane, and keeps of it. */
  ghost predicate Stepped(l: Lane, l': Lane, r: Reading) {
    && r.Piece? && Sized(l) && ValidPacket(r.x, r.p) && r.p <= 63
    && l' == Saw(l, r.x, r.p) && Calm(l') && (Resting(l) && SameSize(l, r.x, r.p) ==> Resting(l'))
  }

  /** Fails: the source divides by zero, or overruns a buffer. */
  datatype Outcome = Taken | Refused | Fails

  /** What becomes of a packet, given the lane it names. */
  ghost function OutcomeOf(r: Reading, l: Lane): (o: Outcome)
    requires r.Piece? ==> Sized(l) && ValidPacket(r.x, r.p) && r.p <= 63
  {
    match r
    case Piece(_, x, p) => if Overruns(l, x, p) then Fails else Taken
    case NoSuchLane => Refused
    case BadSize => Refused
    case NoSize => Fails
    case WrappedSize => Fails
  }

  /** outernet_rx_saw_packet; what the source's failures leave behind is not modelled. */
  method SawPacket(lanes: seq<RxLane>, buffer: array<byte>) returns (outcome: Outcome)
    requires |lanes| == LANES && buffer.Length >= 256
    requires buffer[0] < LANES ==>
               && lanes[buffer[0]].Shaped() && Calm(lanes[buffer[0]].View())
               && buffer != lanes[buffer[0]].pz && buffer != lanes[buffer[0]].pb
    modifies if buffer[0] < LANES then {lanes[buffer[0]], lanes[buffer[0]].pz, lanes[buffer[0]].pb} else {}
    ensures if old(buffer[0]) >= LANES then outcome == Refused
            else outcome == old(OutcomeOf(Read(buffer[..]), lanes[buffer[0]].View()))
    ensures outcome == Taken ==>
              && lanes[buffer[0]].Shaped()
              && Stepped(old(lanes[buffer[0]].View()), lanes[buffer[0]].View(), Read(old(buffer[..])))
    ensures outcome == Refused && buffer[0] < LANES ==> lanes[buffer[0]].View() == old(lanes[buffer[0]].View())
  {
    hide Saw, Overruns, Resting;
    ReadingBySize(buffer[..]);
    var lane: nat, mtu: int := buffer[0], buffer[3];
    if lane >= LANES { return Refused; }
    var dataBytes := Unsigned(Unsigned(mtu - 3) * 3) / 4;
    var parityBytes := dataBytes / 3;
    if parityBytes * 3 != dataBytes { return Refused; }
    var number := (buffer[1] + 256 * (buffer[2] as nat)) % 0x4000;
    var start, end := buffer[2] / 0x40 % 2 == 1, buffer[2] / 0x80 % 2 == 1;
    if dataBytes == 0 || dataBytes >= 0x2000_0000 { return Fails; }
    ghost var l, x := lanes[lane].View(), Read(buffer[..]).x;
    StaysCalm(l, x, dataBytes / 3);
    if Resting(l) && SameSize(l, x, dataBytes / 3) { StaysResting(l, x, dataBytes / 3); }
    var ok := lanes[lane].SawPiece(number, start, end, buffer, dataBytes, x);
    outcome := if ok then Taken else Fails;
  }

  /** So with one size in use the receiver survives all packets but those with a size byte of 2, 3 or 4. */
  lemma OneSizeSurvives(b: seq<byte>, l: Lane)
    requires |b| >= 256 && b[0] < LANES && Resting(l)
    requires Read(b).Piece? ==> SameSize(l, Read(b).x, Read(b).p)
    ensures OutcomeOf(Read(b), l) == Fails <==> 2 <= b[3] <= 4
  {
    hide Overruns, Read;
    ReadingBySize(b);
    if Read(b).Piece? { OneSizeFits(l, Read(b).x, Read(b).p); }
  }
}
