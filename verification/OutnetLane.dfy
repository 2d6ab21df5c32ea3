/** One receiving lane of the one-way transport as a value, and what one packet does to it
    (outernet_rx_saw_packet and what it calls). */
module OutnetLane {
  import opened Bits
  import opened Recovery
  import opened OutnetPackets

  const ZONE_BUF := 1024     // MAX_DATA_BYTES * 4
  const PARITY_BUF := 256    // MAX_DATA_BYTES
  const FIRST_SIZE := 65536

  /** What is handed to rhizome_update_bundle: the packed manifest, still to be decoded, and the payload. */
  datatype Received = Received(manifest: seq<byte>, payload: seq<byte>)

  /** A lane: p is a third of data_bytes, data is empty where the source has none, and given lists
      what was handed on. */
  datatype Lane = Lane(waiting: bool, zone: nat, last: nat, bitmap: nat, p: nat, pz: seq<byte>, pb: seq<byte>,
                       data: seq<byte>, given: seq<Received>)

  /** Fewer than three pieces: the first cases of every switch. */
  predicate Few(bitmap: nat) {
    bitmap in {0x0, 0x1, 0x2, 0x3, 0x4, 0x5, 0x6, 0x8, 0x9, 0xa, 0xc}
  }

  function Bit(k: nat): (b: nat)
    requires k < 4
    ensures b in {1, 2, 4, 8}
  {
    if k == 0 then 1 else if k == 1 then 2 else if k == 2 then 4 else 8
  }

  /** bitmap |= 1 << k */
  function WithPiece(bitmap: nat, k: nat): (b: nat)
    requires k < 4
  {
    if HasPiece(bitmap, k) then bitmap else bitmap + Bit(k)
  }

  predicate HasPiece(bitmap: nat, k: nat) {
    k < 4 && bitmap / Bit(k) % 2 == 1
  }

  // ---------------------------------------------------------------- what each step does

  function Cut(data: seq<byte>, a: nat, n: nat): (r: seq<byte>) {
    if a + n <= |data| then data[a..a + n] else if a <= |data| then data[a..] else []
  }

  function PackedLen(data: seq<byte>): nat
    requires |data| >= 6
  {
    (data[0] as nat) + 256 * (data[1] as nat)
  }

  function PayloadLen(data: seq<byte>): nat
    requires |data| >= 6
  {
    (data[2] as nat) + 256 * (data[3] as nat) + 0x1_0000 * (data[4] as nat) + 0x100_0000 * (data[5] as nat)
  }

  /** What the buffer's length fields say it holds; the test is on the buffer's size. */
  function Holding(data: seq<byte>): (r: seq<Received>) {
    if |data| < 6 || (6 + PayloadLen(data)) % 0x1_0000_0000 > |data| then [] else
      [Received(Cut(data, 6, PackedLen(data)), Cut(data, 6 + PackedLen(data), PayloadLen(data)))]
  }

  /** outernet_rx_try_bundle_insert */
  function TryInsert(l: Lane): (r: Lane) {
    l.(given := l.given + Holding(l.data))
  }

  /** outernet_rx_lane_init: what was there is tried first, then the lane is cleared. */
  function Init(l: Lane): (r: Lane) {
    TryInsert(l).(waiting := true, zone := 0, last := 0, bitmap := 0, data := [])
  }

  function Grown(size: nat, need: nat): (n: nat) {
    if size == 0 || size < need then (if size == 0 then FIRST_SIZE else 2 * size) else size
  }

  /** The lane's buffers are there. */
  ghost predicate Sized(l: Lane) {
    && l.p <= 63 && |l.pz| == ZONE_BUF && |l.pb| == PARITY_BUF
    && if l.zone == 0 then l.data == [] else |l.data| >= FIRST_SIZE
  }

  /** And the growing one covers the committed zones, taken at the lane's present data size. */
  ghost predicate Roomy(l: Lane) {
    Sized(l) && l.zone * (12 * l.p) <= |l.data|
  }

  lemma OneDoublingSuffices(l: Lane)
    requires Roomy(l)
    ensures (l.zone + 1) * (12 * l.p) == l.zone * (12 * l.p) + 12 * l.p <= Grown(|l.data|, (l.zone + 1) * (12 * l.p))
    ensures FIRST_SIZE <= Grown(|l.data|, (l.zone + 1) * (12 * l.p)) && |l.data| <= Grown(|l.data|, (l.zone + 1) * (12 * l.p))
  {
  }

  /** One doubling makes room for the lane's zone. */
  predicate CanCommit(l: Lane) {
    l.zone * (12 * l.p) + 12 * l.p <= Grown(|l.data|, (l.zone + 1) * (12 * l.p))
  }

  /** outernet_rx_lane_commit_parity_zone: room for one zone more, the zone, the next zone. New
      room is taken as zeros. Without the room the source writes past the buffer; what then is in
      it does not matter here. */
  function Commit(l: Lane): (r: Lane)
    requires Sized(l)
  {
    var at := l.zone * (12 * l.p);
    var size := Grown(|l.data|, (l.zone + 1) * (12 * l.p));
    var d := l.data + Zeros(size - |l.data|);
    var data := if CanCommit(l) then d[..at] + l.pz[..12 * l.p] + d[at + 12 * l.p..] else d;
    l.(data := data, last := l.zone, zone := l.zone + 1, bitmap := 0)
  }

  /** outernet_rx_lane_update_parity_zone */
  function Update(l: Lane): (r: Lane)
    requires Sized(l)
  {
    if l.bitmap in {0x7, 0xb, 0xd, 0xe} then Commit(l.(pz := Recover(l.pz, l.pb, l.p, Missing(l.bitmap))))
    else if l.bitmap == 0xf then Commit(l)
    else l
  }

  /** s with v from position at on. */
  function Put(s: seq<byte>, at: nat, v: seq<byte>): (r: seq<byte>)
    requires at + |v| <= |s|
    ensures |r| == |s|
  {
    s[..at] + v + s[at + |v|..]
  }

  /** Puts a packet's data and stripe where they belong in the zone. */
  function Store(l: Lane, x: Packet, p: nat): (r: Lane)
    requires Sized(l) && ValidPacket(x, p) && p <= 63
  {
    var k := x.number % 4;
    SliceFits(p, 0, k);
    l.(pz := Put(l.pz, k * (3 * p), x.data), pb := Put(l.pb, k * p, x.stripe), bitmap := WithPiece(l.bitmap, k), p := p)
  }

  /** A packet's data size changes only where a bundle starts. */
  ghost predicate SameSize(l: Lane, x: Packet, p: nat) {
    x.start || l.zone == 0 || l.p == p
  }

  /** Between packets. */
  ghost predicate Calm(l: Lane) {
    && Sized(l) && Few(l.bitmap) && l.last == (if l.zone == 0 then 0 else l.zone - 1)
    && (l.waiting ==> l.zone == 0 && l.bitmap == 0)
  }

  /** Between packets of one size. */
  ghost predicate Resting(l: Lane) {
    Calm(l) && l.zone * (12 * l.p) <= |l.data|
  }

  lemma RestingIs(l: Lane)
    requires Resting(l)
    ensures Roomy(l) && Sized(l) && Calm(l)
  {
  }

  // ---------------------------------------------------------------- one packet

  /** A start packet, or packet 1 while waiting for one, begins a bundle. */
  function Begun(l: Lane, x: Packet): (r: Lane) {
    if x.start || (x.number == 1 && l.waiting) then Init(l).(waiting := false) else l
  }

  /** Into the lane's zone, out of it, or neither. */
  function Placed(l: Lane, x: Packet, p: nat): (r: Lane)
    requires Sized(l) && ValidPacket(x, p) && p <= 63
  {
    var z := x.number / 4;
    if z == l.zone + 1 then (if Few(l.bitmap) then Init(l) else Update(l))
    else if z == l.zone then StoreSized(l, x, p); Update(Store(l, x, p))
    else l
  }

  lemma StoreSized(l: Lane, x: Packet, p: nat)
    requires Sized(l) && ValidPacket(x, p) && p <= 63
    ensures Sized(Store(l, x, p)) && (Roomy(l) && (l.zone == 0 || l.p == p) ==> Roomy(Store(l, x, p)))
  {
    SliceFits(p, 0, x.number % 4);
  }

  /** Skipped ahead: the lane is cleared. Otherwise the end flag hands the bundle on, and clears it. */
  function Ended(l: Lane, x: Packet): (r: Lane) {
    if x.number / 4 > l.zone + 1 then Init(l) else if x.end then Init(TryInsert(l)) else l
  }

  /** A packet of a bundle being received. */
  function Moved(l: Lane, x: Packet, p: nat): (r: Lane)
    requires Sized(l) && ValidPacket(x, p) && p <= 63
  {
    if x.number / 4 < l.zone && x.number / 4 != l.last then Init(l) else Ended(Placed(l, x, p), x)
  }

  /** outernet_rx_saw_packet, for a packet of this lane. */
  function Saw(l: Lane, x: Packet, p: nat): (r: Lane)
    requires Sized(l) && ValidPacket(x, p) && p <= 63
  {
    var l1 := Begun(l, x);
    if l1.waiting && x.number > 1 then l1 else Moved(l1.(waiting := false), x, p)
  }

  /** Three pieces or four: the lane's zone is committed. */
  predicate Commits(l: Lane) {
    l.bitmap in {0x7, 0xb, 0xd, 0xe, 0xf}
  }

  /** The packet has the lane's zone committed, and one doubling does not make room for it. */
  ghost predicate Overruns(l: Lane, x: Packet, p: nat)
    requires Sized(l) && ValidPacket(x, p) && p <= 63
  {
    var l1 := Begun(l, x);
    var l2 := l1.(waiting := false);
    && !(l1.waiting && x.number > 1)
    && (|| (x.number / 4 == l2.zone && Commits(Store(l2, x, p)) && !CanCommit(Store(l2, x, p)))
        || (x.number / 4 == l2.zone + 1 && Commits(l2) && !CanCommit(l2)))
  }

  // ---------------------------------------------------------------- the lane's resting state

  lemma OneMorePiece(bitmap: nat, k: nat)
    requires Few(bitmap) && k < 4
    ensures WithPiece(bitmap, k) in {0x7, 0xb, 0xd, 0xe} || Few(WithPiece(bitmap, k))
    ensures !Few(0xf)
  {
    if k == 0 {
    } else if k == 1 {
    } else if k == 2 {
    } else {
    }
  }

  function Has(b: bool): nat {
    if b then 1 else 0
  }

  /** A bitmap is its pieces. */
  lemma PiecesOf(b: nat, p0: bool, p1: bool, p2: bool, p3: bool)
    requires b == Has(p0) + 2 * Has(p1) + 4 * Has(p2) + 8 * Has(p3)
    ensures HasPiece(b, 0) == p0 && HasPiece(b, 1) == p1 && HasPiece(b, 2) == p2 && HasPiece(b, 3) == p3
  {
    assert b / 1 == Has(p0) + 2 * (Has(p1) + 2 * Has(p2) + 4 * Has(p3));
    assert b / 2 == Has(p1) + 2 * (Has(p2) + 2 * Has(p3));
    assert b / 4 == Has(p2) + 2 * Has(p3);
    assert b / 8 == Has(p3);
  }

  lemma InPieces(b: nat)
    requires b < 16
    ensures b == Has(HasPiece(b, 0)) + 2 * Has(HasPiece(b, 1)) + 4 * Has(HasPiece(b, 2)) + 8 * Has(HasPiece(b, 3))
  {
  }

  lemma PieceAdded(bitmap: nat, k: nat, j: nat)
    requires bitmap < 16 && k < 4 && j < 4
    ensures HasPiece(WithPiece(bitmap, k), j) <==> HasPiece(bitmap, j) || j == k
  {
    hide HasPiece;
    InPieces(bitmap);
    PiecesOf(WithPiece(bitmap, k), HasPiece(bitmap, 0) || k == 0, HasPiece(bitmap, 1) || k == 1,
             HasPiece(bitmap, 2) || k == 2, HasPiece(bitmap, 3) || k == 3);
  }

  /** Packets of one size never overrun the buffer. */
  lemma OneSizeFits(l: Lane, x: Packet, p: nat)
    requires Resting(l) && ValidPacket(x, p) && p <= 63 && SameSize(l, x, p)
    ensures !Overruns(l, x, p)
  {
    hide WithPiece, Put, Holding;
    var l2 := Begun(l, x).(waiting := false);
    StoreSized(l2, x, p);
    OneDoublingSuffices(Store(l2, x, p));
  }

  /** Another size may: a zone of 756 bytes after zones of 12 does, exactly if 173 of them have come. */
  lemma OtherSizesOverrun(l: Lane, x: Packet)
    requires Resting(l) && l.zone > 0 && l.p == 1 && |l.data| == FIRST_SIZE && l.bitmap == 3 && !l.waiting
    requires ValidPacket(x, 63) && x.number == 4 * l.zone + 2 && !x.start
    ensures Overruns(l, x, 63) <==> l.zone >= 173
  {
    hide Put, Holding;
    assert Commits(Store(l, x, 63));
  }

  /** Whatever arrives, at most two pieces are left lying, and the last zone is the one before. */
  lemma StaysCalm(l: Lane, x: Packet, p: nat)
    requires Calm(l) && ValidPacket(x, p) && p <= 63
    ensures Calm(Saw(l, x, p))
  {
    hide Recover, WithPiece, Put, Holding, Zeros, CanCommit;
    var l1 := Begun(l, x);
    if !(l1.waiting && x.number > 1) {
      var l2 := l1.(waiting := false);
      if !(x.number / 4 < l2.zone && x.number / 4 != l2.last) && x.number / 4 == l2.zone {
        StoreSized(l2, x, p);
        OneMorePiece(l2.bitmap, x.number % 4);
        UpdateCalms(Store(l2, x, p));
      }
    }
  }

  lemma UpdateCalms(l: Lane)
    requires Sized(l) && (Few(l.bitmap) || l.bitmap in {0x7, 0xb, 0xd, 0xe}) && !l.waiting
    requires l.last == (if l.zone == 0 then 0 else l.zone - 1)
    ensures Calm(Update(l)) && !Update(l).waiting
  {
    hide Recover, Zeros;
  }

  /** Of packets of one size, also the buffer covers what was committed. */
  lemma StaysResting(l: Lane, x: Packet, p: nat)
    requires Resting(l) && ValidPacket(x, p) && p <= 63 && SameSize(l, x, p)
    ensures Resting(Saw(l, x, p))
  {
    hide Recover, WithPiece, Put, Holding, Zeros;
    var l1 := Begun(l, x);
    if !(l1.waiting && x.number > 1) {
      var l2 := l1.(waiting := false);
      if !(x.number / 4 < l2.zone && x.number / 4 != l2.last) && x.number / 4 == l2.zone {
        StoreSized(l2, x, p);
        OneMorePiece(l2.bitmap, x.number % 4);
        UpdateRests(Store(l2, x, p));
      }
    }
  }

  lemma UpdateRests(l: Lane)
    requires Roomy(l) && (Few(l.bitmap) || l.bitmap in {0x7, 0xb, 0xd, 0xe}) && !l.waiting
    requires l.last == (if l.zone == 0 then 0 else l.zone - 1)
    ensures Resting(Update(l)) && !Update(l).waiting
  {
    hide Recover;
    OneDoublingSuffices(l);
  }
}
