/** A parity zone of a bundle being broadcast, as a lane holds it: which pieces, and that they and
    what is committed are the sender's. */
module OutnetZone {
  import opened Bits
  import opened Parity
  import opened ZoneCells
  import opened Recovery
  import opened OutnetPackets
  import opened OutnetLane

  /** A bundle being broadcast in packets of 3p data bytes. */
  datatype Cast = Cast(manifest: seq<byte>, body: seq<byte>, p: nat) {
    /** What sequence numbers of 14 bits can carry. */
    ghost predicate Fits() {
      && 0 < p <= 62 && |manifest| < 65536 && |body| < 0x1_0000_0000 && 4 * Zones() <= SEQ_LIMIT
    }

    ghost function Len(): (n: nat) {
      6 + |manifest| + |body|
    }

    ghost function Zones(): (z: nat)
      requires 0 < p
    {
      ZoneCount(Len(), p)
    }

    ghost function Bytes(): (s: seq<byte>)
      requires Fits()
      ensures |s| == Len() + 4 * MAX_MTU
    {
      Padded(Serialise(manifest, body))
    }

    ghost function Nth(i: nat): (x: Packet)
      requires Fits() && i < 4 * Zones()
      ensures ValidPacket(x, p) && x.number == i && x.start == (i == 0) && x.end == (i + 1 == 4 * Zones())
    {
      InPadded(Serialise(manifest, body), p, i);
      PacketAt(Bytes(), Len(), p, i)
    }

    ghost function At(z: nat): (d: seq<seq<byte>>)
      requires Fits() && z < Zones()
      ensures Zone(d, p)
    {
      InPadded(Serialise(manifest, body), p, 4 * z);
      ZoneAt(Bytes(), p, z)
    }

    ghost function Sent(): Received {
      Received(manifest, body)
    }
  }

  /** A zone that loses just one packet loses its last. */
  ghost predicate LosesLast(got: set<nat>, z: nat) {
    4 * z + 3 in got ==> Has(4 * z in got) + Has(4 * z + 1 in got) + Has(4 * z + 2 in got) != 2
  }

  ghost predicate Recoverable(got: set<nat>) {
    forall z: nat :: LosesLast(got, z)
  }

  /** The first three packets of a zone came. */
  ghost predicate ThreeCame(got: set<nat>, z: nat) {
    4 * z in got && 4 * z + 1 in got && 4 * z + 2 in got
  }

  ghost predicate AllCame(got: set<nat>, zones: nat) {
    forall z: nat :: z < zones ==> ThreeCame(got, z)
  }

  // ---------------------------------------------------------------- the zone in memory

  /** Slice k and its stripe are the sender's. */
  ghost predicate PieceIs(pz: seq<byte>, pb: seq<byte>, d: seq<seq<byte>>, p: nat, k: nat) {
    && k < 4 && Zone(d, p) && SliceIs(pz, p, k, d[k]) && 4 * p <= |pb| && Get(pb, p, 4, k) == Stripe(d, p, k)
  }

  /** The pieces marked are the packets received, and are the sender's. */
  ghost predicate Pieces(l: Lane, d: seq<seq<byte>>, p: nat, got: set<nat>) {
    && l.bitmap < 16
    && (forall k: nat :: k < 4 ==> (HasPiece(l.bitmap, k) <==> 4 * l.zone + k in got))
    && (forall k: nat :: k < 4 && HasPiece(l.bitmap, k) ==> PieceIs(l.pz, l.pb, d, p, k))
  }

  lemma PutCell(s: seq<byte>, p: nat, n: nat, c: nat, v: seq<byte>, t: nat)
    requires n * p <= |s| && c < n && t < n && |v| == p && c * p + p <= |s|
    ensures Get(Put(s, c * p, v), p, n, t) == if t == c then v else Get(s, p, n, t)
  {
    hide Get;
    var r := Put(s, c * p, v);
    WroteCell(s, r, p, n, c, v);
  }

  lemma PutSlice(s: seq<byte>, p: nat, k: nat, v: seq<byte>, j: nat, w: seq<byte>)
    requires 12 * p <= |s| && k < 4 && j < 4 && |v| == 3 * p && k * (3 * p) + 3 * p <= |s|
    requires j == k ==> w == v
    requires j != k ==> SliceIs(s, p, j, w)
    ensures SliceIs(Put(s, k * (3 * p), v), p, j, w)
  {
    hide Third;
    forall t | 0 <= t < 3
      ensures Cell(Put(s, k * (3 * p), v), p, j, t) == Third(w, t, p)
    {
      PutThird(s, p, k, v, j, t);
    }
  }

  lemma PutThird(s: seq<byte>, p: nat, k: nat, v: seq<byte>, j: nat, t: nat)
    requires 12 * p <= |s| && k < 4 && j < 4 && t < 3 && |v| == 3 * p && k * (3 * p) + 3 * p <= |s|
    ensures Cell(Put(s, k * (3 * p), v), p, j, t) == if j == k then Third(v, t, p) else Cell(s, p, j, t)
  {
    hide Third, Cell, Put;
    if j == k {
      PutOwnThird(s, p, k, v, t);
    } else if j < k {
      PutAbove(s, p, k, v, j, t);
    } else {
      PutBelow(s, p, k, v, j, t);
    }
  }

  lemma CellIs(s: seq<byte>, p: nat, j: nat, t: nat)
    requires 12 * p <= |s| && j < 4 && t < 3
    ensures j * (3 * p) + t * p + p == (3 * j + t + 1) * p == (3 * j + t) * p + p <= 12 * p
    ensures Cell(s, p, j, t) == s[j * (3 * p) + t * p..j * (3 * p) + t * p + p]
  {
    CellRange(3 * j + t, 12, p);
    CellPlace(j, t, p);
    SliceRange(j, p);
  }

  lemma PutOwnThird(s: seq<byte>, p: nat, k: nat, v: seq<byte>, t: nat)
    requires 12 * p <= |s| && k < 4 && t < 3 && |v| == 3 * p && k * (3 * p) + 3 * p <= |s|
    ensures Cell(Put(s, k * (3 * p), v), p, k, t) == Third(v, t, p)
  {
    hide Cell;
    var r, a := Put(s, k * (3 * p), v), k * (3 * p);
    Replaced(s, v, a, a + 3 * p);
    CellIs(r, p, k, t);
    Third0(t, p);
    SubSlice(r, a, v, t * p, p);
  }

  lemma PutAbove(s: seq<byte>, p: nat, k: nat, v: seq<byte>, j: nat, t: nat)
    requires 12 * p <= |s| && j < k < 4 && t < 3 && |v| == 3 * p && k * (3 * p) + 3 * p <= |s|
    ensures Cell(Put(s, k * (3 * p), v), p, j, t) == Cell(s, p, j, t)
  {
    hide Cell;
    var r, a := Put(s, k * (3 * p), v), k * (3 * p);
    Replaced(s, v, a, a + 3 * p);
    CellIs(r, p, j, t);
    CellIs(s, p, j, t);
    SliceRange(k, p);
    MulMono(3 * j + t + 1, 3 * k, p);
    SameHead(s, r, a, j * (3 * p) + t * p, p);
  }

  lemma PutBelow(s: seq<byte>, p: nat, k: nat, v: seq<byte>, j: nat, t: nat)
    requires 12 * p <= |s| && k < j < 4 && t < 3 && |v| == 3 * p && k * (3 * p) + 3 * p <= |s|
    ensures Cell(Put(s, k * (3 * p), v), p, j, t) == Cell(s, p, j, t)
  {
    hide Cell;
    var r, a := Put(s, k * (3 * p), v), k * (3 * p);
    Replaced(s, v, a, a + 3 * p);
    CellIs(r, p, j, t);
    CellIs(s, p, j, t);
    SliceRange(k, p);
    MulMono(3 * k + 3, 3 * j + t, p);
    SameAfter(s, r, a + 3 * p, j * (3 * p) + t * p, p);
  }

  lemma PutPiece(pz: seq<byte>, pb: seq<byte>, d: seq<seq<byte>>, p: nat, k: nat, j: nat)
    requires 12 * p <= |pz| && 4 * p <= |pb| && Zone(d, p) && k < 4 && j < 4
    requires k * (3 * p) + 3 * p <= |pz| && k * p + p <= |pb|
    requires j != k ==> PieceIs(pz, pb, d, p, j)
    ensures PieceIs(Put(pz, k * (3 * p), d[k]), Put(pb, k * p, Stripe(d, p, k)), d, p, j)
  {
    hide SliceIs, Put, Get, Stripe;
    PutSlice(pz, p, k, d[k], j, d[j]);
    PutCell(pb, p, 4, k, Stripe(d, p, k), j);
  }

  lemma NthIs(c: Cast, i: nat)
    requires c.Fits() && i < 4 * c.Zones()
    ensures i / 4 < c.Zones() && c.Nth(i).data == c.At(i / 4)[i % 4] && c.Nth(i).stripe == Stripe(c.At(i / 4), c.p, i % 4)
    ensures i % 4 * (3 * c.p) + 3 * c.p <= 12 * c.p && i % 4 * c.p + c.p <= 4 * c.p
  {
    hide ZoneAt, Padded, Stripe, ZoneCount;
    SliceFits(c.p, 0, i % 4);
  }

  /** Storing a packet keeps the zone in memory the sender's. */
  lemma Stored(l: Lane, c: Cast, got: set<nat>, i: nat)
    requires c.Fits() && i < 4 * c.Zones() && i / 4 == l.zone && Roomy(l) && (l.zone == 0 || l.p == c.p)
    requires Pieces(l, c.At(l.zone), c.p, got)
    ensures Pieces(Store(l, c.Nth(i), c.p), c.At(l.zone), c.p, got + {i})
  {
    hide PieceIs, Put, WithPiece, HasPiece, Stripe, Cast.Nth, Cast.At, Cast.Zones;
    var k, d := i % 4, c.At(l.zone);
    var m := Store(l, c.Nth(i), c.p);
    NthIs(c, i);
    forall j: nat | j < 4
      ensures HasPiece(m.bitmap, j) <==> 4 * l.zone + j in got + {i}
      ensures HasPiece(m.bitmap, j) ==> PieceIs(m.pz, m.pb, d, c.p, j)
    {
      PieceAdded(l.bitmap, k, j);
      if HasPiece(m.bitmap, j) {
        PutPiece(l.pz, l.pb, d, c.p, k, j);
      }
    }
    SmallBitmap(l.bitmap, k);
  }

  lemma SmallBitmap(b: nat, k: nat)
    requires b < 16 && k < 4
    ensures WithPiece(b, k) < 16
  {
  }

  // ---------------------------------------------------------------- committing

  /** What a lane has committed is the beginning of the sender's bytes, and there is nothing behind it. */
  ghost predicate Prefix(l: Lane, c: Cast) {
    && c.Fits() && l.zone <= c.Zones() && l.zone * (12 * c.p) <= |l.data| && l.zone * (12 * c.p) <= |c.Bytes()|
    && l.data[..l.zone * (12 * c.p)] == c.Bytes()[..l.zone * (12 * c.p)]
    && ZeroFrom(l.data, l.zone * (12 * c.p))
  }

  predicate ZeroFrom(d: seq<byte>, at: nat) {
    forall i :: at <= i < |d| ==> d[i] == 0
  }

  /** A zone in memory whose slices are all the sender's holds the sender's bytes. */
  lemma WholeZone(pz: seq<byte>, s: seq<byte>, p: nat, z: nat)
    requires (z + 1) * (12 * p) <= |s| && 12 * p <= |pz|
    requires forall j: nat :: j < 4 ==> SliceIs(pz, p, j, ZoneAt(s, p, z)[j])
    ensures z * (12 * p) + 12 * p == (z + 1) * (12 * p)
    ensures pz[..12 * p] == s[z * (12 * p)..z * (12 * p) + 12 * p]
  {
    hide Third, Get, Slice;
    SliceFits(p, z, 3);
    var a, w := pz[..12 * p], s[z * (12 * p)..z * (12 * p) + 12 * p];
    forall q: nat | q < 12
      ensures Get(a, p, 12, q) == Get(w, p, 12, q)
    {
      CellOfZone(pz, s, p, z, q / 3, q % 3);
      assert Cell(pz, p, q / 3, q % 3) == Third(ZoneAt(s, p, z)[q / 3], q % 3, p);
      assert q == 3 * (q / 3) + q % 3;
    }
    SameCells(a, w, p, 12, 12);
  }

  lemma CellOfZone(pz: seq<byte>, s: seq<byte>, p: nat, z: nat, j: nat, t: nat)
    requires (z + 1) * (12 * p) <= |s| && 12 * p <= |pz| && j < 4 && t < 3
    requires z * (12 * p) + 12 * p == (z + 1) * (12 * p)
    ensures Get(pz[..12 * p], p, 12, 3 * j + t) == Cell(pz, p, j, t)
    ensures Get(s[z * (12 * p)..z * (12 * p) + 12 * p], p, 12, 3 * j + t) == Third(ZoneAt(s, p, z)[j], t, p)
  {
    hide Third, Get, Slice;
    ThirdOfSlice(s, p, z, j, t);
    CellPlace(j, t, p);
    SliceRange(j, p);
    CellRange(3 * j + t, 12, p);
    GetIs(pz[..12 * p], p, 12, 3 * j + t);
    GetIs(pz, p, 12, 3 * j + t);
    GetIs(s[z * (12 * p)..z * (12 * p) + 12 * p], p, 12, 3 * j + t);
    SubSub(s, z * (12 * p), 12 * p, (3 * j + t) * p, p);
    SubSub(pz, 0, 12 * p, (3 * j + t) * p, p);
  }

  lemma ZoneFits(c: Cast, z: nat)
    requires c.Fits() && z < c.Zones()
    ensures (z + 1) * (12 * c.p) <= |c.Bytes()| && c.At(z) == ZoneAt(c.Bytes(), c.p, z)
  {
    hide Padded, ZoneAt, ZoneCount;
    InPadded(Serialise(c.manifest, c.body), c.p, 4 * z);
  }

  /** Committing the sender's zone goes on with the sender's bytes. */
  lemma Committed(l: Lane, c: Cast)
    requires Roomy(l) && Prefix(l, c) && l.zone < c.Zones() && l.p == c.p
    requires forall j: nat :: j < 4 ==> SliceIs(l.pz, c.p, j, c.At(l.zone)[j])
    ensures Prefix(Commit(l), c)
  {
    hide SliceIs, ZoneAt, Zeros, Cast.At, Cast.Bytes, Cast.Zones, Grown;
    var s, at, n := c.Bytes(), l.zone * (12 * c.p), 12 * c.p;
    ZoneFits(c, l.zone);
    WholeZone(l.pz, s, c.p, l.zone);
    OneDoublingSuffices(l);
    var m := Commit(l);
    Extended(l.data, m.data, s, at, n);
    ZeroBehind(l, m.data, at, n);
  }

  lemma ZeroBehind(l: Lane, data: seq<byte>, at: nat, n: nat)
    requires Sized(l) && at + n <= Grown(|l.data|, at + n) && |l.data| <= Grown(|l.data|, at + n) && ZeroFrom(l.data, at) && n <= |l.pz|
    requires var d := l.data + Zeros(Grown(|l.data|, at + n) - |l.data|); data == d[..at] + l.pz[..n] + d[at + n..]
    ensures ZeroFrom(data, at + n)
  {
    hide Grown;
    var d := l.data + Zeros(Grown(|l.data|, at + n) - |l.data|);
    forall i | at + n <= i < |data|
      ensures data[i] == 0
    {
      assert data[i] == d[i];
    }
  }

  lemma Extended(d: seq<byte>, d': seq<byte>, s: seq<byte>, at: nat, n: nat)
    requires at <= |d| && at + n <= |s| && at + n <= |d'| && d[..at] == s[..at]
    requires d'[..at] == d[..at] && d'[at..at + n] == s[at..at + n]
    ensures d'[..at + n] == s[..at + n]
  {
    assert d'[..at + n] == d'[..at] + d'[at..at + n];
    assert s[..at + n] == s[..at] + s[at..at + n];
  }

  /** Three pieces are the first three exactly when those packets have come. */
  lemma WhichCame(l: Lane, d: seq<seq<byte>>, p: nat, got: set<nat>)
    requires Pieces(l, d, p, got) && LosesLast(got, l.zone) && (Few(l.bitmap) || l.bitmap in {0x7, 0xb, 0xd, 0xe})
    ensures if ThreeCame(got, l.zone) then l.bitmap == 0x7 else Few(l.bitmap)
    ensures l.bitmap == 0x7 ==> forall k: nat :: k < 3 ==> PieceIs(l.pz, l.pb, d, p, k)
  {
    hide PieceIs, HasPiece, Few;
    WhichPieces(l.bitmap);
    assert HasPiece(l.bitmap, 0) <==> 4 * l.zone + 0 in got;
    assert HasPiece(l.bitmap, 1) <==> 4 * l.zone + 1 in got;
    assert HasPiece(l.bitmap, 2) <==> 4 * l.zone + 2 in got;
    assert HasPiece(l.bitmap, 3) <==> 4 * l.zone + 3 in got;
  }

  /** After a piece is stored, the zone is committed as the sender's exactly when its first three
      packets have come. */
  lemma Updated(l: Lane, c: Cast, got: set<nat>)
    requires c.Fits() && Roomy(l) && Prefix(l, c) && l.zone < c.Zones() && l.p == c.p && Pieces(l, c.At(l.zone), c.p, got)
    requires Few(l.bitmap) || l.bitmap in {0x7, 0xb, 0xd, 0xe}
    requires LosesLast(got, l.zone)
    ensures if ThreeCame(got, l.zone)
            then Prefix(Update(l), c) && Update(l) == Commit(l.(pz := Recover(l.pz, l.pb, l.p, 3)))
            else Update(l) == l && Few(l.bitmap)
  {
    hide PieceIs, Recover, Commit, Prefix, Cast.At, Cast.Zones, Pieces, ThreeCame, LosesLast, SliceIs;
    WhichCame(l, c.At(l.zone), c.p, got);
    if ThreeCame(got, l.zone) {
      var m := l.(pz := Recover(l.pz, l.pb, l.p, 3));
      RecoveredZone(l, c.At(l.zone));
      PrefixOf(l, m, c);
      Committed(m, c);
    }
  }

  lemma PrefixOf(l: Lane, m: Lane, c: Cast)
    requires Prefix(l, c) && m.zone == l.zone && m.data == l.data
    ensures Prefix(m, c)
  {
  }

  lemma WhichPieces(b: nat)
    requires Few(b) || b in {0x7, 0xb, 0xd, 0xe}
    ensures b == 0x7 <==> HasPiece(b, 0) && HasPiece(b, 1) && HasPiece(b, 2)
    ensures b in {0xb, 0xd, 0xe} ==> HasPiece(b, 3) && Has(HasPiece(b, 0)) + Has(HasPiece(b, 1)) + Has(HasPiece(b, 2)) == 2
    ensures b == 0x7 ==> !HasPiece(b, 3)
  {
  }

  lemma RecoveredZone(l: Lane, d: seq<seq<byte>>)
    requires Roomy(l) && Zone(d, l.p)
    requires forall k: nat :: k < 3 ==> PieceIs(l.pz, l.pb, d, l.p, k)
    ensures forall j: nat :: j < 4 ==> SliceIs(Recover(l.pz, l.pb, l.p, 3), l.p, j, d[j])
  {
    hide Recover, Get, Third, Stripe;
    assert PieceIs(l.pz, l.pb, d, l.p, 0) && PieceIs(l.pz, l.pb, d, l.p, 1) && PieceIs(l.pz, l.pb, d, l.p, 2);
    LastSliceIsRight(l.pz, l.pb, d, l.p);
    RecoverKeeps(l.pz, l.pb, l.p, 3, 0, d[0]);
    RecoverKeeps(l.pz, l.pb, l.p, 3, 1, d[1]);
    RecoverKeeps(l.pz, l.pb, l.p, 3, 2, d[2]);
  }

  // ---------------------------------------------------------------- handing on

  lemma LengthBytes(b: nat)
    requires b < 0x1_0000_0000
    ensures b % 256 + 256 * (b / 256 % 256) + 0x1_0000 * (b / 0x1_0000 % 256) + 0x100_0000 * (b / 0x100_0000) == b
  {
    var q, r, t := b / 256, b / 0x1_0000, b / 0x100_0000;
    assert r == q / 256 && t == r / 256;
  }

  /** A buffer that begins with all of the sender's zones hands on the sender's bundle. */
  lemma HoldsSent(data: seq<byte>, c: Cast)
    requires c.Fits() && c.Zones() * (12 * c.p) <= |data| && c.Zones() * (12 * c.p) <= |c.Bytes()|
    requires data[..c.Zones() * (12 * c.p)] == c.Bytes()[..c.Zones() * (12 * c.p)]
    ensures Holding(data) == [c.Sent()]
  {
    hide Serialise, Zeros, ZoneCount;
    var s := Serialise(c.manifest, c.body);
    ZoneCountBounds(c.Len(), c.p);
    Shorter(data, c.Bytes(), s, c.Zones() * (12 * c.p));
    Unserialised(data, c.manifest, c.body);
  }

  lemma Shorter(d: seq<byte>, t: seq<byte>, s: seq<byte>, n: nat)
    requires |s| <= n <= |d| && n <= |t| && d[..n] == t[..n] && t[..|s|] == s
    ensures d[..|s|] == s
  {
    assert d[..|s|] == d[..n][..|s|] && t[..|s|] == t[..n][..|s|];
  }

  /** Reading the lengths back, and what they delimit. */
  lemma Unserialised(data: seq<byte>, m: seq<byte>, b: seq<byte>)
    requires |m| < 65536 && |b| < 0x1_0000_0000 && 6 + |m| + |b| <= |data|
    requires data[..6 + |m| + |b|] == Serialise(m, b)
    ensures Holding(data) == [Received(m, b)]
  {
    var s := Serialise(m, b);
    assert forall i :: 0 <= i < |s| ==> data[i] == s[i];
    LengthBytes(|b|);
    assert PackedLen(data) == |m| && PayloadLen(data) == |b|;
    assert data[6..6 + |m|] == m && data[6 + |m|..6 + |m| + |b|] == b;
  }
}
