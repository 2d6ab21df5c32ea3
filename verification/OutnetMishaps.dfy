/** Runs in which the receiver goes wrong: an incomplete bundle is handed on, and packets of another
    size overrun the buffer. */
module OutnetMishaps {
  import opened Bits
  import opened Recovery
  import opened OutnetPackets
  import opened OutnetLane
  import opened OutnetZone
  import opened OutnetRun
  import opened OutnetTransfer

  /** The first three packets of each of the first n zones. */
  ghost function FirstThree(n: nat): (ids: seq<nat>)
    ensures forall i: nat :: i in ids <==> i < 4 * n && i % 4 < 3
    ensures InOrder(ids, 4 * n)
  {
    if n == 0 then [] else FirstThree(n - 1) + [4 * n - 4, 4 * n - 3, 4 * n - 2]
  }

  /** And the first k of the next zone. */
  ghost function UpTo(n: nat, k: nat): (ids: seq<nat>)
    requires k <= 2
    ensures forall i: nat :: i in ids <==> (i < 4 * n && i % 4 < 3) || 4 * n <= i < 4 * n + k
    ensures InOrder(ids, 4 * n + k)
  {
    FirstThree(n) + (if k == 0 then [] else if k == 1 then [4 * n] else [4 * n, 4 * n + 1])
  }

  lemma UpToIs(c: Cast, n: nat, k: nat)
    requires c.Fits() && n < c.Zones() && k <= 2
    ensures GoodRun(c, UpTo(n, k)) && AllCame(Got(UpTo(n, k)), n) && !Missed(Got(UpTo(n, k)))
  {
    hide Cast.Zones, UpTo;
    var got := Got(UpTo(n, k));
    forall z: nat
      ensures LosesLast(got, z) && (z < n ==> ThreeCame(got, z))
    {
      PlacesInZone(z);
    }
    forall z: nat, j: nat, i: nat
      ensures !Passed(got, z, j, i)
    {
      if j < 3 && z < n { assert (4 * z + j) % 4 == j; }
    }
  }

  /** The lane then follows the bundle, in that zone, with those pieces. */
  lemma Reaches(l: Lane, c: Cast, n: nat, k: nat)
    requires Resting(l) && l.waiting && c.Fits() && n < c.Zones() && k <= 2 && n + k > 0
    ensures GoodRun(c, UpTo(n, k))
    ensures var r := Run(l, c, UpTo(n, k));
            Follows(r, c, Got(UpTo(n, k))) && r.zone == n && r.given == l.given && r.bitmap == [0, 1, 3][k]
  {
    hide Cast.Zones, Cast.At, UpTo, Run, AllCame, Missed, GoodRun, Resting, Pieces, Prefix;
    UpToIs(c, n, k);
    var r, got := Run(l, c, UpTo(n, k)), Got(UpTo(n, k));
    assert (if k > 0 then 4 * n else 4 * n - 2) in got;
    NotAll(got, n, c.Zones());
    assert Follows(r, c, got);
    assert r.zone <= n by { if r.zone > n { CameAt(got, r.zone, n); } }
    if r.zone < n {
      RestingFew(r);
      CameAt(got, n, r.zone);
      Uncounted(r, c.At(r.zone), c.p, got);
    }
    WhichBitmap(r, c.At(n), c.p, got, k);
  }

  lemma NotAll(got: set<nat>, n: nat, zones: nat)
    requires n < zones && 4 * n + 2 !in got
    ensures !AllCame(got, zones)
  {
    if AllCame(got, zones) { CameAt(got, zones, n); }
  }

  lemma RestingFew(l: Lane)
    requires Resting(l)
    ensures Few(l.bitmap)
  {
  }

  lemma WhichBitmap(l: Lane, d: seq<seq<byte>>, p: nat, got: set<nat>, k: nat)
    requires Pieces(l, d, p, got) && k <= 2
    requires (4 * l.zone in got <==> k > 0) && (4 * l.zone + 1 in got <==> k > 1) && 4 * l.zone + 2 !in got && 4 * l.zone + 3 !in got
    ensures l.bitmap == [0, 1, 3][k]
  {
    hide PieceIs, HasPiece;
    InPieces(l.bitmap);
    assert HasPiece(l.bitmap, 0) <==> 4 * l.zone + 0 in got;
    assert HasPiece(l.bitmap, 1) <==> 4 * l.zone + 1 in got;
    assert HasPiece(l.bitmap, 2) <==> 4 * l.zone + 2 in got;
    assert HasPiece(l.bitmap, 3) <==> 4 * l.zone + 3 in got;
  }

  // ---------------------------------------------------------------- the buffer in a run

  ghost predicate FirstSized(l: Lane) {
    l.zone > 0 ==> |l.data| == FIRST_SIZE
  }

  /** While the zones fit the first allocation, there is no other. */
  lemma SawSized(l: Lane, x: Packet, p: nat)
    requires Resting(l) && FirstSized(l) && ValidPacket(x, p) && p <= 63 && (x.number / 4 + 1) * (12 * p) <= FIRST_SIZE
    ensures FirstSized(Saw(l, x, p))
  {
    hide Put, Holding, WithPiece, Update, Store, Sized;
    RestingIs(l);
    var l2 := Begun(l, x).(waiting := false);
    BegunSized(l, x);
    if x.number / 4 == l2.zone {
      StoreSized(l2, x, p);
      assert FirstSized(Store(l2, x, p)) && Store(l2, x, p).zone == l2.zone && Store(l2, x, p).p == p by { StoredAs(l2, x, p); }
      UpdateSized(Store(l2, x, p));
    }
  }

  lemma BegunSized(l: Lane, x: Packet)
    requires Resting(l) && FirstSized(l)
    ensures var l2 := Begun(l, x).(waiting := false); Sized(l2) && FirstSized(l2) && Few(l2.bitmap)
  {
    hide Holding;
  }

  lemma StoredAs(l: Lane, x: Packet, p: nat)
    requires Sized(l) && ValidPacket(x, p) && p <= 63
    ensures var m := Store(l, x, p); m.zone == l.zone && m.data == l.data && m.p == p
  {
  }

  lemma UpdateSized(l: Lane)
    requires Sized(l) && FirstSized(l) && (l.zone + 1) * (12 * l.p) <= FIRST_SIZE
    ensures FirstSized(Update(l))
  {
    hide Recover;
  }

  lemma {:induction false} RunSized(l: Lane, c: Cast, ids: seq<nat>)
    requires Resting(l) && l.waiting && GoodRun(c, ids) && c.Zones() * (12 * c.p) <= FIRST_SIZE
    ensures FirstSized(Run(l, c, ids))
    decreases |ids|
  {
    hide Cast.Zones, Cast.Nth, GoodRun, Saw, Resting, SameSize, Run, Recoverable, Got;
    if ids == [] {
      RunOfNone(l, c);
      RestingFirst(l);
    } else {
      var n := |ids| - 1;
      RunPrefix(c, ids);
      assert ids == ids[..n] + [ids[n]];
      RunOneMore(l, c, ids[..n], ids[n]);
      RunSized(l, c, ids[..n]);
      MulUp(ids[n] / 4 + 1, c.Zones(), 12 * c.p);
      SawSized(Run(l, c, ids[..n]), c.Nth(ids[n]), c.p);
    }
  }

  lemma RestingFirst(l: Lane)
    requires Resting(l) && l.waiting
    ensures FirstSized(l)
  {
  }

  // ---------------------------------------------------------------- another size

  /** A bundle in the smallest packets, heard as far as two packets of zone n, n at least 173; then
      one packet 4n + 2 of the largest: the lane writes past its buffer. */
  lemma RunOverruns(l: Lane, c: Cast, n: nat, x: Packet)
    requires Resting(l) && l.waiting && c.Fits() && c.p == 1 && 0 < n < c.Zones()
    requires ValidPacket(x, 63) && x.number == 4 * n + 2 && !x.start
    ensures GoodRun(c, UpTo(n, 2)) && Sized(Run(l, c, UpTo(n, 2)))
    ensures Overruns(Run(l, c, UpTo(n, 2)), x, 63) <==> n >= 173
  {
    hide Cast.Zones, UpTo, Run, GoodRun, Overruns, Got;
    Reaches(l, c, n, 2);
    RunSized(l, c, UpTo(n, 2));
    var r := Run(l, c, UpTo(n, 2));
    FollowsRests(r, c, Got(UpTo(n, 2)));
    FollowsSize(r, c, Got(UpTo(n, 2)));
    OtherSizesOverrun(r, x);
  }

  lemma FollowsSize(l: Lane, c: Cast, got: set<nat>)
    requires Follows(l, c, got)
    ensures l.zone == 0 || l.p == c.p
  {
  }

  // ---------------------------------------------------------------- half a bundle

  /** After the first zone the buffer is that zone and zeros. */
  lemma FirstZoneOnly(l: Lane, c: Cast)
    requires Resting(l) && l.waiting && c.Fits() && c.Zones() > 1
    ensures GoodRun(c, UpTo(1, 0))
    ensures var r := Run(l, c, UpTo(1, 0));
            && Follows(r, c, Got(UpTo(1, 0))) && r.zone == 1 && r.bitmap == 0 && r.given == l.given
            && |r.data| == FIRST_SIZE && forall j :: 12 * c.p <= j < FIRST_SIZE ==> r.data[j] == 0
  {
    hide Cast.Zones, Cast.Nth, Run, GoodRun, Saw, Follows, Got, Zeros;
    Reaches(l, c, 1, 0);
    Reaches(l, c, 0, 2);
    assert UpTo(1, 0) == UpTo(0, 2) + [2];
    RunOneMore(l, c, UpTo(0, 2), 2);
    FollowsRests(Run(l, c, UpTo(0, 2)), c, Got(UpTo(0, 2)));
    ThirdCommits(Run(l, c, UpTo(0, 2)), c.Nth(2), c.p);
  }

  lemma ThirdCommits(l: Lane, x: Packet, p: nat)
    requires Resting(l) && !l.waiting && l.zone == 0 && l.bitmap == 3 && 0 < p <= 62
    requires ValidPacket(x, p) && x.number == 2 && !x.start && !x.end
    ensures var m := Saw(l, x, p); |m.data| == FIRST_SIZE && forall j :: 12 * p <= j < FIRST_SIZE ==> m.data[j] == 0
  {
    hide Put, Holding, Recover;
    StoreSized(l, x, p);
    assert Store(l, x, p).bitmap == 7;
  }

  /** The bytes from the second zone on. */
  ghost predicate ZeroAfterFirst(c: Cast)
    requires c.Fits()
  {
    forall j :: 12 * c.p <= j < c.Len() ==> Serialise(c.manifest, c.body)[j] == 0
  }

  /** Of a bundle of three zones or more the first zone comes, and then a packet of the third: something
      is handed on, and it is the bundle only if that goes on with zeros. */
  lemma HalfIsHandedOn(l: Lane, c: Cast)
    requires Resting(l) && l.waiting && c.Fits() && c.Zones() > 2 && c.Len() <= FIRST_SIZE
    ensures GoodRun(c, UpTo(1, 0) + [8])
    ensures var r := Run(l, c, UpTo(1, 0) + [8]);
            && |r.given| == |l.given| + 1 && r.given[..|l.given|] == l.given
            && (r.given[|l.given|] == c.Sent() <==> ZeroAfterFirst(c))
  {
    hide Cast.Zones, Cast.Nth, Run, GoodRun, Saw, Follows, Got, ZeroAfterFirst, Holding;
    FirstZoneOnly(l, c);
    SkipIsGood(c);
    RunOneMore(l, c, UpTo(1, 0), 8);
    var r := Run(l, c, UpTo(1, 0));
    FollowsRests(r, c, Got(UpTo(1, 0)));
    Skips(r, c.Nth(8), c.p);
    HoldsHalf(r, c, Got(UpTo(1, 0)));
  }

  /** So of 36 bytes of ones something else is handed on. */
  lemma OnesAreCutOff(l: Lane, c: Cast)
    requires Resting(l) && l.waiting && c == Cast([], seq(36, _ => 1), 1)
    ensures GoodRun(c, UpTo(1, 0) + [8])
    ensures exists r :: r != c.Sent() && Run(l, c, UpTo(1, 0) + [8]).given == l.given + [r]
  {
    hide Run, GoodRun, UpTo;
    HalfIsHandedOn(l, c);
    assert Serialise(c.manifest, c.body)[12] == 1;
    assert !ZeroAfterFirst(c);
    var given := Run(l, c, UpTo(1, 0) + [8]).given;
    assert given == l.given + [given[|l.given|]];
  }

  lemma SkipIsGood(c: Cast)
    requires GoodRun(c, UpTo(1, 0)) && c.Zones() > 2
    ensures GoodRun(c, UpTo(1, 0) + [8])
  {
    hide Cast.Zones, UpTo;
    var ids := UpTo(1, 0) + [8];
    forall z: nat
      ensures LosesLast(Got(ids), z)
    {
      assert 4 * z + 3 !in ids;
    }
  }

  lemma Skips(l: Lane, x: Packet, p: nat)
    requires Resting(l) && !l.waiting && l.zone == 1 && l.bitmap == 0 && 0 < p <= 62
    requires ValidPacket(x, p) && x.number == 8 && !x.start
    ensures Saw(l, x, p).given == l.given + Holding(l.data)
  {
    hide Holding;
    InitTwice(l);
  }

  lemma HoldsHalf(l: Lane, c: Cast, got: set<nat>)
    requires Follows(l, c, got) && l.zone == 1 && c.Zones() > 2 && c.Len() <= FIRST_SIZE == |l.data|
    requires forall j :: 12 * c.p <= j < FIRST_SIZE ==> l.data[j] == 0
    ensures |Holding(l.data)| == 1 && (Holding(l.data)[0] == c.Sent() <==> ZeroAfterFirst(c))
  {
    hide Pieces, Cast.At, Holding, Serialise, Zeros, ZoneCount;
    var s, n := Serialise(c.manifest, c.body), 12 * c.p;
    ZoneCountBounds(c.Len(), c.p);
    MulUp(2, c.Zones() - 1, n);
    FollowsStart(l, c, got);
    Holds(l.data, c.manifest, c.body);
    assert l.data[..n] == s[..n] by { assert c.Bytes()[..|s|][..n] == c.Bytes()[..n]; }
    ZerosOrNot(l.data, s, n);
  }

  lemma FollowsStart(l: Lane, c: Cast, got: set<nat>)
    requires Follows(l, c, got) && l.zone == 1
    ensures 12 * c.p <= |l.data| && 12 * c.p <= |c.Bytes()| && l.data[..12 * c.p] == c.Bytes()[..12 * c.p]
  {
    hide Pieces, Cast.At, Cast.Bytes;
  }

  lemma ZerosOrNot(d: seq<byte>, s: seq<byte>, n: nat)
    requires n <= |s| <= |d| && d[..n] == s[..n] && forall j :: n <= j < |d| ==> d[j] == 0
    ensures d[..|s|] == s <==> forall j :: n <= j < |s| ==> s[j] == 0
  {
    if forall j :: n <= j < |s| ==> s[j] == 0 {
      assert forall j :: 0 <= j < n ==> d[j] == d[..n][j] == s[..n][j] == s[j];
    }
  }

  lemma Holds(data: seq<byte>, m: seq<byte>, b: seq<byte>)
    requires |m| < 65536 && 6 + |m| + |b| <= |data| && |data| <= FIRST_SIZE && data[..6] == Serialise(m, b)[..6]
    ensures |Holding(data)| == 1 && (Holding(data)[0] == Received(m, b) <==> data[..6 + |m| + |b|] == Serialise(m, b))
  {
    hide Zeros;
    LengthBytes(|b|);
    var s, n := Serialise(m, b), 6 + |m| + |b|;
    var h := Serialise(m, b)[..6];
    assert forall i :: 0 <= i < 6 ==> data[i] == data[..6][i] == h[i] == s[i];
    assert PackedLen(data) == |m| && PayloadLen(data) == |b|;
    assert Holding(data) == [Received(data[6..6 + |m|], data[6 + |m|..n])];
    assert s == h + m + b && data[..n] == data[..6] + data[6..6 + |m|] + data[6 + |m|..n];
    SameParts(h, data[6..6 + |m|], data[6 + |m|..n], m, b);
  }

  lemma SameParts(h: seq<byte>, a: seq<byte>, b: seq<byte>, c: seq<byte>, d: seq<byte>)
    requires |a| == |c| && |b| == |d|
    ensures h + a + b == h + c + d <==> a == c && b == d
  {
    var x, y := h + a + b, h + c + d;
    assert x[|h|..|h| + |a|] == a && y[|h|..|h| + |a|] == c && x[|h| + |a|..] == b && y[|h| + |a|..] == d;
  }
}
