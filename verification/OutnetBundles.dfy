/** One bundle after another on a lane: a packet from before the zone just committed, or from beyond the one
    being received, clears the lane, and then bundles are never mixed. */
module OutnetBundles {
  import opened Bits
  import opened Parity
  import opened Recovery
  import opened OutnetPackets
  import opened OutnetLane
  import opened OutnetZone
  import opened OutnetRun

  // ---------------------------------------------------------------- one packet

  /** The lane as it is cleared: empty, and waiting for a start. */
  ghost predicate Empty(l: Lane) {
    l.waiting && l.zone == 0 && l.last == 0 && l.bitmap == 0 && l.data == []
  }

  /** A packet of a zone below the last one, which no start flag explains, shows that another bundle has
      begun: whatever the lane holds, it is tried and cleared. */
  lemma BackwardsClears(l: Lane, x: Packet, p: nat)
    requires Calm(l) && !l.waiting && ValidPacket(x, p) && p <= 63
    requires !x.start && x.number / 4 + 1 < l.zone
    ensures Empty(Saw(l, x, p)) && Saw(l, x, p).given == l.given + Holding(l.data)
    ensures Saw(l, x, p) == Init(l)
  {
    hide Holding;
  }

  /** So does a packet of a zone beyond the one being received. */
  lemma AheadClears(l: Lane, x: Packet, p: nat)
    requires Calm(l) && !l.waiting && ValidPacket(x, p) && p <= 63
    requires !x.start && x.number / 4 > l.zone
    ensures Empty(Saw(l, x, p)) && Saw(l, x, p).given == l.given + Holding(l.data)
    ensures Saw(l, x, p) == Init(l)
  {
    hide Holding;
    InitTwice(l);
  }

  lemma StartClearsAny(l: Lane, x: Packet, p: nat)
    requires Calm(l) && ValidPacket(x, p) && p <= 63 && x.start
    ensures Calm(Init(l)) && Saw(l, x, p) == Saw(Init(l), x, p)
  {
    hide Moved, Holding;
    InitTwice(l);
  }

  /** An empty lane ignores all but the first two packets of a bundle. */
  lemma EmptyIgnores(l: Lane, x: Packet, p: nat)
    requires Calm(l) && Empty(l) && ValidPacket(x, p) && p <= 63 && !x.start && x.number > 1
    ensures Saw(l, x, p) == l
  {
    hide Holding;
  }

  lemma WaitingIsEmpty(l: Lane)
    requires Calm(l)
    ensures Calm(Init(l)) && Empty(Init(l)) && (l.waiting ==> Empty(l) && Init(l) == l)
  {
    hide Holding;
    HeldNone();
  }

  // ---------------------------------------------------------------- packets one after another

  ghost function Feed(l: Lane, c: Cast, ids: seq<nat>): (r: Lane)
    requires Calm(l) && c.Fits() && forall i :: 0 <= i < |ids| ==> ids[i] < 4 * c.Zones()
    ensures Calm(r)
    decreases |ids|
  {
    hide Saw, Cast.Zones, Cast.Nth, Calm;
    if ids == [] then l else
      StaysCalm(l, c.Nth(ids[0]), c.p);
      Feed(Saw(l, c.Nth(ids[0]), c.p), c, ids[1..])
  }

  lemma {:induction false} FeedLast(l: Lane, c: Cast, ids: seq<nat>, i: nat)
    requires Calm(l) && c.Fits() && (forall i :: 0 <= i < |ids| ==> ids[i] < 4 * c.Zones()) && i < 4 * c.Zones()
    ensures Feed(l, c, ids + [i]) == Saw(Feed(l, c, ids), c.Nth(i), c.p)
    decreases |ids|
  {
    hide Saw, Cast.Zones, Cast.Nth, Calm;
    if ids == [] {
      assert [] + [i] == [i] && [i][1..] == [];
      StaysCalm(l, c.Nth(i), c.p);
    } else {
      CalmSized(l);
      StaysCalm(l, c.Nth(ids[0]), c.p);
      FeedLast(Saw(l, c.Nth(ids[0]), c.p), c, ids[1..], i);
      assert (ids + [i])[1..] == ids[1..] + [i];
    }
  }

  lemma CalmSized(l: Lane)
    requires Calm(l)
    ensures Sized(l)
  {
  }

  /** A run is its packets one after another. */
  lemma {:induction false} RunIsFeed(l: Lane, c: Cast, ids: seq<nat>)
    requires GoodRun(c, ids) && Resting(l) && l.waiting
    ensures Calm(l) && (forall i :: 0 <= i < |ids| ==> ids[i] < 4 * c.Zones()) && Run(l, c, ids) == Feed(l, c, ids)
    decreases |ids|
  {
    hide Saw, Cast.Zones, Cast.Nth, Run, Recoverable, Got;
    if ids == [] {
      RunNothing(l, c);
    } else {
      var n := |ids| - 1;
      RunPrefix(c, ids);
      RunIsFeed(l, c, ids[..n]);
      FeedLast(l, c, ids[..n], ids[n]);
      assert ids == ids[..n] + [ids[n]];
      RunStep(l, c, ids);
    }
  }

  lemma RunNothing(l: Lane, c: Cast)
    requires GoodRun(c, []) && Resting(l) && l.waiting
    ensures Run(l, c, []) == l
  {
  }

  lemma RunStep(l: Lane, c: Cast, ids: seq<nat>)
    requires GoodRun(c, ids) && Resting(l) && l.waiting && ids != []
    ensures var n := |ids| - 1;
            && GoodRun(c, ids[..n]) && Resting(Run(l, c, ids[..n])) && ids[n] < 4 * c.Zones()
            && Run(l, c, ids) == Saw(Run(l, c, ids[..n]), c.Nth(ids[n]), c.p)
  {
    hide Saw, Cast.Zones, Cast.Nth, InRun, SameSize, Recoverable, Got;
    var n := |ids| - 1;
    RunPrefix(c, ids);
    RunIsSafe(l, c, ids[..n]);
    SawInRun(Run(l, c, ids[..n]), c, Got(ids[..n]), ids[n], l.given);
  }

  // ---------------------------------------------------------------- another bundle

  /** The packet cannot be taken for one of the zone just committed or of the one being received. */
  predicate Clears(l: Lane, i: nat) {
    l.waiting || i == 0 || i / 4 + 1 < l.zone || i / 4 > l.zone
  }

  /** If the first packet that comes of the next bundle is such, then, whatever is lost of it, the lane does
      from there on what an empty one does: with that packet, or, if it is packet 1, with those after it. */
  lemma NextBeginsAfresh(l: Lane, c: Cast, ids: seq<nat>)
    requires Calm(l) && c.Fits() && (forall i :: 0 <= i < |ids| ==> ids[i] < 4 * c.Zones())
    requires ids != [] && Clears(l, ids[0])
    ensures Calm(Init(l)) && Empty(Init(l)) && Init(l).given == l.given + Holding(l.data)
    ensures Feed(l, c, ids) == Feed(Init(l), c, if ids[0] == 1 && !l.waiting then ids[1..] else ids)
  {
    hide Saw, Cast.Zones, Cast.Nth, Calm, Feed, Holding, Init;
    var x := c.Nth(ids[0]);
    WaitingIsEmpty(l);
    InitTwice(l);
    FeedFirst(l, c, ids);
    FeedFirst(Init(l), c, ids);
    if !l.waiting {
      if ids[0] == 0 {
        StartClearsAny(l, x, c.p);
      } else {
        if ids[0] / 4 > l.zone { AheadClears(l, x, c.p); } else { BackwardsClears(l, x, c.p); }
        if ids[0] > 1 { EmptyIgnores(Init(l), x, c.p); }
      }
    }
  }

  lemma FeedFirst(l: Lane, c: Cast, ids: seq<nat>)
    requires Calm(l) && c.Fits() && (forall i :: 0 <= i < |ids| ==> ids[i] < 4 * c.Zones()) && ids != []
    ensures Calm(Saw(l, c.Nth(ids[0]), c.p)) && Feed(l, c, ids) == Feed(Saw(l, c.Nth(ids[0]), c.p), c, ids[1..])
  {
    hide Saw, Cast.Zones, Cast.Nth, Calm;
    StaysCalm(l, c.Nth(ids[0]), c.p);
  }

  // ---------------------------------------------------------------- two bundles

  /** Handed on from a buffer with nothing in it but committed zones of this bundle. */
  ghost predicate OfOne(r: Received, c: Cast) {
    r == c.Sent() || Begins(r, c)
  }

  ghost predicate AllOfOne(rs: seq<Received>, c: Cast) {
    forall i :: 0 <= i < |rs| ==> OfOne(rs[i], c)
  }

  /** What a run hands on is of its bundle. */
  lemma RunHandsOn(l: Lane, c: Cast, ids: seq<nat>)
    requires GoodRun(c, ids) && Resting(l) && l.waiting
    ensures var given := Run(l, c, ids).given; l.given <= given && AllOfOne(given[|l.given|..], c)
  {
    hide Run, Cast.Zones, Follows, AllCame, Begins, Missed, GoodRun, Got, Resting;
    var r, g := Run(l, c, ids), l.given;
    GivenInRun(r, c, Got(ids), g);
  }

  lemma GivenInRun(r: Lane, c: Cast, got: set<nat>, g: seq<Received>)
    requires InRun(r, c, got, g)
    ensures g <= r.given && AllOfOne(r.given[|g|..], c)
  {
    hide Cast.Zones, Follows, AllCame, Begins, Missed, Resting, Cast.Sent;
    if r.given == g + [c.Sent(), c.Sent()] { assert r.given[|g|..] == [c.Sent(), c.Sent()]; }
  }

  /** A lane in the middle of a bundle holds that bundle only. */
  lemma HoldsOfOne(l: Lane, c: Cast, ids: seq<nat>)
    requires GoodRun(c, ids) && Resting(l) && l.waiting
    ensures AllOfOne(Holding(Run(l, c, ids).data), c)
  {
    hide Run, Cast.Zones, AllCame, Begins, Missed, GoodRun, Got, Holding, Pieces, Cast.At, Cast.Nth, Cast.Bytes;
    var r := Run(l, c, ids);
    if Follows(r, c, Got(ids)) {
      Tried(r, c, Got(ids));
    } else {
      HeldNone();
    }
  }

  lemma ClearedNeverMixed(l: Lane, a: Cast, ids: seq<nat>, b: Cast, ids': seq<nat>)
    requires GoodRun(a, ids) && Resting(l) && l.waiting && GoodRun(b, ids')
    requires ids' != [] && Clears(Run(l, a, ids), ids'[0])
    ensures Calm(Run(l, a, ids)) && forall i :: 0 <= i < |ids'| ==> ids'[i] < 4 * b.Zones()
    ensures exists n: nat :: OneThenOther(Feed(Run(l, a, ids), b, ids').given, l.given, n, a, b)
  {
    hide Run, Cast.Zones, Holding, Init, Feed, AllOfOne, GoodRun, Resting, Calm, Clears, OneThenOther, Empty, Few, Safe;
    var r := Run(l, a, ids);
    RunIsSafe(l, a, ids);
    RestsCalm(r);
    InBounds(b, ids');
    RunHandsOn(l, a, ids);
    HoldsOfOne(l, a, ids);
    NextBeginsAfresh(r, b, ids');
    InitRestsAny(r);
    var more := if ids'[0] == 1 && !r.waiting then ids'[1..] else ids';
    AfterFirst(Init(r), b, ids', more);
    Joined(l.given, r.given, Holding(r.data), Feed(Init(r), b, more).given, a, b);
  }

  // ---------------------------------------------------------------- packets of the zone just committed

  /** A packet that might be one more of the zone just committed. */
  predicate Passed(l: Lane, i: nat) {
    !l.waiting && i > 0 && i / 4 + 1 == l.zone
  }

  /** It changes nothing, but for the end of its bundle. */
  lemma PassedIgnored(l: Lane, x: Packet, p: nat)
    requires Calm(l) && ValidPacket(x, p) && p <= 63 && !x.start && Passed(l, x.number)
    ensures !x.end ==> Saw(l, x, p) == l
    ensures x.end ==> Saw(l, x, p) == Init(TryInsert(l))
  {
    hide Init, TryInsert;
  }

  /** An empty lane ignores all packets from the third on. */
  lemma {:induction false} Idles(l: Lane, c: Cast, ids: seq<nat>)
    requires Calm(l) && Empty(l) && c.Fits() && (forall i :: 0 <= i < |ids| ==> 1 < ids[i] < 4 * c.Zones())
    ensures Feed(l, c, ids) == l
    decreases |ids|
  {
    hide Saw, Cast.Zones, Cast.Nth, Calm, Empty;
    if ids != [] {
      FeedFirst(l, c, ids);
      EmptyIgnores(l, c.Nth(ids[0]), c.p);
      Idles(l, c, ids[1..]);
    }
  }

  /** What the lane holds is handed on once, twice, or not at all. */
  ghost predicate NoneOrHolding(given: seq<Received>, l: Lane) {
    given == l.given || given == l.given + Holding(l.data) || given == l.given + Holding(l.data) + Holding(l.data)
  }

  lemma {:induction false} PassesOn(l: Lane, c: Cast, ids: seq<nat>, k: nat)
    requires Calm(l) && !l.waiting && c.Fits() && (forall i :: 0 <= i < |ids| ==> ids[i] < 4 * c.Zones()) && k <= |ids|
    requires (forall i, j :: 0 <= i <= j < |ids| ==> ids[i] <= ids[j]) && (forall j :: 0 <= j < k ==> Passed(l, ids[j]))
    requires k < |ids| ==> ids[k] / 4 > l.zone
    ensures NoneOrHolding(Feed(l, c, ids).given, l)
    decreases |ids|
  {
    hide Saw, Cast.Zones, Cast.Nth, Calm, Holding, Init, TryInsert;
    if ids != [] {
      var x := c.Nth(ids[0]);
      FeedFirst(l, c, ids);
      if k == 0 {
        AheadClears(l, x, c.p);
        Idles(Init(l), c, ids[1..]);
      } else {
        PassedIgnored(l, x, c.p);
        if x.end {
          TriedAndCleared(l);
          Idles(Init(TryInsert(l)), c, ids[1..]);
        } else {
          PassesOn(l, c, ids[1..], k - 1);
        }
      }
    }
  }

  lemma TriedAndCleared(l: Lane)
    requires Calm(l)
    ensures Empty(Init(TryInsert(l))) && Calm(Init(TryInsert(l)))
    ensures Init(TryInsert(l)).given == l.given + Holding(l.data) + Holding(l.data)
  {
    hide Holding;
  }

  lemma LateClear(l: Lane, c: Cast, ids: seq<nat>, k: nat)
    requires GoodRun(c, ids) && 0 < k <= |ids| && Passed(l, ids[0]) && (k < |ids| ==> Clears(l, ids[k]))
    ensures !l.waiting && (forall i, j :: 0 <= i <= j < |ids| ==> ids[i] <= ids[j]) && (k < |ids| ==> ids[k] / 4 > l.zone)
  {
    hide Recoverable, Got, Cast.Zones;
    if k < |ids| { assert ids[0] <= ids[k]; }
  }

  /** Packets that pass by, and perhaps one that clears the lane. */
  lemma PassesBy(l: Lane, c: Cast, ids: seq<nat>, k: nat)
    requires Calm(l) && GoodRun(c, ids) && k <= |ids| && (k == 0 ==> ids == [])
    requires (forall j :: 0 <= j < k ==> Passed(l, ids[j])) && (k < |ids| ==> Clears(l, ids[k]))
    ensures c.Fits() && (forall i :: 0 <= i < |ids| ==> ids[i] < 4 * c.Zones()) && NoneOrHolding(Feed(l, c, ids).given, l)
  {
    hide Cast.Zones, Holding, Init, Feed, GoodRun, Calm, Few, NoneOrHolding, Passed, Clears;
    InBounds(c, ids);
    if k == 0 {
      FeedNothing(l, c, ids);
    } else {
      LateClear(l, c, ids, k);
      PassesOn(l, c, ids, k);
    }
  }

  /** Packets of a second bundle after those of a first, whatever the recovery can cope with being lost of either:
      unless the first of them that comes, but for those that might be more of the zone just committed, is one of
      the zone being received, nothing handed on holds bytes of both. */
  lemma NeverMixed(l: Lane, a: Cast, ids: seq<nat>, b: Cast, ids': seq<nat>, k: nat)
    requires GoodRun(a, ids) && Resting(l) && l.waiting && GoodRun(b, ids') && k <= |ids'|
    requires (forall j :: 0 <= j < k ==> Passed(Run(l, a, ids), ids'[j])) && (k < |ids'| ==> Clears(Run(l, a, ids), ids'[k]))
    ensures Calm(Run(l, a, ids)) && forall i :: 0 <= i < |ids'| ==> ids'[i] < 4 * b.Zones()
    ensures exists n: nat :: OneThenOther(Feed(Run(l, a, ids), b, ids').given, l.given, n, a, b)
  {
    hide Run, Cast.Zones, Holding, Init, Feed, AllOfOne, GoodRun, Resting, Calm, OneThenOther, Few, Safe, NoneOrHolding, Passed, Clears;
    var r := Run(l, a, ids);
    if k == 0 && ids' != [] {
      ClearedNeverMixed(l, a, ids, b, ids');
    } else {
      RunIsSafe(l, a, ids);
      RestsCalm(r);
      RunHandsOn(l, a, ids);
      HoldsOfOne(l, a, ids);
      PassesBy(r, b, ids', k);
      AllOfFirst(l.given, r, Feed(r, b, ids').given, a, b);
    }
  }

  lemma FeedNothing(l: Lane, c: Cast, ids: seq<nat>)
    requires Calm(l) && c.Fits() && ids == []
    ensures NoneOrHolding(Feed(l, c, ids).given, l)
  {
  }

  lemma AllOfFirst(before: seq<Received>, r: Lane, given: seq<Received>, a: Cast, b: Cast)
    requires before <= r.given && AllOfOne(r.given[|before|..], a) && AllOfOne(Holding(r.data), a) && NoneOrHolding(given, r)
    ensures OneThenOther(given, before, |given|, a, b)
  {
    hide Holding, OfOne;
    assert given[|given|..] == [];
  }

  lemma Joined(before: seq<Received>, g: seq<Received>, h: seq<Received>, given: seq<Received>, a: Cast, b: Cast)
    requires before <= g && AllOfOne(g[|before|..], a) && AllOfOne(h, a) && g + h <= given && AllOfOne(given[|g + h|..], b)
    ensures OneThenOther(given, before, |g + h|, a, b)
  {
    hide AllOfOne;
    assert given[|before|..|g + h|] == (g + h)[|before|..] == g[|before|..] + h;
    BothOfOne(g[|before|..], h, a);
  }

  /** Up to n what was handed on is of the first bundle, and from there of the second. */
  ghost predicate OneThenOther(given: seq<Received>, before: seq<Received>, n: nat, a: Cast, b: Cast) {
    && |before| <= n <= |given| && before <= given
    && AllOfOne(given[|before|..n], a) && AllOfOne(given[n..], b)
  }

  lemma BothOfOne(x: seq<Received>, y: seq<Received>, c: Cast)
    requires AllOfOne(x, c) && AllOfOne(y, c)
    ensures AllOfOne(x + y, c)
  {
    hide OfOne;
  }

  lemma RestsCalm(l: Lane)
    requires Resting(l)
    ensures Calm(l)
  {
  }

  lemma InitRestsAny(l: Lane)
    requires Resting(l)
    ensures Resting(Init(l)) && Init(l).waiting
  {
    hide Holding;
  }

  lemma InBounds(c: Cast, ids: seq<nat>)
    requires GoodRun(c, ids)
    ensures c.Fits() && forall i :: 0 <= i < |ids| ==> ids[i] < 4 * c.Zones()
  {
    hide Cast.Zones;
  }

  /** From the empty lane on, all that is handed on is of the second bundle. */
  lemma AfterFirst(l: Lane, c: Cast, ids: seq<nat>, more: seq<nat>)
    requires Resting(l) && l.waiting && GoodRun(c, ids) && ids != []
    requires more == ids || (more == ids[1..] && ids[0] == 1)
    ensures Calm(l) && c.Fits() && (forall i :: 0 <= i < |more| ==> more[i] < 4 * c.Zones())
    ensures l.given <= Feed(l, c, more).given && AllOfOne(Feed(l, c, more).given[|l.given|..], c)
  {
    hide Run, Cast.Zones, Feed, AllOfOne, Resting, Calm, Recoverable, Got;
    RestsCalm(l);
    if more == ids {
      RunIsFeed(l, c, ids);
      RunHandsOn(l, c, ids);
    } else if more != [] && more[0] == 1 {
      SameGot(c, ids);
      RunIsFeed(l, c, more);
      RunHandsOn(l, c, more);
    } else {
      assert ids[1..] == more;
      RestsEmptyAll(l);
      NothingBegins(l, c, more);
      NoneOfOne(l.given, c);
    }
  }

  lemma NoneOfOne(g: seq<Received>, c: Cast)
    ensures AllOfOne(g[|g|..], c)
  {
  }

  lemma RestsEmptyAll(l: Lane)
    requires Resting(l) && l.waiting
    ensures Empty(l)
  {
  }

  /** The first packet again: the same packets have come. */
  lemma SameGot(c: Cast, ids: seq<nat>)
    requires GoodRun(c, ids) && |ids| > 1 && ids[0] == ids[1]
    ensures GoodRun(c, ids[1..])
  {
    hide Cast.Zones, Recoverable;
    assert Got(ids) == Got(ids[1..]) by {
      assert ids == [ids[0]] + ids[1..];
      assert ids[1..][0] == ids[0];
    }
  }

  lemma {:induction false} NothingBegins(l: Lane, c: Cast, ids: seq<nat>)
    requires Calm(l) && Empty(l) && c.Fits() && (forall i :: 0 <= i < |ids| ==> 1 < ids[i] < 4 * c.Zones())
    ensures Feed(l, c, ids) == l
    decreases |ids|
  {
    hide Saw, Cast.Zones, Cast.Nth, Calm, Feed, Empty;
    if ids == [] {
      FeedNone(l, c);
    } else {
      FeedFirst(l, c, ids);
      EmptyIgnores(l, c.Nth(ids[0]), c.p);
      NothingBegins(l, c, ids[1..]);
    }
  }

  lemma FeedNone(l: Lane, c: Cast)
    requires Calm(l) && c.Fits()
    ensures Feed(l, c, []) == l
  {
  }

  // ---------------------------------------------------------------- and when the first packet does not clear

  /** One packet of the zone being received, of whatever bundle, but for its end. */
  lemma Joins(l: Lane, c: Cast, i: nat)
    requires Calm(l) && !l.waiting && c.Fits() && i + 1 < 4 * c.Zones() && i > 1 && i / 4 == l.zone
    ensures Saw(l, c.Nth(i), c.p) == Update(Store(l, c.Nth(i), c.p))
  {
    hide Holding, Cast.Nth, Cast.Zones, Store, Update, Few;
    var x := c.Nth(i);
    StoreSized(l, x, c.p);
    UpdateZone(Store(l, x, c.p));
    StoreZone(l, x, c.p);
    assert Begun(l, x) == l && l.(waiting := false) == l;
    assert OutnetLane.Placed(l, x, c.p) == Update(Store(l, x, c.p));
  }

  lemma StoreZone(l: Lane, x: Packet, p: nat)
    requires Sized(l) && ValidPacket(x, p) && p <= 63
    ensures Store(l, x, p).zone == l.zone
  {
    hide Put, WithPiece;
  }

  lemma UpdateZone(l: Lane)
    requires Sized(l)
    ensures l.zone <= Update(l).zone <= l.zone + 1
  {
    hide Zeros, Recover;
  }

  /** The first k packets of a zone. */
  ghost function FirstOf(z: nat, k: nat): (ids: set<nat>)
    ensures forall j: nat :: j in ids <==> 4 * z <= j < 4 * z + k
  {
    if k == 0 then {} else FirstOf(z, k - 1) + {4 * z + k - 1}
  }

  /** A packet stored in the zone: so many pieces, all of this bundle. */
  ghost predicate Started(l: Lane, l0: Lane, c: Cast, k: nat) {
    && Resting(l) && !l.waiting && l.zone == l0.zone && l.data == l0.data && l.p == c.p && c.Fits() && l.zone < c.Zones()
    && Pieces(l, c.At(l.zone), c.p, FirstOf(l.zone, k))
  }

  lemma JoinsOne(l: Lane, l0: Lane, c: Cast, k: nat)
    requires Started(l, l0, c, k) && k < 3 && l.zone > 0
    ensures Saw(l, c.Nth(4 * l.zone + k), c.p) == Update(Store(l, c.Nth(4 * l.zone + k), c.p))
    ensures var m := Store(l, c.Nth(4 * l.zone + k), c.p);
            && Roomy(m) && m.zone == l.zone && m.data == l.data && m.p == c.p
            && Pieces(m, c.At(m.zone), c.p, FirstOf(l.zone, k + 1))
            && Few(l.bitmap) && m.bitmap == WithPiece(l.bitmap, k) && !m.waiting && m.last == l.last
  {
    hide Pieces, Cast.Nth, Cast.Zones, Cast.At, Few, WithPiece, Put;
    var i := 4 * l.zone + k;
    RestingIs(l);
    Joins(l, c, i);
    StoreSized(l, c.Nth(i), c.p);
    var got := FirstOf(l.zone, k);
    Stored(l, c, got, i);
    assert got + {i} == FirstOf(l.zone, k + 1);
  }

  lemma StartsEmpty(l: Lane, c: Cast)
    requires Resting(l) && !l.waiting && l.bitmap == 0 && l.p == c.p && c.Fits() && l.zone < c.Zones()
    ensures Started(l, l, c, 0)
  {
    hide Cast.Zones, Cast.At, Resting;
    var got := FirstOf(l.zone, 0);
    NoPieces(l, c.At(l.zone), c.p, got);
  }

  lemma StaysStarted(l: Lane, l0: Lane, c: Cast, k: nat)
    requires Started(l, l0, c, k) && k < 2 && l.zone > 0
    ensures Started(Saw(l, c.Nth(4 * l.zone + k), c.p), l0, c, k + 1)
  {
    hide Pieces, Cast.Nth, Cast.Zones, Cast.At, Few, WithPiece, Put, Saw, Update, Store;
    JoinsOne(l, l0, c, k);
    var m := Store(l, c.Nth(4 * l.zone + k), c.p);
    OneMorePiece(l.bitmap, k);
    StillFew(m, c.At(m.zone), c.p, 4 * l.zone, k + 1);
    UpdateRests(m);
  }

  lemma StillFew(l: Lane, d: seq<seq<byte>>, p: nat, from: nat, k: nat)
    requires Pieces(l, d, p, FirstOf(l.zone, k)) && from == 4 * l.zone && k <= 2
    requires Few(l.bitmap) || l.bitmap in {0x7, 0xb, 0xd, 0xe}
    ensures Few(l.bitmap) && (Sized(l) ==> Update(l) == l)
  {
    hide PieceIs, HasPiece;
    WhichPieces(l.bitmap);
    var got := FirstOf(l.zone, k);
    assert HasPiece(l.bitmap, 2) <==> from + 2 in got;
    assert HasPiece(l.bitmap, 3) <==> from + 3 in got;
  }

  /** The bytes of one zone of a buffer. */
  function ZonePart(s: seq<byte>, p: nat, z: nat): (r: seq<byte>) {
    var at: nat, n: nat := z * (12 * p), 12 * p;
    if at + n <= |s| then s[at..at + n] else []
  }

  /** What r has committed is what l had, and behind it this bundle's zone. */
  ghost predicate PutBehind(r: Lane, l: Lane, c: Cast) {
    && c.Fits() && r.zone == l.zone + 1 && !r.waiting && l.zone * (12 * c.p) <= |l.data| && l.zone * (12 * c.p) <= |r.data|
    && r.data[..l.zone * (12 * c.p)] == l.data[..l.zone * (12 * c.p)]
    && |ZonePart(r.data, c.p, l.zone)| == 12 * c.p && ZonePart(r.data, c.p, l.zone) == ZonePart(c.Bytes(), c.p, l.zone)
  }

  /** The lane has committed zones of one bundle, and the first three packets that come of the next are of the
      zone being received: they are put behind them. */
  lemma OtherwiseMixed(l: Lane, a: Cast, got: set<nat>, b: Cast)
    requires Follows(l, a, got) && l.bitmap == 0 && b.Fits() && 0 < l.zone < b.Zones() && a.p == b.p
    ensures Calm(l) && 4 * l.zone + 2 < 4 * b.Zones()
    ensures !Clears(l, 4 * l.zone)
    ensures PutBehind(Feed(l, b, [4 * l.zone, 4 * l.zone + 1, 4 * l.zone + 2]), l, b) && Prefix(l, a)
  {
    hide Pieces, Cast.Nth, Cast.Zones, Cast.At, Saw, Update, Store, Started, Feed, Calm, Cast.Bytes, Resting, PutBehind, Prefix;
    FollowsParts(l, a, got);
    StartsEmpty(l, b);
    FeedNone(l, b);
    OneFed(l, b, [], 0);
    assert [] + [4 * l.zone + 0] == [4 * l.zone];
    OneFed(l, b, [4 * l.zone], 1);
    assert [4 * l.zone] + [4 * l.zone + 1] == [4 * l.zone, 4 * l.zone + 1];
    ThirdFed(l, b);
  }

  /** One packet more is fed to the lane. */
  lemma OneFed(l: Lane, c: Cast, ids: seq<nat>, k: nat)
    requires Calm(l) && c.Fits() && 0 < l.zone < c.Zones() && k < 2
    requires (forall i :: 0 <= i < |ids| ==> ids[i] < 4 * c.Zones()) && Started(Feed(l, c, ids), l, c, k)
    ensures 4 * l.zone + k < 4 * c.Zones() && Started(Feed(l, c, ids + [4 * l.zone + k]), l, c, k + 1)
  {
    hide Pieces, Cast.Nth, Cast.Zones, Cast.At, Saw, Started, Feed, Calm;
    hide Resting, Sized;
    var m := Feed(l, c, ids);
    StartedIs(m, l, c, k);
    StaysStarted(m, l, c, k);
    FeedLast(l, c, ids, 4 * l.zone + k);
  }

  lemma ThirdFed(l: Lane, c: Cast)
    requires Calm(l) && c.Fits() && 0 < l.zone < c.Zones()
    requires 4 * l.zone + 2 < 4 * c.Zones() && Started(Feed(l, c, [4 * l.zone, 4 * l.zone + 1]), l, c, 2)
    ensures PutBehind(Feed(l, c, [4 * l.zone, 4 * l.zone + 1, 4 * l.zone + 2]), l, c)
  {
    hide Pieces, Cast.Nth, Cast.Zones, Cast.At, Saw, Started, Feed, Calm, Cast.Bytes, PutBehind;
    var n := l.zone;
    var m := Feed(l, c, [4 * n, 4 * n + 1]);
    StartedIs(m, l, c, 2);
    ThirdCommits(m, l, c);
    FeedLast(l, c, [4 * n, 4 * n + 1], 4 * n + 2);
    assert [4 * n, 4 * n + 1] + [4 * n + 2] == [4 * n, 4 * n + 1, 4 * n + 2];
    hide Resting, Sized;
    SameBehind(Saw(m, c.Nth(4 * n + 2), c.p), m, l, c);
  }

  lemma SameBehind(r: Lane, m: Lane, l: Lane, c: Cast)
    requires PutBehind(r, m, c) && m.zone == l.zone && m.data == l.data
    ensures PutBehind(r, l, c)
  {
    hide Cast.Bytes;
  }

  lemma FollowsParts(l: Lane, a: Cast, got: set<nat>)
    requires Follows(l, a, got) && l.zone > 0
    ensures Resting(l) && Calm(l) && !l.waiting && l.p == a.p && Prefix(l, a)
  {
    hide Pieces, Cast.At, Cast.Zones, Cast.Bytes, AllCame, ZeroFrom, Resting, Prefix;
    RestsCalm(l);
  }

  lemma StartedIs(l: Lane, l0: Lane, c: Cast, k: nat)
    requires Started(l, l0, c, k)
    ensures Resting(l) && Calm(l) && Sized(l) && l.zone == l0.zone && l.data == l0.data
  {
    hide Pieces, Cast.At, Cast.Zones;
  }

  lemma ThirdCommits(l: Lane, l0: Lane, c: Cast)
    requires Started(l, l0, c, 2) && l.zone > 0
    ensures Sized(l) && 4 * l.zone + 2 < 4 * c.Zones() && PutBehind(Saw(l, c.Nth(4 * l.zone + 2), c.p), l, c)
  {
    hide Pieces, Cast.Nth, Cast.Zones, Cast.At, Few, WithPiece, Put, Saw, Update, Store, Cast.Bytes, Commit, Zeros, Roomy, PutBehind, Resting;
    StartedIs(l, l0, c, 2);
    assert l.zone < c.Zones() && c.Fits();
    JoinsOne(l, l0, c, 2);
    OneMorePiece(l.bitmap, 2);
    RoomySized(Store(l, c.Nth(4 * l.zone + 2), c.p));
    ThreeCommit(Store(l, c.Nth(4 * l.zone + 2), c.p), c);
    SameBehind(Update(Store(l, c.Nth(4 * l.zone + 2), c.p)), Store(l, c.Nth(4 * l.zone + 2), c.p), l, c);
  }

  lemma ThreeCommit(m: Lane, c: Cast)
    requires Roomy(m) && !m.waiting && m.p == c.p && c.Fits() && m.zone < c.Zones()
    requires Pieces(m, c.At(m.zone), c.p, FirstOf(m.zone, 3)) && (Few(m.bitmap) || m.bitmap in {0x7, 0xb, 0xd, 0xe})
    ensures PutBehind(Update(m), m, c)
  {
    hide Pieces, Cast.Zones, Cast.At, Few, Update, Cast.Bytes, Recover, PieceIs, Commit, Roomy;
    RoomySized(m);
    AllThree(m, c.At(m.zone), c.p);
    var r := m.(pz := Recover(m.pz, m.pb, m.p, 3));
    RecoveredBytes(m, c);
    SameRoom(m, r.pz);
    CommitsZone(r);
  }

  lemma RoomySized(l: Lane)
    requires Roomy(l)
    ensures Sized(l) && 12 * l.p <= |l.pz| && 4 * l.p <= |l.pb|
  {
  }

  lemma RecoveredBytes(m: Lane, c: Cast)
    requires Roomy(m) && m.p == c.p && c.Fits() && m.zone < c.Zones()
    requires forall k: nat :: k < 3 ==> PieceIs(m.pz, m.pb, c.At(m.zone), c.p, k)
    ensures var pz := Recover(m.pz, m.pb, m.p, 3);
            |pz| == |m.pz| && 12 * c.p <= |pz| && pz[..12 * c.p] == ZonePart(c.Bytes(), c.p, m.zone)
  {
    hide Cast.Zones, Cast.At, Cast.Bytes, Recover, SliceIs, PieceIs, ZoneAt, Roomy;
    RoomySized(m);
    assert Zone(c.At(m.zone), m.p);
    RecoveredZone(m, c.At(m.zone));
    SlicesAreBytes(Recover(m.pz, m.pb, m.p, 3), c, m.zone);
  }

  lemma SlicesAreBytes(pz: seq<byte>, c: Cast, z: nat)
    requires c.Fits() && z < c.Zones() && 12 * c.p <= |pz| && forall j: nat :: j < 4 ==> SliceIs(pz, c.p, j, c.At(z)[j])
    ensures pz[..12 * c.p] == ZonePart(c.Bytes(), c.p, z)
  {
    hide Cast.Zones, Cast.At, Cast.Bytes, Cast.Fits, SliceIs, ZoneAt;
    ZoneFits(c, z);
    var s, p := c.Bytes(), c.p;
    assert c.At(z) == ZoneAt(s, p, z);
    WholeZone(pz, s, p, z);
  }

  lemma AllThree(l: Lane, d: seq<seq<byte>>, p: nat)
    requires Pieces(l, d, p, FirstOf(l.zone, 3)) && (Few(l.bitmap) || l.bitmap in {0x7, 0xb, 0xd, 0xe})
    ensures l.bitmap == 0x7 && forall k: nat :: k < 3 ==> PieceIs(l.pz, l.pb, d, p, k)
    ensures Sized(l) ==> Update(l) == Commit(l.(pz := Recover(l.pz, l.pb, l.p, 3)))
  {
    hide PieceIs, HasPiece, Recover, Commit;
    WhichPieces(l.bitmap);
    var got := FirstOf(l.zone, 3);
    assert HasPiece(l.bitmap, 0) <==> 4 * l.zone + 0 in got;
    assert HasPiece(l.bitmap, 1) <==> 4 * l.zone + 1 in got;
    assert HasPiece(l.bitmap, 2) <==> 4 * l.zone + 2 in got;
  }

  lemma CommitsZone(l: Lane)
    requires Roomy(l)
    ensures var r, at := Commit(l), l.zone * (12 * l.p);
            && r.zone == l.zone + 1 && r.waiting == l.waiting && at <= |l.data| && at <= |r.data| && r.data[..at] == l.data[..at]
            && ZonePart(r.data, l.p, l.zone) == l.pz[..12 * l.p]
  {
    hide Zeros, Grown;
    OneDoublingSuffices(l);
    var at: nat, n: nat := l.zone * (12 * l.p), 12 * l.p;
    assert Commit(l).data[at..at + n] == l.pz[..n];
  }
}
