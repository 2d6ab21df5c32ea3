/** Runs of one lane over the packets of one bundle: in order, each packet lost, or seen any number
    of times before the next. */
module OutnetRun {
  import opened Bits
  import opened Recovery
  import opened OutnetPackets
  import opened OutnetLane
  import opened OutnetZone

  // ---------------------------------------------------------------- the states of a lane in a run

  /** The lane follows the bundle: got are the packets seen. */
  ghost predicate Follows(l: Lane, c: Cast, got: set<nat>) {
    && Resting(l) && !l.waiting && Prefix(l, c) && (l.zone == 0 || l.p == c.p)
    && (l.zone < c.Zones() ==> Pieces(l, c.At(l.zone), c.p, got))
    && (l.zone == c.Zones() ==> l.bitmap == 0)
    && AllCame(got, l.zone) && 4 * c.Zones() - 1 !in got
    && (forall i :: i in got ==> i / 4 <= l.zone)
  }

  /** One of the first three packets of some zone was passed over. */
  ghost predicate Missed(got: set<nat>) {
    exists z: nat, k: nat, i: nat :: Passed(got, z, k, i)
  }

  ghost predicate Passed(got: set<nat>, z: nat, k: nat, i: nat) {
    k < 3 && 4 * z + k !in got && i in got && 4 * z + k < i
  }

  /** What was handed on comes from a buffer that begins with at least one of the sender's zones. */
  ghost predicate Begins(r: Received, c: Cast) {
    exists l: Lane :: Prefix(l, c) && l.zone > 0 && Holding(l.data) == [r]
  }

  /** Nothing handed on since g but from the beginning of this bundle. */
  ghost predicate OnlyBegins(given: seq<Received>, g: seq<Received>, c: Cast) {
    g <= given && forall k :: |g| <= k < |given| ==> Begins(given[k], c)
  }

  /** Done with the bundle, until the next start: either a packet that could not be recovered was
      missed, or the whole bundle has been handed on. */
  ghost predicate Over(l: Lane, c: Cast, got: set<nat>, g: seq<Received>) {
    && c.Fits() && Resting(l) && l.waiting && (exists i :: i in got && i > 1)
    && (if Missed(got) then OnlyBegins(l.given, g, c)
        else AllCame(got, c.Zones()) && 4 * c.Zones() - 1 in got && l.given == g + [c.Sent(), c.Sent()])
  }

  ghost predicate InRun(l: Lane, c: Cast, got: set<nat>, g: seq<Received>) {
    && c.Fits()
    && (if got == {} then Resting(l) && l.waiting && l.given == g
        else (Follows(l, c, got) && l.given == g) || Over(l, c, got, g))
  }

  // ---------------------------------------------------------------- the buffer when it is handed on

  /** Trying a lane that follows, twice over when the end was seen. */
  lemma Tried(l: Lane, c: Cast, got: set<nat>)
    requires Follows(l, c, got)
    ensures Holding(l.data) == [] || (|Holding(l.data)| == 1 && Begins(Holding(l.data)[0], c))
    ensures l.zone == c.Zones() ==> Holding(l.data) == [c.Sent()]
  {
    hide Holding, Cast.Bytes, Cast.Zones, Cast.At, Pieces;
    HeldOne(l.data);
    if l.zone == 0 {
      HeldNone();
    } else if Holding(l.data) != [] {
      assert Holding(l.data) == [Holding(l.data)[0]];
    }
    if l.zone == c.Zones() {
      HoldsSent(l.data, c);
    }
  }

  lemma HeldOne(data: seq<byte>)
    ensures |Holding(data)| <= 1
  {
  }

  lemma HeldNone()
    ensures Holding([]) == []
  {
  }

  lemma OneBegins(l: Lane, c: Cast, g: seq<Received>, given: seq<Received>)
    requires Prefix(l, c) && (l.zone == 0 ==> l.data == [])
    requires given == g || given == g + Holding(l.data) || given == g + Holding(l.data) + Holding(l.data)
    ensures OnlyBegins(given, g, c)
  {
    hide Holding, Prefix;
    HeldOne(l.data);
    HeldNone();
    if Holding(l.data) != [] {
      assert Holding(l.data) == [Holding(l.data)[0]];
      assert Begins(Holding(l.data)[0], c);
    }
  }

  /** Clearing a cleared lane changes nothing. */
  lemma InitTwice(l: Lane)
    ensures Init(Init(l)) == Init(l) && TryInsert(Init(l)) == Init(l)
    ensures Init(l).given == l.given + Holding(l.data)
  {
    hide Holding;
    HeldNone();
  }

  lemma InitRests(l: Lane)
    requires Roomy(l)
    ensures Resting(Init(l)) && Init(l).waiting
    ensures Resting(Init(TryInsert(l))) && Init(TryInsert(l)).waiting
  {
  }

  lemma Uncounted(l: Lane, d: seq<seq<byte>>, p: nat, got: set<nat>)
    requires Pieces(l, d, p, got) && Few(l.bitmap)
    ensures !ThreeCame(got, l.zone)
  {
    hide PieceIs, HasPiece;
    WhichPieces(l.bitmap);
    assert HasPiece(l.bitmap, 0) <==> 4 * l.zone + 0 in got;
    assert HasPiece(l.bitmap, 1) <==> 4 * l.zone + 1 in got;
    assert HasPiece(l.bitmap, 2) <==> 4 * l.zone + 2 in got;
  }

  /** A zone left behind before its first three packets came. */
  lemma LeftBehind(got: set<nat>, z: nat, i: nat)
    requires i in got && !ThreeCame(got, z) && 4 * z + 2 < i
    ensures Missed(got)
  {
    var k :| 0 <= k < 3 && 4 * z + k !in got;
    assert Passed(got, z, k, i);
  }

  lemma NoneMissed(got: set<nat>, zones: nat)
    requires AllCame(got, zones) && forall i :: i in got ==> i < 4 * zones
    ensures !Missed(got)
  {
    forall z: nat, k: nat, i: nat
      ensures !Passed(got, z, k, i)
    {
      if k < 3 && i in got && 4 * z + k < i {
        CameAt(got, zones, z);
      }
    }
  }

  lemma StillCame(got: set<nat>, i: nat, zones: nat)
    requires AllCame(got, zones)
    ensures AllCame(got + {i}, zones)
  {
    forall z: nat | z < zones
      ensures ThreeCame(got + {i}, z)
    {
      assert ThreeCame(got, z);
    }
  }

  // ---------------------------------------------------------------- one packet while following

  ghost predicate Next(c: Cast, got: set<nat>, i: nat) {
    c.Fits() && i < 4 * c.Zones() && forall j :: j in got ==> j <= i
  }

  /** A packet of the zone just committed changes nothing, unless it is the last of all. */
  lemma SawBehind(l: Lane, c: Cast, got: set<nat>, i: nat)
    requires Next(c, got, i) && Follows(l, c, got) && i / 4 < l.zone
    ensures InRun(Moved(l, c.Nth(i), c.p), c, got + {i}, l.given)
  {
    hide Roomy, Holding, Recover, Pieces, Cast.Nth, Cast.Zones, Cast.Bytes, Cast.At, Commit, AllCame, Missed, OnlyBegins, Prefix, InRun;
    assert ThreeCame(got, l.zone - 1) by { CameAt(got, l.zone, l.zone - 1); }
    StillCame(got, i, l.zone);
    var m := Moved(l, c.Nth(i), c.p);
    if i + 1 == 4 * c.Zones() {
      Tried(l, c, got);
      InitTwice(l);
      NoneMissed(got + {i}, c.Zones());
      InitRests(l);
      assert m == Init(TryInsert(l));
      assert i in got + {i} && i > 1;
      IsOver(m, c, got + {i}, l.given);
    } else {
      if l.zone < c.Zones() {
        SamePieces(l, c.At(l.zone), c.p, got, i);
      }
      IsFollowing(l, c, got + {i});
    }
  }

  lemma CameAt(got: set<nat>, zones: nat, z: nat)
    requires AllCame(got, zones) && z < zones
    ensures ThreeCame(got, z)
  {
  }

  lemma IsOver(m: Lane, c: Cast, got: set<nat>, g: seq<Received>)
    requires Over(m, c, got, g)
    ensures InRun(m, c, got, g)
  {
  }

  lemma IsFollowing(m: Lane, c: Cast, got: set<nat>)
    requires c.Fits() && Follows(m, c, got) && got != {}
    ensures InRun(m, c, got, m.given)
  {
  }

  lemma SamePieces(l: Lane, d: seq<seq<byte>>, p: nat, got: set<nat>, i: nat)
    requires Pieces(l, d, p, got) && i / 4 != l.zone
    ensures Pieces(l, d, p, got + {i})
  {
    hide PieceIs, HasPiece;
  }

  /** A zone ahead, while one lies incomplete, ends it. */
  lemma SawAhead(l: Lane, c: Cast, got: set<nat>, i: nat)
    requires Next(c, got, i) && Follows(l, c, got) && i / 4 > l.zone
    ensures InRun(Moved(l, c.Nth(i), c.p), c, got + {i}, l.given)
  {
    hide Roomy, Holding, Recover, Pieces, Cast.Nth, Cast.Zones, Cast.Bytes, Cast.At, Commit, AllCame, Missed, OnlyBegins, Prefix, InRun,
      Few, ThreeCame;
    var m := Moved(l, c.Nth(i), c.p);
    assert m == Init(l) by { InitTwice(l); }
    Uncounted(l, c.At(l.zone), c.p, got);
    StillUncounted(got, i, l.zone);
    LeftBehind(got + {i}, l.zone, i);
    OneBegins(l, c, l.given, m.given) by { InitTwice(l); RestsEmpty(l); }
    InitRests(l);
    IsOver(m, c, got + {i}, l.given);
  }

  lemma RestsEmpty(l: Lane)
    requires Resting(l)
    ensures l.zone == 0 ==> l.data == []
  {
  }

  lemma StillUncounted(got: set<nat>, i: nat, z: nat)
    requires !ThreeCame(got, z) && i / 4 > z
    ensures !ThreeCame(got + {i}, z)
  {
  }

  /** A packet of the zone being received. */
  lemma SawWithin(l: Lane, c: Cast, got: set<nat>, i: nat)
    requires Next(c, got, i) && Follows(l, c, got) && i / 4 == l.zone && LosesLast(got + {i}, l.zone)
    ensures InRun(Moved(l, c.Nth(i), c.p), c, got + {i}, l.given)
  {
    hide Roomy, Holding, Recover, Pieces, Cast.Nth, Cast.Zones, Cast.Bytes, Cast.At, Commit, AllCame, Missed, OnlyBegins, Prefix, InRun,
      Few, ThreeCame, LosesLast, Store, Update, Over;
    WithinZone(l, c, got, i);
    var n := Update(Store(l, c.Nth(i), c.p));
    if i + 1 == 4 * c.Zones() {
      SawLast(n, c, got + {i}, l.given, i);
    } else {
      IsFollowing(n, c, got + {i});
    }
  }

  /** Storing and updating leaves a lane that still follows, but for the end of the run. */
  ghost predicate FollowsToEnd(l: Lane, c: Cast, got: set<nat>) {
    && Resting(l) && !l.waiting && Prefix(l, c) && (l.zone == 0 || l.p == c.p)
    && (l.zone < c.Zones() ==> Pieces(l, c.At(l.zone), c.p, got))
    && (l.zone == c.Zones() ==> l.bitmap == 0)
    && AllCame(got, l.zone) && (forall i :: i in got ==> i / 4 <= l.zone)
  }

  lemma WithinZone(l: Lane, c: Cast, got: set<nat>, i: nat)
    requires Next(c, got, i) && Follows(l, c, got) && i / 4 == l.zone && LosesLast(got + {i}, l.zone)
    ensures Roomy(Store(l, c.Nth(i), c.p)) && Sized(Store(l, c.Nth(i), c.p))
    ensures var n := Update(Store(l, c.Nth(i), c.p)); FollowsToEnd(n, c, got + {i}) && n.given == l.given
    ensures var n := Update(Store(l, c.Nth(i), c.p)); i % 4 == 3 ==> n.zone == l.zone && !ThreeCame(got + {i}, l.zone)
  {
    hide Holding, Recover, Pieces, Cast.Nth, Cast.Zones, Cast.Bytes, Cast.At, Commit, AllCame, Prefix, WithPiece, Put,
      Few, ThreeCame, LosesLast, Roomy, Update;
    RestingIs(l);
    var x, m := c.Nth(i), Store(l, c.Nth(i), c.p);
    StoreSized(l, x, c.p);
    OneMorePiece(l.bitmap, i % 4);
    Stored(l, c, got, i);
    PrefixOf(l, m, c);
    Updated(m, c, got + {i});
    UpdateRests(m);
    StillCame(got, i, l.zone);
    if ThreeCame(got + {i}, l.zone) {
      var r := m.(pz := Recover(m.pz, m.pb, m.p, 3));
      SameRoom(m, r.pz);
      CommitNext(r);
      MoreCame(got + {i}, l.zone);
      if l.zone + 1 < c.Zones() {
        NoPieces(Update(m), c.At(l.zone + 1), c.p, got + {i});
      }
      if i % 4 == 3 {
        CameBefore(got, i);
        Uncounted(l, c.At(l.zone), c.p, got);
        assert false;
      }
    }
  }

  lemma CameBefore(got: set<nat>, i: nat)
    requires ThreeCame(got + {i}, i / 4) && i % 4 == 3
    ensures ThreeCame(got, i / 4)
  {
  }

  lemma SameRoom(l: Lane, pz: seq<byte>)
    requires Roomy(l) && |pz| == |l.pz|
    ensures Roomy(l.(pz := pz))
  {
  }

  lemma CommitNext(l: Lane)
    requires Roomy(l)
    ensures Commit(l).zone == l.zone + 1 && Commit(l).bitmap == 0 && Commit(l).p == l.p && Commit(l).given == l.given
  {
    hide Zeros;
  }

  lemma MoreCame(got: set<nat>, z: nat)
    requires AllCame(got, z) && ThreeCame(got, z)
    ensures AllCame(got, z + 1)
  {
    hide ThreeCame;
  }

  lemma NoPieces(l: Lane, d: seq<seq<byte>>, p: nat, got: set<nat>)
    requires l.bitmap == 0 && forall j :: j in got ==> j / 4 < l.zone
    ensures Pieces(l, d, p, got)
  {
    hide PieceIs;
    forall k: nat | k < 4
      ensures !HasPiece(0, k) && 4 * l.zone + k !in got
    {
    }
  }

  lemma SawLast(n: Lane, c: Cast, got: set<nat>, g: seq<Received>, i: nat)
    requires c.Fits() && FollowsToEnd(n, c, got) && i in got && i % 4 == 3 && n.zone == i / 4 && !ThreeCame(got, n.zone) && n.given == g
    ensures InRun(Init(TryInsert(n)), c, got, g)
  {
    hide Roomy, Holding, Pieces, Cast.Nth, Cast.Zones, Cast.Bytes, Cast.At, AllCame, Missed, OnlyBegins, Prefix, InRun, Few, ThreeCame;
    var m := Init(TryInsert(n));
    LeftBehind(got, n.zone, i);
    RestsEmpty(n);
    InitRests(n);
    OneBegins(n, c, g, m.given);
    IsOver(m, c, got, g);
  }

  // ---------------------------------------------------------------- one packet, in any state of a run

  /** A bundle begins with packet 0, or with packet 1 in a waiting lane. */
  lemma Starts(l: Lane, c: Cast)
    requires c.Fits() && Resting(l)
    ensures Follows(Init(l).(waiting := false), c, {})
  {
    hide Holding, Cast.Nth, Cast.Bytes, Cast.At;
    var f := Init(l).(waiting := false);
    ZoneCountBounds(c.Len(), c.p);
    NoPieces(f, c.At(0), c.p, {});
  }

  lemma MovedInRun(l: Lane, c: Cast, got: set<nat>, i: nat)
    requires Next(c, got, i) && Follows(l, c, got) && Recoverable(got + {i})
    ensures Roomy(l) && InRun(Moved(l, c.Nth(i), c.p), c, got + {i}, l.given)
  {
    hide Moved, InRun, Pieces, Cast.Nth, Cast.Zones, Cast.Bytes, Cast.At, AllCame, Prefix, LosesLast;
    assert LosesLast(got + {i}, l.zone);
    if i / 4 < l.zone {
      SawBehind(l, c, got, i);
    } else if i / 4 == l.zone {
      SawWithin(l, c, got, i);
    } else {
      SawAhead(l, c, got, i);
    }
  }

  /** A first packet beyond packet 1 is ignored, and so is the rest. */
  lemma TooLate(l: Lane, c: Cast, i: nat)
    requires c.Fits() && Resting(l) && l.waiting && i > 1
    ensures Over(l, c, {i}, l.given)
  {
    hide Cast.Zones, Resting;
    assert Passed({i}, 0, 0, i);
    assert i in {i} && i > 1;
  }

  lemma StaysOver(l: Lane, c: Cast, got: set<nat>, i: nat, g: seq<Received>)
    requires Next(c, got, i) && Over(l, c, got, g)
    ensures i > 1 && Over(l, c, got + {i}, g)
  {
    hide Cast.Zones, Resting, OnlyBegins, AllCame;
    if Missed(got) {
      var z: nat, k: nat, j: nat :| Passed(got, z, k, j);
      StillPassed(got, z, k, j, i);
    } else {
      StillCame(got, i, c.Zones());
      NoneMissed(got + {i}, c.Zones());
    }
  }

  lemma StillPassed(got: set<nat>, z: nat, k: nat, j: nat, i: nat)
    requires Passed(got, z, k, j) && j <= i
    ensures Passed(got + {i}, z, k, j)
  {
  }

  /** A start packet seen again starts again from nothing. */
  lemma StartAgain(l: Lane, c: Cast, got: set<nat>)
    requires Next(c, got, 0) && Follows(l, c, got)
    ensures got + {0} == {0} && l.zone == 0 && l.data == []
  {
    hide Pieces, Cast.Zones, Cast.Bytes, Cast.At;
    if l.zone > 0 {
      CameAt(got, l.zone, 0);
    }
  }

  /** Every packet keeps the run's invariant. */
  lemma SawInRun(l: Lane, c: Cast, got: set<nat>, i: nat, g: seq<Received>)
    requires InRun(l, c, got, g) && Next(c, got, i) && Recoverable(got + {i})
    ensures Roomy(l) && SameSize(l, c.Nth(i), c.p)
    ensures InRun(Saw(l, c.Nth(i), c.p), c, got + {i}, g)
  {
    hide Moved, Pieces, Cast.Nth, Cast.Zones, Cast.Bytes, Cast.At, AllCame, Prefix, LosesLast, Recoverable, Missed, OnlyBegins, Holding;
    var f := Init(l).(waiting := false);
    if got == {} {
      if i > 1 {
        TooLate(l, c, i);
        assert got + {i} == {i};
      } else {
        HeldNone();
        Starts(l, c);
        MovedInRun(f, c, got, i);
      }
    } else if l.waiting {
      StaysOver(l, c, got, i, g);
    } else if i == 0 {
      StartAgain(l, c, got);
      HeldNone();
      Starts(l, c);
      assert {} + {i} == got + {i};
      MovedInRun(f, c, {}, i);
    } else {
      MovedInRun(l, c, got, i);
    }
  }

  // ---------------------------------------------------------------- whole runs

  /** Packet numbers as they come: in order, each any number of times or not at all. */
  ghost predicate InOrder(ids: seq<nat>, n: nat) {
    (forall i :: 0 <= i < |ids| ==> ids[i] < n) && (forall i, j :: 0 <= i < j < |ids| ==> ids[i] <= ids[j])
  }

  ghost function Got(ids: seq<nat>): (got: set<nat>) {
    set i | i in ids
  }

  /** A run the recovery can cope with. */
  ghost predicate GoodRun(c: Cast, ids: seq<nat>) {
    c.Fits() && InOrder(ids, 4 * c.Zones()) && Recoverable(Got(ids))
  }

  lemma RunPrefix(c: Cast, ids: seq<nat>)
    requires GoodRun(c, ids) && ids != []
    ensures var n := |ids| - 1;
            && GoodRun(c, ids[..n]) && Got(ids[..n]) + {ids[n]} == Got(ids) && Next(c, Got(ids[..n]), ids[n])
            && Recoverable(Got(ids[..n]) + {ids[n]})
  {
    hide Cast.Zones;
    var n := |ids| - 1;
    var before := ids[..n];
    assert ids == before + [ids[n]];
    forall z: nat
      ensures LosesLast(Got(before), z)
    {
      assert LosesLast(Got(ids), z);
      if 4 * z + 3 in before {
        assert 4 * z + 3 in ids;
      }
    }
  }

  /** The lane after a run. */
  ghost function Run(l: Lane, c: Cast, ids: seq<nat>): (r: Lane)
    requires GoodRun(c, ids) && Resting(l) && l.waiting
    ensures InRun(r, c, Got(ids), l.given)
    decreases |ids|
  {
    hide Saw, Cast.Zones, Cast.Nth, Follows, Over, Resting;
    if ids == [] then l else
      var n := |ids| - 1;
      RunPrefix(c, ids);
      var before := Run(l, c, ids[..n]);
      SawInRun(before, c, Got(ids[..n]), ids[n], l.given);
      Saw(before, c.Nth(ids[n]), c.p)
  }

  /** While the lane follows, what is committed is the sender's and nothing has been handed on; one
      doubling of the buffer makes room for the next zone; and all of the sender's zones are
      committed exactly if the first three packets of every zone came. */
  ghost predicate Safe(r: Lane, c: Cast, got: set<nat>, g: seq<Received>) {
    c.Fits() && (!r.waiting ==>
                   && Prefix(r, c) && r.given == g
                   && OneDoublingIsEnough(r)
                   && (r.zone == c.Zones() <==> AllCame(got, c.Zones())))
  }

  ghost predicate OneDoublingIsEnough(r: Lane) {
    (r.zone + 1) * (12 * r.p) <= Grown(|r.data|, (r.zone + 1) * (12 * r.p))
  }

  lemma FollowsSafely(r: Lane, c: Cast, got: set<nat>)
    requires Follows(r, c, got)
    ensures Safe(r, c, got, r.given)
  {
    hide Pieces, Cast.Bytes, Cast.Zones, Cast.At;
    OneDoublingSuffices(r);
    if r.zone < c.Zones() {
      Uncounted(r, c.At(r.zone), c.p, got);
    }
  }

  /** Safety: so it is after every run, and at most two pieces are left lying. */
  lemma RunIsSafe(l: Lane, c: Cast, ids: seq<nat>)
    requires GoodRun(c, ids) && Resting(l) && l.waiting
    ensures Few(Run(l, c, ids).bitmap) && Resting(Run(l, c, ids)) && Safe(Run(l, c, ids), c, Got(ids), l.given)
  {
    hide Run, Cast.Zones, Safe, Follows;
    var r := Run(l, c, ids);
    if Follows(r, c, Got(ids)) {
      FollowsRests(r, c, Got(ids));
      FollowsSafely(r, c, Got(ids));
    } else {
      IdleSafely(r, c, Got(ids), l.given);
    }
  }

  lemma IdleSafely(r: Lane, c: Cast, got: set<nat>, g: seq<Received>)
    requires c.Fits() && r.waiting
    ensures Safe(r, c, got, g)
  {
  }

  lemma FollowsRests(r: Lane, c: Cast, got: set<nat>)
    requires Follows(r, c, got)
    ensures Resting(r) && !r.waiting
  {
  }

  /** The sender's bundle, whole, has been handed on, or will be by whichever packet starts the next. */
  ghost predicate Delivered(r: Lane, c: Cast, g: seq<Received>, ended: bool) {
    if ended then r.waiting && r.given == g + [c.Sent(), c.Sent()]
    else forall x: Packet :: x.start ==> Begun(r, x).given == g + [c.Sent()]
  }

  /** Delivery: if the first three packets of every zone came, exactly the sender's manifest and
      body are handed on: twice by the end packet, if it came, and otherwise by the next start. */
  lemma RunDelivers(l: Lane, c: Cast, ids: seq<nat>)
    requires GoodRun(c, ids) && Resting(l) && l.waiting && AllCame(Got(ids), c.Zones())
    ensures Delivered(Run(l, c, ids), c, l.given, 4 * c.Zones() - 1 in ids)
  {
    hide Run, Cast.Bytes, Holding, Cast.Zones, Prefix, AllCame, Missed;
    var r := Run(l, c, ids);
    RunIsSafe(l, c, ids);
    NoneMissed(Got(ids), c.Zones());
    FirstCame(c, Got(ids));
    if !r.waiting {
      Tried(r, c, Got(ids));
    }
  }

  lemma FirstCame(c: Cast, got: set<nat>)
    requires c.Fits() && AllCame(got, c.Zones())
    ensures 0 in got
  {
    ZoneCountBounds(c.Len(), c.p);
    assert ThreeCame(got, 0);
  }

  /** Otherwise, whatever is handed on comes from a buffer beginning with zones of this bundle. */
  lemma RunHandsOnBeginnings(l: Lane, c: Cast, ids: seq<nat>)
    requires GoodRun(c, ids) && Resting(l) && l.waiting && !AllCame(Got(ids), c.Zones())
    ensures OnlyBegins(Run(l, c, ids).given, l.given, c)
  {
    hide Run, Cast.Zones, Follows, AllCame, Begins;
  }

  /** What is tried and found lacking: a lane in the middle of a bundle passes the size test, which
      is on the allocated size, exactly if the buffer happens to have room for the body. */
  lemma TriedHalfway(l: Lane, c: Cast, got: set<nat>)
    requires Follows(l, c, got) && l.zone > 0 && 6 + |c.body| < 0x1_0000_0000
    ensures Holding(l.data) != [] <==> 6 + |c.body| <= |l.data|
  {
    hide Pieces, Cast.Zones, Cast.At, Holding;
    assert l.zone * (12 * c.p) >= 12 by { AtLeast(l.zone, 12 * c.p); }
    var s := Serialise(c.manifest, c.body);
    assert c.Bytes()[..|s|] == s;
    FirstBytes(l.data, c.Bytes(), l.zone * (12 * c.p));
    LengthsRead(l.data, c.manifest, c.body);
  }

  lemma AtLeast(z: nat, n: nat)
    requires z > 0 && n >= 12
    ensures z * n >= 12
  {
  }

  lemma FirstBytes(d: seq<byte>, s: seq<byte>, n: nat)
    requires 6 <= n <= |d| && n <= |s| && d[..n] == s[..n]
    ensures forall i :: 0 <= i < 6 ==> d[i] == s[i]
  {
    forall i | 0 <= i < 6
      ensures d[i] == s[i]
    {
      assert d[..n][i] == s[..n][i];
    }
  }

  lemma LengthsRead(data: seq<byte>, m: seq<byte>, b: seq<byte>)
    requires |m| < 65536 && 6 + |b| < 0x1_0000_0000 && 6 <= |data|
    requires forall i :: 0 <= i < 6 ==> data[i] == Serialise(m, b)[i]
    ensures Holding(data) != [] <==> 6 + |b| <= |data|
  {
    LengthBytes(|b|);
    assert PayloadLen(data) == |b|;
  }

  /** A start packet in any resting lane, whatever its data size was, does as in a waiting one. */
  lemma StartClears(l: Lane, x: Packet, p: nat)
    requires Resting(l) && ValidPacket(x, p) && p <= 63 && x.start
    ensures Saw(l, x, p) == Saw(Init(l), x, p) && Resting(Init(l)) && Init(l).waiting
  {
    hide Moved, Holding;
    InitTwice(l);
  }
}
