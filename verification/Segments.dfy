/** The segments of a stream that have arrived (bundle_piece.c, partials.c): a list in descending
    order, what a piece does to it, and the merging that follows. */
module Segments {
  import opened Bits

  datatype Seg = Seg(start: nat, data: seq<byte>) {
    function End(): (e: nat)
      ensures e >= start
    {
      start + |data|
    }
  }

  // ---------------------------------------------------------------- what the code does

  /** A segment grown by a piece, at its start, at its end, or both. */
  function Extended(s: Seg, start: nat, piece: seq<byte>): (r: Seg)
    requires start <= s.End() && s.start <= start + |piece|
  {
    var before := if start < s.start then piece[..s.start - start] else [];
    var after := if start + |piece| > s.End() then piece[s.End() - start..] else [];
    Seg(if start < s.start then start else s.start, before + s.data + after)
  }

  /** The walk down the list. */
  function Place(segs: seq<Seg>, start: nat, piece: seq<byte>): (r: seq<Seg>) {
    var end := start + |piece|;
    if segs == [] || segs[0].End() < start then [Seg(start, piece)] + segs
    else if segs[0].start <= start && segs[0].End() >= end then segs
    else if end < segs[0].start then [segs[0]] + Place(segs[1..], start, piece)
    else [Extended(segs[0], start, piece)] + segs[1..]
  }

  /** What merging makes of a segment and the next lower one: the lower one, extended. */
  function Joined(upper: Seg, lower: Seg): (r: Seg)
    requires upper.start <= lower.End() <= upper.End()
  {
    Seg(lower.start, lower.data + upper.data[|upper.data| - (upper.End() - lower.End())..])
  }

  /** Ends descend, so that merging never has a negative number of bytes to add. */
  ghost predicate EndsDescend(segs: seq<Seg>) {
    forall i, j :: 0 <= i < j < |segs| ==> segs[j].End() <= segs[i].End()
  }

  /** merge_segments */
  function Merged(segs: seq<Seg>): (r: seq<Seg>)
    requires EndsDescend(segs)
    decreases |segs|
  {
    if |segs| < 2 then segs
    else if segs[0].start > segs[1].End() then [segs[0]] + Merged(segs[1..])
    else Merged([Joined(segs[0], segs[1])] + segs[2..])
  }

  // ---------------------------------------------------------------- lists at rest

  /** Descending, disjoint and not touching. */
  ghost predicate Apart(segs: seq<Seg>) {
    forall i, j :: 0 <= i < j < |segs| ==> segs[j].End() < segs[i].start
  }

  /** Every byte held is the stream's. */
  ghost predicate Agrees(s: Seg, stream: seq<byte>) {
    s.End() <= |stream| && s.data == stream[s.start..s.End()]
  }

  ghost predicate AllAgree(segs: seq<Seg>, stream: seq<byte>) {
    forall i :: 0 <= i < |segs| ==> Agrees(segs[i], stream)
  }

  ghost predicate Holds(s: Seg, x: nat) {
    s.start <= x < s.End()
  }

  /** Offset x has arrived. */
  ghost predicate Covers(segs: seq<Seg>, x: nat) {
    exists i :: 0 <= i < |segs| && Holds(segs[i], x)
  }

  lemma ApartDescends(segs: seq<Seg>)
    requires Apart(segs)
    ensures EndsDescend(segs)
  {
  }

  /** Where the walk stops: past the segments above the piece. */
  function Stop(segs: seq<Seg>, start: nat, end: nat): (k: nat)
    requires start <= end
    ensures k <= |segs|
    ensures forall i :: 0 <= i < k ==> end < segs[i].start
    ensures k < |segs| ==> segs[k].End() < start || segs[k].start <= end
  {
    if segs == [] || segs[0].End() < start || segs[0].start <= end then 0 else 1 + Stop(segs[1..], start, end)
  }

  /** s put in at k, in place of so many. */
  function Spliced(segs: seq<Seg>, k: nat, drop: nat, s: Seg): (r: seq<Seg>)
    requires k + drop <= |segs|
    ensures |r| == |segs| - drop + 1
  {
    segs[..k] + [s] + segs[k + drop..]
  }

  lemma SplicedUnder(segs: seq<Seg>, k: nat, drop: nat, s: Seg)
    requires 0 < |segs| && k + drop < |segs|
    ensures [segs[0]] + Spliced(segs[1..], k, drop, s) == Spliced(segs, k + 1, drop, s)
  {
    assert segs[..k + 1] == [segs[0]] + segs[1..][..k];
    assert segs[k + 1 + drop..] == segs[1..][k + drop..];
  }

  /** What is done where the walk stops. */
  function PlaceAt(segs: seq<Seg>, k: nat, start: nat, piece: seq<byte>): (r: seq<Seg>)
    requires k <= |segs| && (k < |segs| ==> segs[k].End() < start || segs[k].start <= start + |piece|)
  {
    if k == |segs| || segs[k].End() < start then Spliced(segs, k, 0, Seg(start, piece))
    else if segs[k].start <= start && start + |piece| <= segs[k].End() then segs
    else Spliced(segs, k, 1, Extended(segs[k], start, piece))
  }

  lemma PlaceAtUnder(segs: seq<Seg>, k: nat, start: nat, piece: seq<byte>)
    requires k + 1 <= |segs| && (k + 1 < |segs| ==> segs[k + 1].End() < start || segs[k + 1].start <= start + |piece|)
    ensures [segs[0]] + PlaceAt(segs[1..], k, start, piece) == PlaceAt(segs, k + 1, start, piece)
  {
    hide Extended, Spliced;
    assert segs == [segs[0]] + segs[1..];
    if k == |segs| - 1 || segs[k + 1].End() < start {
      if k + 1 < |segs| { SplicedUnder(segs, k, 0, Seg(start, piece)); } else { SplicedLast(segs, Seg(start, piece)); }
    } else if !(segs[k + 1].start <= start && start + |piece| <= segs[k + 1].End()) {
      SplicedUnder(segs, k, 1, Extended(segs[k + 1], start, piece));
    }
  }

  lemma SplicedLast(segs: seq<Seg>, s: Seg)
    requires segs != []
    ensures [segs[0]] + Spliced(segs[1..], |segs| - 1, 0, s) == Spliced(segs, |segs|, 0, s)
  {
  }

  /** The walk's result, by where it stops. */
  lemma {:induction false} PlaceIs(segs: seq<Seg>, start: nat, piece: seq<byte>)
    ensures Place(segs, start, piece) == PlaceAt(segs, Stop(segs, start, start + |piece|), start, piece)
  {
    hide Extended, Spliced;
    var end := start + |piece|;
    if segs == [] || segs[0].End() < start || segs[0].start <= end {
      SplicedFirst(segs, Seg(start, piece));
      if segs != [] && !(segs[0].End() < start) && !(segs[0].start <= start && segs[0].End() >= end) {
        SplicedFirst(segs, Extended(segs[0], start, piece));
      }
    } else {
      hide PlaceAt;
      PlaceIs(segs[1..], start, piece);
      PlaceAtUnder(segs, Stop(segs[1..], start, end), start, piece);
    }
  }

  lemma SplicedFirst(segs: seq<Seg>, s: Seg)
    ensures Spliced(segs, 0, 0, s) == [s] + segs
    ensures segs != [] ==> Spliced(segs, 0, 1, s) == [s] + segs[1..]
  {
  }

  // ---------------------------------------------------------------- merging

  /** Apart, but that segment k may reach down over lower ones: what placing a piece leaves. */
  ghost predicate ApartBut(segs: seq<Seg>, k: nat) {
    forall i, j :: 0 <= i < j < |segs| ==> if i == k then segs[j].End() <= segs[k].End() else segs[j].End() < segs[i].start
  }

  lemma ApartButDescends(segs: seq<Seg>, k: nat)
    requires ApartBut(segs, k)
    ensures EndsDescend(segs)
  {
  }

  lemma {:induction false} MergedApart(segs: seq<Seg>)
    requires Apart(segs)
    ensures EndsDescend(segs) && Merged(segs) == segs
    decreases |segs|
  {
    ApartDescends(segs);
    if |segs| >= 2 {
      assert segs == [segs[0]] + segs[1..];
      MergedApart(segs[1..]);
    }
  }

  /** Merging changes at most one place: the segment that reaches down is joined to the next. */
  ghost function MergedAt(segs: seq<Seg>, k: nat): (r: seq<Seg>)
    requires ApartBut(segs, k)
  {
    if k + 1 < |segs| && segs[k].start <= segs[k + 1].End() then Spliced(segs, k, 2, Joined(segs[k], segs[k + 1])) else segs
  }

  lemma JoinedApart(segs: seq<Seg>, s: Seg)
    requires |segs| >= 2 && ApartBut(segs, 0) && s.start == segs[1].start && s.End() == segs[0].End()
    ensures Apart([s] + segs[2..])
  {
    var r := [s] + segs[2..];
    forall i, j | 0 <= i < j < |r|
      ensures r[j].End() < r[i].start
    {
      assert r[j] == segs[j + 1];
      if i > 0 { assert r[i] == segs[i + 1]; }
    }
  }

  lemma JoinedEnds(upper: Seg, lower: Seg)
    requires upper.start <= lower.End() <= upper.End()
    ensures Joined(upper, lower).start == lower.start && Joined(upper, lower).End() == upper.End()
  {
  }

  lemma {:induction false} MergedIs(segs: seq<Seg>, k: nat)
    requires ApartBut(segs, k)
    ensures EndsDescend(segs) && Merged(segs) == MergedAt(segs, k)
    decreases |segs|
  {
    hide Joined, Spliced;
    ApartButDescends(segs, k);
    if |segs| < 2 {
    } else if k == 0 && segs[0].start <= segs[1].End() {
      JoinedEnds(segs[0], segs[1]);
      JoinedApart(segs, Joined(segs[0], segs[1]));
      MergedApart([Joined(segs[0], segs[1])] + segs[2..]);
      SplicedTwo(segs, Joined(segs[0], segs[1]));
    } else {
      assert segs == [segs[0]] + segs[1..];
      if k == 0 {
        assert Apart(segs[1..]);
        MergedApart(segs[1..]);
      } else {
        MergedIs(segs[1..], k - 1);
        if k + 1 < |segs| && segs[k].start <= segs[k + 1].End() {
          SplicedUnderTwo(segs, k - 1, Joined(segs[k], segs[k + 1]));
        }
      }
    }
  }

  lemma SplicedTwo(segs: seq<Seg>, s: Seg)
    requires |segs| >= 2
    ensures Spliced(segs, 0, 2, s) == [s] + segs[2..]
  {
  }

  lemma SplicedUnderTwo(segs: seq<Seg>, k: nat, s: Seg)
    requires k + 2 < |segs|
    ensures [segs[0]] + Spliced(segs[1..], k, 2, s) == Spliced(segs, k + 1, 2, s)
  {
    SplicedUnder(segs, k, 2, s);
  }

  // ---------------------------------------------------------------- a piece, placed and merged

  lemma InsertedApart(segs: seq<Seg>, k: nat, s: Seg)
    requires Apart(segs) && k <= |segs|
    requires forall i :: 0 <= i < k ==> s.End() < segs[i].start
    requires forall i :: k <= i < |segs| ==> segs[i].End() < s.start
    ensures Apart(Spliced(segs, k, 0, s))
  {
    var r := Spliced(segs, k, 0, s);
    forall i, j | 0 <= i < j < |r|
      ensures r[j].End() < r[i].start
    {
      assert r[i] == if i < k then segs[i] else if i == k then s else segs[i - 1];
      assert r[j] == if j < k then segs[j] else if j == k then s else segs[j - 1];
    }
  }

  lemma ReplacedApartBut(segs: seq<Seg>, k: nat, s: Seg)
    requires Apart(segs) && k < |segs| && s.End() >= segs[k].End()
    requires forall i :: 0 <= i < k ==> s.End() < segs[i].start
    ensures ApartBut(Spliced(segs, k, 1, s), k)
  {
    var r := Spliced(segs, k, 1, s);
    forall i, j | 0 <= i < j < |r|
      ensures if i == k then r[j].End() <= r[k].End() else r[j].End() < r[i].start
    {
      assert r[i] == if i == k then s else segs[i];
      assert r[j] == if j == k then s else segs[j];
    }
  }

  lemma AllBelow(segs: seq<Seg>, k: nat, start: nat)
    requires Apart(segs) && (k < |segs| ==> segs[k].End() < start)
    ensures forall i :: k <= i < |segs| ==> segs[i].End() < start
  {
  }

  lemma StaysApartBut(segs: seq<Seg>, k: nat)
    requires Apart(segs)
    ensures ApartBut(segs, k)
  {
  }

  lemma PlacedApartBut(segs: seq<Seg>, start: nat, piece: seq<byte>)
    requires Apart(segs)
    ensures ApartBut(Place(segs, start, piece), Stop(segs, start, start + |piece|))
  {
    hide Extended, Place, Apart, ApartBut, Spliced;
    var end := start + |piece|;
    var k := Stop(segs, start, end);
    PlaceIs(segs, start, piece);
    if k == |segs| || segs[k].End() < start {
      AllBelow(segs, k, start);
      InsertedApart(segs, k, Seg(start, piece));
      StaysApartBut(Spliced(segs, k, 0, Seg(start, piece)), k);
    } else if segs[k].start <= start && end <= segs[k].End() {
      StaysApartBut(segs, k);
    } else {
      ExtendedEnds(segs[k], start, piece);
      NextAbove(segs, k);
      ReplacedApartBut(segs, k, Extended(segs[k], start, piece));
    }
  }

  lemma NextAbove(segs: seq<Seg>, k: nat)
    requires Apart(segs) && k < |segs|
    ensures forall i :: 0 <= i < k ==> segs[k].End() < segs[i].start
  {
  }

  lemma ExtendedEnds(s: Seg, start: nat, piece: seq<byte>)
    requires start <= s.End() && s.start <= start + |piece|
    ensures var r, end := Extended(s, start, piece), start + |piece|;
            && r.start == (if start < s.start then start else s.start) && r.End() == (if end > s.End() then end else s.End())
  {
  }

  /** What saw_piece does to the list. */
  function AddPiece(segs: seq<Seg>, start: nat, piece: seq<byte>): (r: seq<Seg>)
    requires Apart(segs)
  {
    PlacedApartBut(segs, start, piece);
    ApartButDescends(Place(segs, start, piece), Stop(segs, start, start + |piece|));
    Merged(Place(segs, start, piece))
  }

  /** The segment that a piece touches, grown by it, and joined to the next lower one if it reaches
      that. */
  ghost function Grown(segs: seq<Seg>, k: nat, start: nat, piece: seq<byte>): (s: Seg)
    requires Apart(segs) && k < |segs| && segs[k].End() >= start && segs[k].start <= start + |piece|
  {
    var e := Extended(segs[k], start, piece);
    if k + 1 < |segs| && start <= segs[k + 1].End() then Joined(e, segs[k + 1]) else e
  }

  /** The list afterwards in one step. */
  ghost function Added(segs: seq<Seg>, start: nat, piece: seq<byte>): (r: seq<Seg>)
    requires Apart(segs)
  {
    var k := Stop(segs, start, start + |piece|);
    if k == |segs| || segs[k].End() < start then Spliced(segs, k, 0, Seg(start, piece))
    else if segs[k].start <= start && start + |piece| <= segs[k].End() then segs
    else Spliced(segs, k, if k + 1 < |segs| && start <= segs[k + 1].End() then 2 else 1, Grown(segs, k, start, piece))
  }

  lemma SplicedOver(segs: seq<Seg>, k: nat, s: Seg, t: Seg)
    requires k + 2 <= |segs|
    ensures Spliced(Spliced(segs, k, 1, s), k, 2, t) == Spliced(segs, k, 2, t)
  {
  }

  lemma SplicedAt(segs: seq<Seg>, k: nat, drop: nat, s: Seg)
    requires k + drop <= |segs|
    ensures Spliced(segs, k, drop, s)[k] == s
    ensures drop == 1 && k + 1 < |segs| ==> Spliced(segs, k, drop, s)[k + 1] == segs[k + 1]
    ensures drop == 0 && k < |segs| ==> Spliced(segs, k, drop, s)[k + 1] == segs[k]
  {
  }

  lemma AddPieceIs(segs: seq<Seg>, start: nat, piece: seq<byte>)
    requires Apart(segs)
    ensures AddPiece(segs, start, piece) == Added(segs, start, piece)
  {
    hide Extended, Place, Joined, Spliced, Merged, Apart, ApartBut, Stop;
    var end := start + |piece|;
    var k, p := Stop(segs, start, end), Place(segs, start, piece);
    PlaceIs(segs, start, piece);
    PlacedApartBut(segs, start, piece);
    MergedIs(p, k);
    if k == |segs| || segs[k].End() < start {
      SplicedAt(segs, k, 0, Seg(start, piece));
    } else if !(segs[k].start <= start && end <= segs[k].End()) {
      var e := Extended(segs[k], start, piece);
      ExtendedEnds(segs[k], start, piece);
      SplicedAt(segs, k, 1, e);
      if k + 1 < |segs| {
        NextBelow(segs, k);
        SplicedOver(segs, k, e, Grown(segs, k, start, piece));
      }
    } else if k + 1 < |segs| {
      NextBelow(segs, k);
    }
  }

  lemma NextBelow(segs: seq<Seg>, k: nat)
    requires Apart(segs) && k + 1 < |segs|
    ensures segs[k + 1].End() < segs[k].start
  {
  }

  // ---------------------------------------------------------------- what has arrived

  lemma SpliceCovers(segs: seq<Seg>, k: nat, drop: nat, s: Seg, x: nat)
    requires k + drop <= |segs|
    ensures Covers(Spliced(segs, k, drop, s), x) <==> Holds(s, x) || Covers(segs[..k], x) || Covers(segs[k + drop..], x)
  {
    hide Holds;
    var r := Spliced(segs, k, drop, s);
    if Covers(r, x) {
      var i :| 0 <= i < |r| && Holds(r[i], x);
      if i < k { assert segs[..k][i] == r[i]; } else if i > k { assert segs[k + drop..][i - k - 1] == r[i]; }
    }
    if Holds(s, x) { assert r[k] == s; }
    if Covers(segs[..k], x) {
      var i :| 0 <= i < k && Holds(segs[..k][i], x);
      assert r[i] == segs[..k][i];
    }
    if Covers(segs[k + drop..], x) {
      var i :| 0 <= i < |segs| - k - drop && Holds(segs[k + drop..][i], x);
      assert r[k + 1 + i] == segs[k + drop..][i];
    }
  }

  lemma SplitCovers(segs: seq<Seg>, k: nat, x: nat)
    requires k <= |segs|
    ensures Covers(segs, x) <==> Covers(segs[..k], x) || Covers(segs[k..], x)
    ensures k < |segs| ==> (Covers(segs[k..], x) <==> Holds(segs[k], x) || Covers(segs[k + 1..], x))
  {
    if k < |segs| {
      SpliceCovers(segs, k, 1, segs[k], x);
      assert Spliced(segs, k, 1, segs[k]) == segs;
      SpliceCovers(segs[k + 1..], 0, 0, segs[k], x);
      assert Spliced(segs[k + 1..], 0, 0, segs[k]) == segs[k..] && segs[k + 1..][0..] == segs[k + 1..] && segs[k + 1..][..0] == [];
    } else {
      assert segs[..k] == segs && segs[k..] == [];
    }
  }

  /** A lower segment lies inside the piece, under one that the piece touches. */
  predicate Swallows(segs: seq<Seg>, start: nat, end: nat)
    requires start <= end
  {
    var k := Stop(segs, start, end);
    k + 1 < |segs| && segs[k].End() >= start && start < segs[k + 1].start
  }

  lemma GrownHolds(segs: seq<Seg>, k: nat, start: nat, piece: seq<byte>, x: nat)
    requires Apart(segs) && k < |segs| && segs[k].End() >= start && segs[k].start <= start + |piece|
    ensures var s, end := Grown(segs, k, start, piece), start + |piece|;
            && s.End() == (if end > segs[k].End() then end else segs[k].End())
            && s.start == (if k + 1 < |segs| && start <= segs[k + 1].End() then segs[k + 1].start
                           else if start < segs[k].start then start else segs[k].start)
  {
    ExtendedEnds(segs[k], start, piece);
    if k + 1 < |segs| && start <= segs[k + 1].End() {
      NextBelow(segs, k);
      JoinedEnds(Extended(segs[k], start, piece), segs[k + 1]);
    }
  }

  /** Nothing that had arrived is lost, and nothing is invented. */
  lemma AddedCovers(segs: seq<Seg>, start: nat, piece: seq<byte>, x: nat)
    requires Apart(segs)
    ensures Covers(segs, x) ==> Covers(Added(segs, start, piece), x)
    ensures Covers(Added(segs, start, piece), x) ==> Covers(segs, x) || start <= x < start + |piece|
    ensures !Swallows(segs, start, start + |piece|) && start <= x < start + |piece| ==> Covers(Added(segs, start, piece), x)
  {
    hide Grown, Spliced, Stop, Apart, Covers;
    var end := start + |piece|;
    var k := Stop(segs, start, end);
    SplitCovers(segs, k, x);
    if k == |segs| || segs[k].End() < start {
      SpliceCovers(segs, k, 0, Seg(start, piece), x);
    } else if segs[k].start <= start && end <= segs[k].End() {
    } else {
      GrownHolds(segs, k, start, piece, x);
      if k + 1 < |segs| {
        SplitCovers(segs, k + 1, x);
        NextBelow(segs, k);
      }
      SpliceCovers(segs, k, if k + 1 < |segs| && start <= segs[k + 1].End() then 2 else 1, Grown(segs, k, start, piece), x);
    }
  }

  lemma NoneBelow(segs: seq<Seg>, k: nat, x: nat)
    requires Apart(segs) && k < |segs| && x + 1 == segs[k].start
    ensures !Covers(segs, x)
  {
    forall i | 0 <= i < |segs|
      ensures !Holds(segs[i], x)
    {
    }
  }

  /** Just below a segment that is swallowed, a byte of the piece is lost. */
  lemma SwallowedIsLost(segs: seq<Seg>, start: nat, piece: seq<byte>)
    requires Apart(segs) && Swallows(segs, start, start + |piece|)
    ensures var x := segs[Stop(segs, start, start + |piece|) + 1].start - 1;
            start <= x < start + |piece| && !Covers(Added(segs, start, piece), x)
  {
    hide Grown, Spliced, Covers, Apart;
    var end := start + |piece|;
    var k := Stop(segs, start, end);
    var x := segs[k + 1].start - 1;
    NextBelow(segs, k);
    NoneBelow(segs, k + 1, x);
    SplitCovers(segs, k, x);
    SplitCovers(segs, k + 1, x);
    GrownHolds(segs, k, start, piece, x);
    SpliceCovers(segs, k, 2, Grown(segs, k, start, piece), x);
  }

  /** What has arrived grows by the piece exactly, unless the piece swallows a segment; then some of
      the piece is forgotten, but nothing that had arrived. */
  lemma PieceArrives(segs: seq<Seg>, start: nat, piece: seq<byte>)
    requires Apart(segs)
    ensures forall x: nat :: Covers(segs, x) ==> Covers(AddPiece(segs, start, piece), x)
    ensures forall x: nat :: Covers(AddPiece(segs, start, piece), x) ==> Covers(segs, x) || start <= x < start + |piece|
    ensures !Swallows(segs, start, start + |piece|) <==>
            (forall x: nat :: start <= x < start + |piece| ==> Covers(AddPiece(segs, start, piece), x))
  {
    hide Covers, Added, AddPiece, Swallows;
    AddPieceIs(segs, start, piece);
    forall x: nat
      ensures Covers(segs, x) ==> Covers(AddPiece(segs, start, piece), x)
      ensures Covers(AddPiece(segs, start, piece), x) ==> Covers(segs, x) || start <= x < start + |piece|
      ensures !Swallows(segs, start, start + |piece|) && start <= x < start + |piece| ==> Covers(AddPiece(segs, start, piece), x)
    {
      AddedCovers(segs, start, piece, x);
    }
    if Swallows(segs, start, start + |piece|) {
      SwallowedIsLost(segs, start, piece);
    }
  }

  lemma SomethingArrives(segs: seq<Seg>, start: nat, piece: seq<byte>)
    requires Apart(segs)
    ensures AddPiece(segs, start, piece) != []
  {
    hide AddPiece, Apart, Grown;
    AddPieceIs(segs, start, piece);
  }

  /** The list stays descending, disjoint and without touching. */
  lemma StaysApart(segs: seq<Seg>, start: nat, piece: seq<byte>)
    requires Apart(segs)
    ensures Apart(AddPiece(segs, start, piece))
  {
    hide Grown, Spliced, AddPiece, Apart;
    AddPieceIs(segs, start, piece);
    var end := start + |piece|;
    var k := Stop(segs, start, end);
    if k == |segs| || segs[k].End() < start {
      AllBelow(segs, k, start);
      InsertedApart(segs, k, Seg(start, piece));
    } else if !(segs[k].start <= start && end <= segs[k].End()) {
      GrownHolds(segs, k, start, piece, 0);
      NextAbove(segs, k);
      if k + 1 < |segs| { NextBelow(segs, k); }
      if k + 2 < |segs| { NextBelow(segs, k + 1); }
      ReplacedApart(segs, k, if k + 1 < |segs| && start <= segs[k + 1].End() then 2 else 1, Grown(segs, k, start, piece));
    }
  }

  lemma ReplacedApart(segs: seq<Seg>, k: nat, drop: nat, s: Seg)
    requires Apart(segs) && 1 <= drop && k + drop <= |segs| && s.End() >= segs[k].End()
    requires forall i :: 0 <= i < k ==> s.End() < segs[i].start
    requires k + drop < |segs| ==> segs[k + drop].End() < s.start
    ensures Apart(Spliced(segs, k, drop, s))
  {
    var r := Spliced(segs, k, drop, s);
    AllBelow(segs, k + drop, s.start);
    forall i, j | 0 <= i < j < |r|
      ensures r[j].End() < r[i].start
    {
      assert r[i] == if i < k then segs[i] else if i == k then s else segs[i + drop - 1];
      assert r[j] == if j < k then segs[j] else if j == k then s else segs[j + drop - 1];
    }
  }

  // ---------------------------------------------------------------- the stream's bytes

  lemma ExtendedAgrees(s: Seg, start: nat, piece: seq<byte>, stream: seq<byte>)
    requires start <= s.End() && s.start <= start + |piece| && Agrees(s, stream)
    requires start + |piece| <= |stream| && piece == stream[start..start + |piece|]
    ensures Agrees(Extended(s, start, piece), stream)
  {
    var r := Extended(s, start, piece);
    ExtendedEnds(s, start, piece);
    var b := if start < s.start then s.start - start else 0;
    forall i | 0 <= i < |r.data|
      ensures r.data[i] == stream[r.start + i]
    {
      if i < b {
        assert r.data[i] == piece[i];
      } else if i < b + |s.data| {
        assert r.data[i] == s.data[i - b] && s.data[i - b] == stream[s.start + (i - b)];
      } else {
        assert r.data[i] == piece[r.start + i - start];
      }
    }
  }

  lemma JoinedAgrees(upper: Seg, lower: Seg, stream: seq<byte>)
    requires upper.start <= lower.End() <= upper.End() && Agrees(upper, stream) && Agrees(lower, stream)
    ensures Agrees(Joined(upper, lower), stream)
  {
    var r := Joined(upper, lower);
    JoinedEnds(upper, lower);
    forall i | 0 <= i < |r.data|
      ensures r.data[i] == stream[r.start + i]
    {
    }
  }

  lemma SplicedAgree(segs: seq<Seg>, k: nat, drop: nat, s: Seg, stream: seq<byte>)
    requires k + drop <= |segs| && AllAgree(segs, stream) && Agrees(s, stream)
    ensures AllAgree(Spliced(segs, k, drop, s), stream)
  {
    hide Agrees;
    var r := Spliced(segs, k, drop, s);
    forall i | 0 <= i < |r|
      ensures Agrees(r[i], stream)
    {
      assert r[i] == if i < k then segs[i] else if i == k then s else segs[i + drop - 1];
    }
  }

  /** Every byte stored stays the stream's. */
  lemma StaysAgreed(segs: seq<Seg>, start: nat, piece: seq<byte>, stream: seq<byte>)
    requires Apart(segs) && AllAgree(segs, stream)
    requires start + |piece| <= |stream| && piece == stream[start..start + |piece|]
    ensures AllAgree(AddPiece(segs, start, piece), stream)
  {
    hide Spliced, AddPiece, Apart, Agrees, Extended, Joined;
    AddPieceIs(segs, start, piece);
    var end := start + |piece|;
    var k := Stop(segs, start, end);
    if k == |segs| || segs[k].End() < start {
      PieceAgrees(start, piece, stream);
      SplicedAgree(segs, k, 0, Seg(start, piece), stream);
    } else if !(segs[k].start <= start && end <= segs[k].End()) {
      var e := Extended(segs[k], start, piece);
      ExtendedAgrees(segs[k], start, piece, stream);
      if k + 1 < |segs| && start <= segs[k + 1].End() {
        NextBelow(segs, k);
        ExtendedEnds(segs[k], start, piece);
        JoinedAgrees(e, segs[k + 1], stream);
        SplicedAgree(segs, k, 2, Joined(e, segs[k + 1]), stream);
      } else {
        SplicedAgree(segs, k, 1, e, stream);
      }
    }
  }

  lemma PieceAgrees(start: nat, piece: seq<byte>, stream: seq<byte>)
    requires start + |piece| <= |stream| && piece == stream[start..start + |piece|]
    ensures Agrees(Seg(start, piece), stream)
  {
  }

  // ---------------------------------------------------------------- the whole stream

  /** One segment from 0 of a given length: the completion test on a list. */
  predicate OneOf(segs: seq<Seg>, length: int) {
    |segs| == 1 && segs[0].start == 0 && |segs[0].data| == length
  }

  /** It passes exactly when every byte of the stream has arrived. */
  lemma WholeIff(segs: seq<Seg>, stream: seq<byte>)
    requires Apart(segs) && AllAgree(segs, stream)
    ensures OneOf(segs, |stream|) <==> segs != [] && forall x: nat :: x < |stream| ==> Covers(segs, x)
    ensures OneOf(segs, |stream|) ==> segs[0].data == stream
  {
    var n := |stream|;
    if OneOf(segs, n) {
      forall x: nat | x < n
        ensures Covers(segs, x)
      {
        assert Holds(segs[0], x);
      }
    } else if segs != [] && forall x: nat :: x < n ==> Covers(segs, x) {
      CoveredIsOne(segs, n);
    }
  }

  lemma EndIsOpen(segs: seq<Seg>)
    requires |segs| == 1
    ensures !Covers(segs, segs[0].End())
  {
  }

  lemma CoveredIsOne(segs: seq<Seg>, n: nat)
    requires Apart(segs) && segs != [] && (forall x: nat :: x < n ==> Covers(segs, x))
    requires forall i :: 0 <= i < |segs| ==> segs[i].End() <= n
    ensures OneOf(segs, n)
  {
    var top := segs[0];
    if |segs| > 1 {
      assert segs[1].End() < top.start;
      NoneBelow(segs, 0, top.start - 1);
    }
    if top.start > 0 {
      NoneBelow(segs, 0, top.start - 1);
    }
    if |segs| == 1 {
      EndIsOpen(segs);
    }
  }
}
