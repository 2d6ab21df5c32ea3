/** A whole pass of the sender over a channel that loses nothing: what it sends are genuine pieces that take in
    all of both streams, and a receiver puts the bundle together from them if both lengths are told. */
module PiecePass {
  import opened Bits
  import opened Segments
  import opened PieceMessage
  import opened PieceRun
  import opened PieceCursor

  // ---------------------------------------------------------------- what a pass sends

  ghost function PieceSent(x: Plan, isManifest: bool, at: nat, stream: seq<byte>): (events: seq<Event>) {
    if x.Send? && at + x.bytes <= |stream| then [Came(Arrival(isManifest, at, stream[at..at + x.bytes], !x.more))] else []
  }

  /** The manifest's piece, the announcement, the body's piece. */
  ghost function CallSends(p: Sending, c: Cursor, room: int, manifest: seq<byte>, body: seq<byte>): (events: seq<Event>) {
    PieceSent(ManifestPlan(p, c, room), true, ManifestAt(p, c), manifest)
    + (if Announces(p, c, room) then [Told(|body|)] else [])
    + PieceSent(BodyPlan(p, c, room), false, BodyAt(p, c), body)
  }

  ghost function PassSends(p: Sending, rs: seq<int>, manifest: seq<byte>, body: seq<byte>): (events: seq<Event>) {
    if rs == [] then [] else
      PassSends(p, rs[..|rs| - 1], manifest, body) + CallSends(p, At(p, rs[..|rs| - 1]), rs[|rs| - 1], manifest, body)
  }

  /** To a receiver that has nothing yet. */
  ghost predicate FromNothing(p: Sending, manifest: seq<byte>, body: seq<byte>) {
    p.manifestLen == |manifest| && p.bodyLen == |body| && p.manifestBound == 0 && p.bodyBound == 0 && 0 < |manifest| <= 1024
  }

  /** Where a cursor stands in its stream. */
  function Reached(at: nat, len: nat): nat {
    if at < len then at else len
  }

  // ---------------------------------------------------------------- one piece

  /** A planned piece lies in its stream, is genuine, and moves the cursor to its end. */
  lemma PieceIs(x: Plan, isManifest: bool, at: nat, stream: seq<byte>, room: int, bitmap: bool)
    requires x == PlanPiece(at, |stream|, room, bitmap) && at <= |stream| && room <= 255
    ensures x.Send? ==> at + x.bytes <= |stream| && (!x.more ==> at + x.bytes == |stream|)
    ensures Moved(at, x) <= |stream|
  {
    hide PlanPiece;
    if x.Send? {
      PlanFits(at, |stream|, room, bitmap);
      if !x.more { EndIsReached(at, |stream|, room, bitmap); }
    }
  }

  /** What one call does to each stream: at most one piece, from where its cursor stood to where it then stands. */
  ghost predicate Goes(events: seq<Event>, isManifest: bool, stream: seq<byte>, from: nat, to: nat, x: Plan) {
    && from <= to <= |stream|
    && (if x.Send? then x.bytes == to - from && events == [Came(Arrival(isManifest, from, stream[from..to], !x.more))] && (!x.more ==> to == |stream|)
        else events == [] && to == from)
  }

  lemma ManifestGoes(p: Sending, c: Cursor, room: int, manifest: seq<byte>, body: seq<byte>)
    requires FromNothing(p, manifest, body) && room <= 255
    ensures Goes(PieceSent(ManifestPlan(p, c, room), true, ManifestAt(p, c), manifest), true, manifest,
                 Reached(c.m, |manifest|), Reached(Advanced(p, c, room).m, |manifest|), ManifestPlan(p, c, room))
  {
    hide PlanPiece, BodyPlan;
    if c.m < |manifest| {
      PieceIs(ManifestPlan(p, c, room), true, c.m, manifest, room, p.bitmap);
    }
  }

  lemma BodyGoes(p: Sending, c: Cursor, room: int, manifest: seq<byte>, body: seq<byte>)
    requires FromNothing(p, manifest, body) && room <= 255 && c.b <= |body|
    ensures Goes(PieceSent(BodyPlan(p, c, room), false, BodyAt(p, c), body), false, body, c.b, Advanced(p, c, room).b, BodyPlan(p, c, room))
  {
    hide PlanPiece, ManifestPlan, Announces;
    BodyRoomSmall(p, c, room);
    PieceIs(BodyPlan(p, c, room), false, c.b, body, BodyRoom(p, c, room), p.bitmap);
  }

  lemma BodyRoomSmall(p: Sending, c: Cursor, room: int)
    requires room <= 255
    ensures BodyRoom(p, c, room) <= 255
  {
    hide ManifestPlan, Announces;
  }

  // ---------------------------------------------------------------- the record while a pass comes in

  /** At most one segment, which ends where the cursor stands. */
  ghost predicate EndsAt(segs: seq<Seg>, m: nat) {
    |segs| <= 1 && (segs != [] ==> segs[0].End() == m)
  }

  lemma GrowsAtEnd(segs: seq<Seg>, m: nat, piece: seq<byte>)
    requires EndsAt(segs, m) && Apart(segs)
    ensures !Swallows(segs, m, m + |piece|) && EndsAt(AddPiece(segs, m, piece), m + |piece|)
  {
    if segs == [] {
    } else {
      assert segs[1..] == [];
    }
  }

  /** The record follows both cursors. */
  ghost predicate FollowsBoth(s: Partial, m: nat, b: nat) {
    Sorted(s) && EndsAt(s.manifest, m) && EndsAt(s.body, b)
  }

  /** Events that are gentle to any record that follows the cursors, and leave one that follows them on. */
  ghost predicate CarryOn(events: seq<Event>, more: seq<Event>, version: nat, m: nat, b: nat, m': nat, b': nat) {
    Gentle(events, version) && FollowsBoth(Run(events, version).0, m, b)
    ==> Gentle(events + more, version) && FollowsBoth(Run(events + more, version).0, m', b')
  }

  lemma FollowsFresh(m: nat, b: nat)
    ensures FollowsBoth(FRESH, m, b)
  {
  }

  lemma GentleOne(events: seq<Event>, e: Event, version: nat)
    requires Gentle(events, version) && !e.Evicted? && (e.Came? ==> GentlePiece(Run(events, version).0, e.a))
    ensures Gentle(events + [e], version)
  {
    hide Run, GentlePiece;
    var all := events + [e];
    forall i | 0 <= i < |all|
      ensures !all[i].Evicted? && (all[i].Came? ==> GentlePiece(Run(all[..i], version).0, all[i].a))
    {
      if i < |events| { assert all[..i] == events[..i] && all[i] == events[i]; } else { assert all[..i] == events; }
    }
  }

  /** A piece from the cursor on. */
  lemma PieceCarriesOn(events: seq<Event>, a: Arrival, version: nat, m: nat, b: nat)
    requires a.start == if a.manifest then m else b
    ensures CarryOn(events, [Came(a)], version, m, b, if a.manifest then m + |a.data| else m, if a.manifest then b else b + |a.data|)
  {
    hide AddPiece, Apart, Swallows, Complete, Gentle, Run, EndsAt;
    var s := Run(events, version).0;
    if Gentle(events, version) && FollowsBoth(s, m, b) {
      GrowsAtEnd(s.manifest, m, a.data);
      GrowsAtEnd(s.body, b, a.data);
      assert GentlePiece(s, a);
      GentleOne(events, Came(a), version);
      AfterOne(events, Came(a), version);
      FollowsFresh(if a.manifest then m + |a.data| else m, if a.manifest then b else b + |a.data|);
    }
  }

  lemma ToldCarriesOn(events: seq<Event>, n: nat, version: nat, m: nat, b: nat)
    ensures CarryOn(events, [Told(n)], version, m, b, m, b)
  {
    hide Apart, Gentle, Run, EndsAt;
    var s := Run(events, version).0;
    if Gentle(events, version) && FollowsBoth(s, m, b) {
      GentleOne(events, Told(n), version);
      AfterOne(events, Told(n), version);
    }
  }

  lemma GoesCarriesOn(events: seq<Event>, more: seq<Event>, isManifest: bool, stream: seq<byte>, from: nat, to: nat, x: Plan, version: nat,
                      other: nat)
    requires Goes(more, isManifest, stream, from, to, x)
    ensures if isManifest then CarryOn(events, more, version, from, other, to, other) else CarryOn(events, more, version, other, from, other, to)
  {
    hide CarryOn;
    if x.Send? {
      PieceCarriesOn(events, more[0].a, version, if isManifest then from else other, if isManifest then other else from);
    } else {
      NothingCarriesOn(events, version, if isManifest then from else other, if isManifest then other else from);
    }
  }

  lemma NothingCarriesOn(events: seq<Event>, version: nat, m: nat, b: nat)
    ensures CarryOn(events, [], version, m, b, m, b)
  {
    assert events + [] == events;
  }

  // ---------------------------------------------------------------- the pass

  /** What holds after the calls of a pass. */
  ghost predicate SoFar(p: Sending, rs: seq<int>, manifest: seq<byte>, body: seq<byte>, version: nat) {
    var events, c := PassSends(p, rs, manifest, body), At(p, rs);
    && c.b <= |body| && Gentle(events, version) && FollowsBoth(Run(events, version).0, Reached(c.m, |manifest|), c.b)
    && AllGenuine(events, manifest, body)
    && (forall x: nat :: x < Reached(c.m, |manifest|) ==> Brought(events, true, x))
    && (forall x: nat :: x < c.b ==> Brought(events, false, x))
  }

  lemma GoesBrings(events: seq<Event>, more: seq<Event>, isManifest: bool, stream: seq<byte>, from: nat, to: nat, x: Plan)
    requires Goes(more, isManifest, stream, from, to, x) && forall y: nat :: y < from ==> Brought(events, isManifest, y)
    ensures forall y: nat :: y < to ==> Brought(events + more, isManifest, y)
  {
    forall y: nat | y < to
      ensures Brought(events + more, isManifest, y)
    {
      if y < from {
        StillBrought(events, more, isManifest, y);
      } else {
        assert (events + more)[|events|] == more[0] && Takes(more[0].a, y);
      }
    }
  }

  lemma StillBrought(events: seq<Event>, more: seq<Event>, isManifest: bool, y: nat)
    requires Brought(events, isManifest, y)
    ensures Brought(events + more, isManifest, y)
  {
    var i :| 0 <= i < |events| && events[i].Came? && events[i].a.manifest == isManifest && Takes(events[i].a, y);
    assert (events + more)[i] == events[i];
  }

  lemma GoesGenuine(more: seq<Event>, isManifest: bool, from: nat, to: nat, x: Plan, manifest: seq<byte>, body: seq<byte>)
    requires Goes(more, isManifest, if isManifest then manifest else body, from, to, x)
    ensures AllGenuine(more, manifest, body)
  {
  }

  lemma JoinGenuine(a: seq<Event>, b: seq<Event>, manifest: seq<byte>, body: seq<byte>)
    requires AllGenuine(a, manifest, body) && AllGenuine(b, manifest, body)
    ensures AllGenuine(a + b, manifest, body)
  {
    hide Genuine;
  }

  lemma {:induction false} PassGoesOn(p: Sending, rs: seq<int>, manifest: seq<byte>, body: seq<byte>, version: nat)
    requires FromNothing(p, manifest, body) && Packets(rs)
    ensures SoFar(p, rs, manifest, body, version)
    decreases |rs|
  {
    hide Gentle, FollowsBoth, AllGenuine, Brought, Run, Advanced, CallSends, FRESH;
    if rs == [] {
      NothingSent(version, manifest, body);
      FollowsFresh(0, 0);
    } else {
      var front, room := rs[..|rs| - 1], rs[|rs| - 1];
      PassGoesOn(p, front, manifest, body, version);
      CallGoesOn(p, PassSends(p, front, manifest, body), At(p, front), room, manifest, body, version);
    }
  }

  lemma NothingSent(version: nat, manifest: seq<byte>, body: seq<byte>)
    ensures Gentle([], version) && Run([], version) == (FRESH, []) && AllGenuine([], manifest, body)
  {
  }

  lemma CallGoesOn(p: Sending, events: seq<Event>, c: Cursor, room: int, manifest: seq<byte>, body: seq<byte>, version: nat)
    requires FromNothing(p, manifest, body) && room <= 255 && c.b <= |body| && Gentle(events, version)
    requires FollowsBoth(Run(events, version).0, Reached(c.m, |manifest|), c.b) && AllGenuine(events, manifest, body)
    requires (forall x: nat :: x < Reached(c.m, |manifest|) ==> Brought(events, true, x)) && forall x: nat :: x < c.b ==> Brought(events, false, x)
    ensures var all, c' := events + CallSends(p, c, room, manifest, body), Advanced(p, c, room);
            && c'.b <= |body| && Gentle(all, version) && FollowsBoth(Run(all, version).0, Reached(c'.m, |manifest|), c'.b)
            && AllGenuine(all, manifest, body)
            && (forall x: nat :: x < Reached(c'.m, |manifest|) ==> Brought(all, true, x))
            && (forall x: nat :: x < c'.b ==> Brought(all, false, x))
  {
    hide Gentle, FollowsBoth, AllGenuine, Brought, Run, Advanced, PieceSent, ManifestPlan, BodyPlan, Announces, Goes, Reached;
    var c' := Advanced(p, c, room);
    var x := PieceSent(ManifestPlan(p, c, room), true, ManifestAt(p, c), manifest);
    var t := if Announces(p, c, room) then [Told(|body|)] else [];
    var y := PieceSent(BodyPlan(p, c, room), false, BodyAt(p, c), body);
    var m, m' := Reached(c.m, |manifest|), Reached(c'.m, |manifest|);
    ManifestGoes(p, c, room, manifest, body);
    BodyGoes(p, c, room, manifest, body);
    GoesCarriesOn(events, x, true, manifest, m, m', ManifestPlan(p, c, room), version, c.b);
    if Announces(p, c, room) { ToldCarriesOn(events + x, |body|, version, m', c.b); } else { NothingCarriesOn(events + x, version, m', c.b); }
    GoesCarriesOn(events + x + t, y, false, body, c.b, c'.b, BodyPlan(p, c, room), version, m');
    assert events + CallSends(p, c, room, manifest, body) == events + x + t + y;
    GoesBrings(events, x, true, manifest, m, m', ManifestPlan(p, c, room));
    KeepsBrought(events, x, false, c.b);
    KeepsBrought(events + x, t, true, m');
    KeepsBrought(events + x, t, false, c.b);
    KeepsBrought(events + x + t, y, true, m');
    GoesBrings(events + x + t, y, false, body, c.b, c'.b, BodyPlan(p, c, room));
    GoesGenuine(x, true, m, m', ManifestPlan(p, c, room), manifest, body);
    GoesGenuine(y, false, c.b, c'.b, BodyPlan(p, c, room), manifest, body);
    ToldGenuine(manifest, body);
    JoinGenuine(events, x, manifest, body);
    JoinGenuine(events + x, t, manifest, body);
    JoinGenuine(events + x + t, y, manifest, body);
    GoesInside(y, false, body, c.b, c'.b, BodyPlan(p, c, room));
  }

  lemma GoesInside(more: seq<Event>, isManifest: bool, stream: seq<byte>, from: nat, to: nat, x: Plan)
    requires Goes(more, isManifest, stream, from, to, x)
    ensures to <= |stream|
  {
  }

  lemma KeepsBrought(events: seq<Event>, more: seq<Event>, isManifest: bool, n: nat)
    requires forall y: nat :: y < n ==> Brought(events, isManifest, y)
    ensures forall y: nat :: y < n ==> Brought(events + more, isManifest, y)
  {
    hide Brought;
    forall y: nat | y < n
      ensures Brought(events + more, isManifest, y)
    {
      StillBrought(events, more, isManifest, y);
    }
  }

  lemma ToldGenuine(manifest: seq<byte>, body: seq<byte>)
    ensures AllGenuine([Told(|body|)], manifest, body) && AllGenuine([], manifest, body)
  {
  }

  // ---------------------------------------------------------------- both lengths

  /** The body's length is announced in a call, and in it or later a piece of the body is sent. */
  ghost predicate AnnouncedInTime(p: Sending, rs: seq<int>) {
    exists i, j :: 0 <= i <= j < |rs| && AnnouncedAt(p, rs, i) && BodySentAt(p, rs, j)
  }

  ghost predicate AnnouncedAt(p: Sending, rs: seq<int>, i: nat)
    requires i < |rs|
  {
    Announces(p, At(p, rs[..i]), rs[i])
  }

  ghost predicate BodySentAt(p: Sending, rs: seq<int>, j: nat)
    requires j < |rs|
  {
    BodyPlan(p, At(p, rs[..j]), rs[j]).Send?
  }

  /** What a call sends is part of the pass, behind what was sent before it. */
  lemma {:induction false} CallInPass(p: Sending, rs: seq<int>, i: nat, manifest: seq<byte>, body: seq<byte>)
    requires i < |rs|
    ensures PassSends(p, rs[..i], manifest, body) + CallSends(p, At(p, rs[..i]), rs[i], manifest, body) <= PassSends(p, rs, manifest, body)
    decreases |rs|
  {
    hide CallSends, At;
    var n := |rs| - 1;
    if i < n {
      CallInPass(p, rs[..n], i, manifest, body);
      assert rs[..n][..i] == rs[..i] && rs[..n][i] == rs[i];
    }
  }

  lemma {:induction false} PassGrows(p: Sending, rs: seq<int>, i: nat, manifest: seq<byte>, body: seq<byte>)
    requires i <= |rs|
    ensures PassSends(p, rs[..i], manifest, body) <= PassSends(p, rs, manifest, body)
  {
    hide CallSends, PassSends;
    if i < |rs| { CallInPass(p, rs, i, manifest, body); } else { assert rs[..i] == rs; }
  }

  /** The pieces and the announcement of call i, where they stand in the pass. */
  lemma CallAt(p: Sending, rs: seq<int>, i: nat, manifest: seq<byte>, body: seq<byte>) returns (m: nat, t: nat, b: nat)
    requires FromNothing(p, manifest, body) && Packets(rs) && i < |rs|
    ensures var n, events := |PassSends(p, rs[..i], manifest, body)|, PassSends(p, rs, manifest, body);
            && n <= m && n <= t <= b <= |events|
            && (ManifestPlan(p, At(p, rs[..i]), rs[i]).Send? ==>
                  m < t && m < |events| && events[m].Came? && events[m].a.manifest && events[m].a.end == !ManifestPlan(p, At(p, rs[..i]), rs[i]).more)
            && (AnnouncedAt(p, rs, i) ==> b == t + 1 && t < |events| && events[t] == Told(|body|))
            && (BodySentAt(p, rs, i) ==>
                  b < |events| && events[b].Came? && !events[b].a.manifest && events[b].a.end == !BodyPlan(p, At(p, rs[..i]), rs[i]).more)
            && (i + 1 < |rs| ==> b <= |PassSends(p, rs[..i + 1], manifest, body)|)
  {
    hide Advanced, PieceSent, ManifestPlan, BodyPlan, Announces, Reached, SoFar, FRESH;
    var front, c, room := PassSends(p, rs[..i], manifest, body), At(p, rs[..i]), rs[i];
    PassGoesOn(p, rs[..i], manifest, body, 0);
    assert c.b <= |body| by { SoFarInside(p, rs[..i], manifest, body, 0); }
    var x := PieceSent(ManifestPlan(p, c, room), true, ManifestAt(p, c), manifest);
    var a := if Announces(p, c, room) then [Told(|body|)] else [];
    var y := PieceSent(BodyPlan(p, c, room), false, BodyAt(p, c), body);
    ManifestGoes(p, c, room, manifest, body);
    BodyGoes(p, c, room, manifest, body);
    CallInPass(p, rs, i, manifest, body);
    assert front + CallSends(p, c, room, manifest, body) == front + x + a + y;
    m, t, b := |front|, |front + x|, |front + x + a|;
    assert rs[..i + 1][..i] == rs[..i] && rs[..i + 1][i] == rs[i];
    CallInPass(p, rs[..i + 1], i, manifest, body);
  }

  lemma SoFarInside(p: Sending, rs: seq<int>, manifest: seq<byte>, body: seq<byte>, version: nat)
    requires SoFar(p, rs, manifest, body, version)
    ensures At(p, rs).b <= |body|
  {
    hide Gentle, FollowsBoth, AllGenuine, Brought, Run, PassSends;
  }

  /** The body's length is known, and a piece comes after that. */
  ghost predicate KnownInTime(events: seq<Event>, version: nat) {
    || HasEnd(events, false) || version < 0x1_0000_0000
    || exists i, j, k :: 0 <= i < j < k < |events| && events[i].Came? && events[j].Told? && events[k].Came?
  }

  /** Then the last piece that comes makes it ready. */
  lemma {:induction false} SomeReady(events: seq<Event>, manifest: seq<byte>, body: seq<byte>, version: nat) returns (n: nat)
    requires AllThere(events, true, manifest) && AllThere(events, false, body) && HasEnd(events, true) && KnownInTime(events, version)
    ensures 0 < n <= |events| && Ready(events[..n], manifest, body, version)
    decreases |events|
  {
    var front := events[..|events| - 1];
    if events[|events| - 1].Came? {
      n := |events|;
      assert events[..n] == events;
    } else {
      assert forall i :: 0 <= i < |events| && events[i].Came? ==> i < |front| && front[i] == events[i];
      FrontHas(events, true, manifest);
      FrontHas(events, false, body);
      if exists i, j, k :: 0 <= i < j < k < |events| && events[i].Came? && events[j].Told? && events[k].Came? {
        var i, j, k :| 0 <= i < j < k < |events| && events[i].Came? && events[j].Told? && events[k].Came?;
        assert front[i] == events[i] && front[j] == events[j] && front[k] == events[k];
      }
      n := SomeReady(front, manifest, body, version);
      assert front[..n] == events[..n];
    }
  }

  lemma FrontHas(events: seq<Event>, isManifest: bool, stream: seq<byte>)
    requires events != [] && !events[|events| - 1].Came? && AllThere(events, isManifest, stream)
    ensures AllThere(events[..|events| - 1], isManifest, stream)
    ensures HasEnd(events, isManifest) ==> HasEnd(events[..|events| - 1], isManifest)
  {
    var front := events[..|events| - 1];
    assert forall i :: 0 <= i < |front| ==> front[i] == events[i];
    forall x: nat | x < |stream|
      ensures Brought(front, isManifest, x)
    {
      assert Brought(events, isManifest, x);
    }
  }

  /** Of a pass that loses nothing a new receiver puts the bundle together, if the manifest's end is marked and
      the body's length is told: by its end, by an announcement before its last piece, or by a journal's version. */
  lemma PassDelivers(p: Sending, rs: seq<int>, manifest: seq<byte>, body: seq<byte>, version: nat)
    requires FromNothing(p, manifest, body) && Packets(rs) && body != [] && Versioned(body, version)
    requires PassDone(p, At(p, rs)) && ManifestEnded(p, rs)
    requires BodyEnded(p, rs) || AnnouncedInTime(p, rs) || version < 0x1_0000_0000
    ensures var handed := Run(PassSends(p, rs, manifest, body), version).1;
            handed != [] && handed[0] == Handed(manifest, body)
  {
    hide Gentle, FollowsBoth, AllGenuine, Brought, Run, PassSends, At, ManifestPlan, BodyPlan, AnnouncedAt, BodySentAt, EndPiece, Ready, AllThere,
      HasEnd, Versioned, KnownInTime, Packets;
    var events := PassSends(p, rs, manifest, body);
    PassGoesOn(p, rs, manifest, body, version);
    AllThereNow(events, true, manifest);
    AllThereNow(events, false, body);
    EndsTold(p, rs, manifest, body, version);
    var n := SomeReady(events, manifest, body, version);
    RunCompletes(events, manifest, body, version);
  }

  lemma AllThereNow(events: seq<Event>, isManifest: bool, stream: seq<byte>)
    requires stream != [] && forall x: nat :: x < |stream| ==> Brought(events, isManifest, x)
    ensures AllThere(events, isManifest, stream)
  {
    assert Brought(events, isManifest, 0);
  }

  lemma EndsTold(p: Sending, rs: seq<int>, manifest: seq<byte>, body: seq<byte>, version: nat)
    requires FromNothing(p, manifest, body) && Packets(rs) && ManifestEnded(p, rs)
    requires BodyEnded(p, rs) || AnnouncedInTime(p, rs) || version < 0x1_0000_0000
    ensures HasEnd(PassSends(p, rs, manifest, body), true) && KnownInTime(PassSends(p, rs, manifest, body), version)
  {
    hide PassSends, At, ManifestPlan, BodyPlan, Announces;
    var events := PassSends(p, rs, manifest, body);
    var k :| 0 <= k < |rs| && EndPiece(ManifestPlan(p, At(p, rs[..k]), rs[k]));
    var m, t, b := CallAt(p, rs, k, manifest, body);
    assert events[m].Came? && events[m].a.end;
    if BodyEnded(p, rs) {
      var e :| 0 <= e < |rs| && EndPiece(BodyPlan(p, At(p, rs[..e]), rs[e]));
      var _, _, b' := CallAt(p, rs, e, manifest, body);
      assert BodySentAt(p, rs, e) && events[b'].a.end;
    } else if AnnouncedInTime(p, rs) {
      var i, j :| 0 <= i <= j < |rs| && AnnouncedAt(p, rs, i) && BodySentAt(p, rs, j);
      var f, t' := ToldAt(p, rs, i, manifest, body);
      var b2 := SentLater(p, rs, i, j, manifest, body, t');
      assert events[f].Came? && events[t'].Told? && events[b2].Came?;
    }
  }

  /** Before an announcement a piece of the manifest has come. */
  lemma ToldAt(p: Sending, rs: seq<int>, i: nat, manifest: seq<byte>, body: seq<byte>) returns (f: nat, t: nat)
    requires FromNothing(p, manifest, body) && Packets(rs) && i < |rs| && AnnouncedAt(p, rs, i)
    ensures var events := PassSends(p, rs, manifest, body);
            && f < t < |events| && events[f].Came? && events[t] == Told(|body|)
            && (i + 1 < |rs| ==> t < |PassSends(p, rs[..i + 1], manifest, body)|)
            && (BodySentAt(p, rs, i) ==> t + 1 < |events| && events[t + 1].Came?)
  {
    hide PassSends, At, ManifestPlan, BodyPlan, Announces;
    var b;
    f, t, b := CallAt(p, rs, i, manifest, body);
    if !ManifestPlan(p, At(p, rs[..i]), rs[i]).Send? {
      f := ManifestBefore(p, rs[..i], rs[i], manifest, body);
      PassGrows(p, rs, i, manifest, body);
    }
  }

  lemma ManifestBefore(p: Sending, rs: seq<int>, room: int, manifest: seq<byte>, body: seq<byte>) returns (f: nat)
    requires FromNothing(p, manifest, body) && Packets(rs) && Announces(p, At(p, rs), room) && !ManifestPlan(p, At(p, rs), room).Send?
    ensures f < |PassSends(p, rs, manifest, body)| && PassSends(p, rs, manifest, body)[f].Came?
  {
    hide Gentle, FollowsBoth, AllGenuine, Run, PassSends, At, PlanPiece;
    PassGoesOn(p, rs, manifest, body, 0);
    var events := PassSends(p, rs, manifest, body);
    assert Brought(events, true, 0);
    f :| 0 <= f < |events| && events[f].Came? && events[f].a.manifest && Takes(events[f].a, 0);
  }

  /** The body's piece of a call comes behind the announcement of that call or an earlier one. */
  lemma SentLater(p: Sending, rs: seq<int>, i: nat, j: nat, manifest: seq<byte>, body: seq<byte>, t: nat) returns (b: nat)
    requires FromNothing(p, manifest, body) && Packets(rs) && i <= j < |rs| && BodySentAt(p, rs, j)
    requires var events := PassSends(p, rs, manifest, body);
             && (i + 1 < |rs| ==> t < |PassSends(p, rs[..i + 1], manifest, body)|)
             && (BodySentAt(p, rs, i) ==> t + 1 < |events| && events[t + 1].Came?)
    ensures t < b < |PassSends(p, rs, manifest, body)| && PassSends(p, rs, manifest, body)[b].Came?
  {
    hide PassSends, At, ManifestPlan, BodyPlan, Announces;
    if i == j {
      b := t + 1;
    } else {
      var m, t';
      m, t', b := CallAt(p, rs, j, manifest, body);
      PassGrows(p, rs[..j], i + 1, manifest, body);
      assert rs[..j][..i + 1] == rs[..i + 1];
    }
  }
}
