/** A run in which every byte of a bundle arrives, in pieces the sender builds, and the bundle is still
    not put together: one piece swallows a segment that arrived before it. */
module PieceLoss {
  import opened Bits
  import opened PieceMessage
  import opened PieceRun
  import opened Segments

  /** A piece of 192 bytes, in a packet of at most 255, swallows the lower of two segments. */
  lemma PieceSwallows(upper: seq<byte>, lower: seq<byte>)
    requires |upper| == 64 && |lower| == 64
    ensures var segs := [Seg(192, upper), Seg(64, lower)];
            Apart(segs) && Swallows(segs, 0, 192) && Stop(segs, 0, 192) == 0
  {
  }

  // ---------------------------------------------------------------- pieces as the sender builds them

  /** In a packet with so much room the sender builds this piece of the stream. */
  ghost predicate BuiltIn(a: Arrival, stream: seq<byte>, room: int) {
    && room <= 255 && a.start + |a.data| <= |stream| && a.data == stream[a.start..a.start + |a.data|]
    && PlanPiece(a.start, |stream|, room, true) == Send(|a.data|, !a.end)
  }

  ghost predicate BuiltOf(a: Arrival, stream: seq<byte>) {
    exists room :: BuiltIn(a, stream, room)
  }

  ghost predicate Built(e: Event, manifest: seq<byte>, body: seq<byte>) {
    e.Came? && BuiltOf(e.a, if e.a.manifest then manifest else body)
  }

  /** A manifest in units of 64 bytes. */
  function ManifestPieces(manifest: seq<byte>, from: nat): (events: seq<Event>)
    requires from < |manifest|
    decreases |manifest| - from
  {
    if |manifest| - from > 64
    then [Came(Arrival(true, from, manifest[from..from + 64], false))] + ManifestPieces(manifest, from + 64)
    else [Came(Arrival(true, from, manifest[from..], true))]
  }

  function BodyPieces(body: seq<byte>): (events: seq<Event>)
    requires |body| == 256
  {
    [Came(Arrival(false, 192, body[192..], true)), Came(Arrival(false, 64, body[64..128], false)),
     Came(Arrival(false, 0, body[..192], false))]
  }

  function LosingRun(manifest: seq<byte>, body: seq<byte>): (events: seq<Event>)
    requires manifest != [] && |body| == 256
  {
    ManifestPieces(manifest, 0) + BodyPieces(body)
  }

  lemma {:induction false} ManifestBuilt(manifest: seq<byte>, body: seq<byte>, from: nat)
    requires from < |manifest| <= 1024 && from % 64 == 0
    ensures forall i :: 0 <= i < |ManifestPieces(manifest, from)| ==>
              Built(ManifestPieces(manifest, from)[i], manifest, body) && ManifestPieces(manifest, from)[i].a.manifest
    decreases |manifest| - from
  {
    hide PlanPiece;
    var events := ManifestPieces(manifest, from);
    if |manifest| - from > 64 {
      UnitFits(from, |manifest|);
      assert BuiltIn(events[0].a, manifest, 85);
      ManifestBuilt(manifest, body, from + 64);
    } else {
      RestFits(from, |manifest|);
      assert BuiltIn(events[0].a, manifest, 255);
    }
  }

  lemma UnitFits(from: nat, len: nat)
    requires from % 64 == 0 && len - from > 64 && len <= 1024
    ensures PlanPiece(from, len, 85, true) == Send(64, true)
  {
    assert (from + 64) % 64 == 0;
  }

  lemma RestFits(from: nat, len: nat)
    requires from <= len <= from + 64 && len <= 1024
    ensures PlanPiece(from, len, 255, true) == Send(len - from, false)
  {
  }

  lemma BodyPlans()
    ensures PlanPiece(192, 256, 255, true) == Send(64, false) && PlanPiece(64, 256, 85, true) == Send(64, true)
    ensures PlanPiece(0, 256, 213, true) == Send(192, true)
  {
  }

  lemma BodyBuilt(manifest: seq<byte>, body: seq<byte>)
    requires |body| == 256
    ensures forall i :: 0 <= i < 3 ==> Built(BodyPieces(body)[i], manifest, body)
  {
    var events := BodyPieces(body);
    BodyPlans();
    hide PlanPiece;
    assert BuiltIn(events[0].a, body, 255);
    assert BuiltIn(events[1].a, body, 85);
    assert BuiltIn(events[2].a, body, 213);
  }

  /** What the sender builds is genuine. */
  lemma BuiltGenuine(e: Event, manifest: seq<byte>, body: seq<byte>)
    requires Built(e, manifest, body)
    ensures Genuine(e.a, manifest, body)
  {
    hide PlanPiece;
    var stream := if e.a.manifest then manifest else body;
    var room :| BuiltIn(e.a, stream, room);
    if e.a.end { EndIsReached(e.a.start, |stream|, room, true); }
  }

  lemma LosingIsBuilt(manifest: seq<byte>, body: seq<byte>)
    requires 0 < |manifest| <= 1024 && |body| == 256
    ensures forall i :: 0 <= i < |LosingRun(manifest, body)| ==> Built(LosingRun(manifest, body)[i], manifest, body)
    ensures AllGenuine(LosingRun(manifest, body), manifest, body)
  {
    hide Built, Genuine;
    ManifestBuilt(manifest, body, 0);
    BodyBuilt(manifest, body);
    var events, m := LosingRun(manifest, body), ManifestPieces(manifest, 0);
    forall i | 0 <= i < |events|
      ensures Built(events[i], manifest, body) && events[i].Came? && Genuine(events[i].a, manifest, body)
    {
      assert events[i] == if i < |m| then m[i] else BodyPieces(body)[i - |m|];
      BuiltCame(events[i], manifest, body);
      BuiltGenuine(events[i], manifest, body);
    }
  }

  lemma BuiltCame(e: Event, manifest: seq<byte>, body: seq<byte>)
    requires Built(e, manifest, body)
    ensures e.Came?
  {
  }

  // ---------------------------------------------------------------- all of the bundle comes

  /** The units take in all of the manifest from there on, and its end. */
  lemma {:induction false} ManifestComes(manifest: seq<byte>, from: nat)
    requires from < |manifest|
    ensures var m := ManifestPieces(manifest, from);
            && HasEnd(m, true)
            && (forall x: nat :: from <= x < |manifest| ==> Brought(m, true, x))
    decreases |manifest| - from
  {
    var m := ManifestPieces(manifest, from);
    if |manifest| - from > 64 {
      ManifestComes(manifest, from + 64);
      var rest := ManifestPieces(manifest, from + 64);
      var e :| 0 <= e < |rest| && rest[e].Came? && rest[e].a.manifest && rest[e].a.end;
      assert m[e + 1] == rest[e];
      assert m[e + 1].Came? && m[e + 1].a.manifest && m[e + 1].a.end;
      forall x: nat | from <= x < |manifest|
        ensures Brought(m, true, x)
      {
        if x < from + 64 {
          assert Takes(m[0].a, x);
        } else {
          assert Brought(rest, true, x);
          var i :| 0 <= i < |rest| && rest[i].Came? && rest[i].a.manifest && Takes(rest[i].a, x);
          assert m[i + 1] == rest[i];
        }
      }
    } else {
      assert m[0].a.end;
      forall x: nat | from <= x < |manifest|
        ensures Brought(m, true, x)
      {
        assert Takes(m[0].a, x);
      }
    }
  }

  lemma LosingBringsAll(manifest: seq<byte>, body: seq<byte>, version: nat)
    requires manifest != [] && |body| == 256
    ensures Ready(LosingRun(manifest, body), manifest, body, version)
  {
    hide ManifestPieces;
    var events, m := LosingRun(manifest, body), ManifestPieces(manifest, 0);
    ManifestComes(manifest, 0);
    var e :| 0 <= e < |m| && m[e].Came? && m[e].a.manifest && m[e].a.end;
    assert events[e] == m[e];
    assert events[|m|] == BodyPieces(body)[0] && events[|m| + 2] == BodyPieces(body)[2];
    assert HasEnd(events, true) && HasEnd(events, false) && HasPiece(events, true) && HasPiece(events, false);
    forall x: nat | x < |manifest|
      ensures Brought(events, true, x)
    {
      assert Brought(m, true, x);
      var i :| 0 <= i < |m| && m[i].Came? && m[i].a.manifest && Takes(m[i].a, x);
      assert events[i] == m[i];
    }
    forall x: nat | x < |body|
      ensures Brought(events, false, x)
    {
      assert Takes(events[if x < 192 then |m| + 2 else |m|].a, x);
    }
  }

  // ---------------------------------------------------------------- and is not put together

  /** While a byte of the body is missing, the record is just added to. */
  lemma OneMore(events: seq<Event>, a: Arrival, manifest: seq<byte>, body: seq<byte>, version: nat, x: nat)
    requires AllGenuine(events + [Came(a)], manifest, body) && Versioned(body, version)
    requires Run(events, version).1 == [] && x < |body| && !Covers(Noted(Run(events, version).0, a, version).body, x)
    ensures Run(events + [Came(a)], version) == (Noted(Run(events, version).0, a, version), [])
  {
    hide Noted, Covers, Sound, AllGenuine, Versioned, Complete;
    assert (events + [Came(a)])[..|events|] == events;
    assert (events + [Came(a)])[|events|] == Came(a) && events + [Came(a)] != [];
    Parts(events, a, manifest, body);
    RunExact(events, manifest, body, version);
    NotedSound(Run(events, version).0, a, manifest, body, version);
    CompleteIff(Noted(Run(events, version).0, a, version), manifest, body);
    assert Stepped(Run(events, version).0, a, version) == (Noted(Run(events, version).0, a, version), []);
    assert Run(events + [Came(a)], version).1 == Run(events, version).1 + [];
  }

  lemma Parts(events: seq<Event>, a: Arrival, manifest: seq<byte>, body: seq<byte>)
    requires AllGenuine(events + [Came(a)], manifest, body)
    ensures AllGenuine(events, manifest, body) && Genuine(a, manifest, body)
  {
    hide Genuine;
    var all := events + [Came(a)];
    assert all[|events|].Came? && all[|events|].a == a;
    forall i | 0 <= i < |events|
      ensures events[i].Came? ==> Genuine(events[i].a, manifest, body)
      ensures events[i].Told? ==> events[i].length == |body|
    {
      assert all[i] == events[i];
    }
  }

  lemma NoneCovered(x: nat)
    ensures !Covers([], x) && Apart([])
  {
  }

  /** The body's segments after each of the first pieces. */
  lemma TwoSegments(upper: seq<byte>, lower: seq<byte>)
    requires |upper| == 64 && |lower| == 64
    ensures AddPiece([], 192, upper) == [Seg(192, upper)]
    ensures AddPiece([Seg(192, upper)], 64, lower) == [Seg(192, upper), Seg(64, lower)]
    ensures !Covers([Seg(192, upper)], 63) && !Covers([Seg(192, upper), Seg(64, lower)], 63)
  {
    var u, l := Seg(192, upper), Seg(64, lower);
    assert [u][1..] == [] && [u, l][1..] == [l];
    assert Place([u], 64, lower) == [u, l];
    assert Merged([l]) == [l] && Merged([u, l]) == [u] + Merged([l]);
  }

  /** What the last piece leaves out. */
  lemma StillMissing(upper: seq<byte>, lower: seq<byte>, piece: seq<byte>)
    requires |upper| == 64 && |lower| == 64 && |piece| == 192
    ensures var segs := [Seg(192, upper), Seg(64, lower)];
            Apart(segs) && !Covers(AddPiece(segs, 0, piece), 63)
  {
    hide AddPiece, Covers, Apart, Added, Swallows, Stop;
    var segs := [Seg(192, upper), Seg(64, lower)];
    PieceSwallows(upper, lower);
    AddPieceIs(segs, 0, piece);
    SwallowedIsLost(segs, 0, piece);
  }

  lemma StartsFresh(version: nat)
    ensures Run([], version) == (FRESH, [])
  {
  }

  lemma BodyAfter(events: seq<Event>, i: nat, segs: seq<Seg>, manifest: seq<byte>, body: seq<byte>, version: nat)
    requires AllGenuine(events, manifest, body) && Versioned(body, version) && i < |events| && events[i].Came? && |body| == 256
    requires Run(events[..i], version).1 == [] && Apart(Run(events[..i], version).0.body)
    requires segs == if events[i].a.manifest then Run(events[..i], version).0.body
                     else AddPiece(Run(events[..i], version).0.body, events[i].a.start, events[i].a.data)
    requires !Covers(segs, 63)
    ensures Run(events[..i + 1], version).1 == [] && Run(events[..i + 1], version).0.body == segs
    ensures Apart(segs)
  {
    hide AddPiece, Covers, Apart, Versioned, AllGenuine, Run;
    var a := events[i].a;
    assert events[..i] + [Came(a)] == events[..i + 1];
    AllOfPrefix(events, i + 1, manifest, body);
    OneMore(events[..i], a, manifest, body, version, 63);
    StaysApart(Run(events[..i], version).0.body, a.start, a.data);
  }

  lemma AllOfPrefix(events: seq<Event>, n: nat, manifest: seq<byte>, body: seq<byte>)
    requires AllGenuine(events, manifest, body) && n <= |events|
    ensures AllGenuine(events[..n], manifest, body)
  {
  }

  /** The manifest's pieces leave the body as it was. */
  lemma {:induction false} ManifestFirst(events: seq<Event>, n: nat, manifest: seq<byte>, body: seq<byte>, version: nat)
    requires AllGenuine(events, manifest, body) && Versioned(body, version) && n <= |events| && |body| == 256
    requires forall i :: 0 <= i < n ==> events[i].Came? && events[i].a.manifest
    ensures Run(events[..n], version).1 == [] && Run(events[..n], version).0.body == []
  {
    hide Covers, Apart, Versioned, AllGenuine, Run;
    NoneCovered(63);
    if n == 0 {
      StartsFresh(version);
      assert events[..0] == [];
    } else {
      ManifestFirst(events, n - 1, manifest, body, version);
      BodyAfter(events, n - 1, [], manifest, body, version);
    }
  }

  /** For every manifest and every body of 256 bytes: the sender builds every piece, all bytes and both
      ends arrive, the last with the last piece, and nothing is handed on. */
  lemma AllThereIsNotEnough(manifest: seq<byte>, body: seq<byte>, version: nat)
    requires 0 < |manifest| <= 1024 && |body| == 256 && Versioned(body, version)
    ensures var events := LosingRun(manifest, body);
            && (forall i :: 0 <= i < |events| ==> Built(events[i], manifest, body))
            && Ready(events, manifest, body, version)
            && Run(events, version).1 == []
  {
    hide AddPiece, Covers, Apart, Versioned, AllGenuine, Ready, Run, Built, ManifestPieces;
    LosingIsBuilt(manifest, body);
    LosingBringsAll(manifest, body, version);
    var events, n := LosingRun(manifest, body), |ManifestPieces(manifest, 0)|;
    var upper, lower, piece := body[192..], body[64..128], body[..192];
    TwoSegments(upper, lower);
    StillMissing(upper, lower, piece);
    NoneCovered(63);
    AllManifest(manifest, body);
    ManifestFirst(events, n, manifest, body, version);
    BodyAfter(events, n, [Seg(192, upper)], manifest, body, version);
    BodyAfter(events, n + 1, [Seg(192, upper), Seg(64, lower)], manifest, body, version);
    BodyAfter(events, n + 2, AddPiece([Seg(192, upper), Seg(64, lower)], 0, piece), manifest, body, version);
    assert events[..n + 3] == events;
  }

  lemma AllManifest(manifest: seq<byte>, body: seq<byte>)
    requires 0 < |manifest| <= 1024 && |body| == 256
    ensures var events, m := LosingRun(manifest, body), ManifestPieces(manifest, 0);
            forall i :: 0 <= i < |m| ==> events[i].Came? && events[i].a.manifest
  {
    hide Built;
    ManifestBuilt(manifest, body, 0);
    var events, m := LosingRun(manifest, body), ManifestPieces(manifest, 0);
    forall i | 0 <= i < |m|
      ensures events[i].Came? && events[i].a.manifest
    {
      BuiltCame(m[i], manifest, body);
      assert events[i] == m[i];
    }
  }
}
