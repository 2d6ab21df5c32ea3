/** Receiving a bundle piece by piece: the record of a partial bundle, the completion test, and runs
    with loss, repeats, reordering and eviction. */
module PieceRun {
  import opened Bits
  import opened Segments
  import opened PieceMessage

  const JOURNAL := 0x1_0000_0000   // versions below this are lengths

  datatype Partial = Partial(manifest: seq<Seg>, body: seq<Seg>, manifestLen: int, bodyLen: int)

  /** A piece of the bundle that got through. */
  datatype Arrival = Arrival(manifest: bool, start: nat, data: seq<byte>, end: bool)

  datatype Handed = Handed(manifest: seq<byte>, body: seq<byte>)

  const FRESH := Partial([], [], -1, -1)

  ghost predicate Sorted(s: Partial) {
    Apart(s.manifest) && Apart(s.body)
  }

  /** What saw_piece does to the record, before it looks whether the bundle is whole. */
  ghost function Noted(s: Partial, a: Arrival, version: nat): (r: Partial)
    requires Sorted(s)
    ensures Sorted(r)
  {
    StaysApart(s.manifest, a.start, a.data);
    StaysApart(s.body, a.start, a.data);
    var end := a.start + |a.data|;
    Partial(if a.manifest then AddPiece(s.manifest, a.start, a.data) else s.manifest,
            if a.manifest then s.body else AddPiece(s.body, a.start, a.data),
            if a.end && a.manifest then end else s.manifestLen,
            if version < JOURNAL then version else if a.end && !a.manifest then end else s.bodyLen)
  }

  /** The completion test. */
  predicate Complete(s: Partial) {
    OneOf(s.manifest, s.manifestLen) && OneOf(s.body, s.bodyLen)
  }

  /** Afterwards: a whole bundle is handed on and the record released. */
  ghost function Stepped(s: Partial, a: Arrival, version: nat): (r: (Partial, seq<Handed>))
    requires Sorted(s)
    ensures Sorted(r.0)
  {
    var n := Noted(s, a, version);
    if Complete(n) then (FRESH, [Handed(n.manifest[0].data, n.body[0].data)]) else (n, [])
  }

  // ---------------------------------------------------------------- one version of one bundle

  ghost predicate Genuine(a: Arrival, manifest: seq<byte>, body: seq<byte>) {
    var stream := if a.manifest then manifest else body;
    && a.start + |a.data| <= |stream| && a.data == stream[a.start..a.start + |a.data|]
    && (a.end ==> a.start + |a.data| == |stream|)
  }

  /** The bundle's version is its length if it is a journal. */
  ghost predicate Versioned(body: seq<byte>, version: nat) {
    version < JOURNAL ==> version == |body|
  }

  /** Segments lie apart, bytes are the sender's, lengths are unknown or right. */
  ghost predicate Sound(s: Partial, manifest: seq<byte>, body: seq<byte>) {
    && Sorted(s) && AllAgree(s.manifest, manifest) && AllAgree(s.body, body)
    && (s.manifestLen == -1 || s.manifestLen == |manifest|) && (s.bodyLen == -1 || s.bodyLen == |body|)
  }

  lemma NotedSound(s: Partial, a: Arrival, manifest: seq<byte>, body: seq<byte>, version: nat)
    requires Sound(s, manifest, body) && Genuine(a, manifest, body) && Versioned(body, version)
    ensures Sound(Noted(s, a, version), manifest, body)
  {
    hide AddPiece, AllAgree, Apart;
    if a.manifest {
      StaysAgreed(s.manifest, a.start, a.data, manifest);
    } else {
      StaysAgreed(s.body, a.start, a.data, body);
    }
  }

  /** The test passes exactly when every byte and both lengths are there, and then it is the bundle. */
  lemma CompleteIff(s: Partial, manifest: seq<byte>, body: seq<byte>)
    requires Sound(s, manifest, body)
    ensures Complete(s) <==>
            && s.manifestLen >= 0 && s.manifest != [] && (forall x: nat :: x < |manifest| ==> Covers(s.manifest, x))
            && s.bodyLen >= 0 && s.body != [] && (forall x: nat :: x < |body| ==> Covers(s.body, x))
    ensures Complete(s) ==> s.manifest[0].data == manifest && s.body[0].data == body
  {
    hide Covers, AllAgree, Apart;
    WholeIff(s.manifest, manifest);
    WholeIff(s.body, body);
  }

  // ---------------------------------------------------------------- runs

  /** A piece arrives, the body's length is announced, or the record is given to another bundle and
      begins anew. */
  datatype Event = Came(a: Arrival) | Told(length: nat) | Evicted

  /** saw_length: where there is a record it takes the body's length down, and looks no further. */
  function WithLength(s: Partial, n: nat): (r: Partial) {
    if s.manifest == [] && s.body == [] then s else s.(bodyLen := n)
  }

  ghost function Run(events: seq<Event>, version: nat): (r: (Partial, seq<Handed>))
    ensures Sorted(r.0)
    decreases |events|
  {
    if events == [] then (FRESH, []) else
      var before := Run(events[..|events| - 1], version);
      match events[|events| - 1]
      case Evicted => (FRESH, before.1)
      case Told(n) => (WithLength(before.0, n), before.1)
      case Came(a) => var after := Stepped(before.0, a, version); (after.0, before.1 + after.1)
  }

  ghost predicate AllGenuine(events: seq<Event>, manifest: seq<byte>, body: seq<byte>) {
    forall i :: 0 <= i < |events| ==>
      (events[i].Came? ==> Genuine(events[i].a, manifest, body)) && (events[i].Told? ==> events[i].length == |body|)
  }

  /** Exactness: whatever the losses, repeats, order and evictions, everything handed on is
      byte for byte the sender's bundle. */
  lemma {:induction false} RunExact(events: seq<Event>, manifest: seq<byte>, body: seq<byte>, version: nat)
    requires AllGenuine(events, manifest, body) && Versioned(body, version)
    ensures Sound(Run(events, version).0, manifest, body)
    ensures forall i :: 0 <= i < |Run(events, version).1| ==> Run(events, version).1[i] == Handed(manifest, body)
    decreases |events|
  {
    hide Noted, Sound, Sorted, Complete;
    if events == [] {
      FreshSound(manifest, body);
    } else {
      var n := |events| - 1;
      RunExact(events[..n], manifest, body, version);
      var before := Run(events[..n], version);
      match events[n] {
        case Evicted => FreshSound(manifest, body);
        case Told(len) => ToldSound(before.0, manifest, body);
        case Came(a) =>
          NotedSound(before.0, a, manifest, body, version);
          CompleteIff(Noted(before.0, a, version), manifest, body);
          FreshSound(manifest, body);
      }
    }
  }

  lemma ToldSound(s: Partial, manifest: seq<byte>, body: seq<byte>)
    requires Sound(s, manifest, body)
    ensures Sound(WithLength(s, |body|), manifest, body)
  {
  }

  lemma FreshSound(manifest: seq<byte>, body: seq<byte>)
    ensures Sound(FRESH, manifest, body)
  {
  }

  // ---------------------------------------------------------------- progress

  ghost function ListOf(s: Partial, manifest: bool): (l: seq<Seg>) {
    if manifest then s.manifest else s.body
  }

  ghost function LenOf(s: Partial, manifest: bool): int {
    if manifest then s.manifestLen else s.bodyLen
  }

  /** The record accounts for a piece. */
  ghost predicate Seen(s: Partial, a: Arrival) {
    && ListOf(s, a.manifest) != [] && (a.end ==> LenOf(s, a.manifest) >= 0)
    && (forall x: nat :: a.start <= x < a.start + |a.data| ==> Covers(ListOf(s, a.manifest), x))
  }

  lemma NotedSees(s: Partial, a: Arrival, version: nat)
    requires Sorted(s) && !Swallows(ListOf(s, a.manifest), a.start, a.start + |a.data|)
    ensures Seen(Noted(s, a, version), a)
  {
    hide AddPiece, Covers, Apart, Swallows;
    PieceArrives(ListOf(s, a.manifest), a.start, a.data);
    SomethingArrives(ListOf(s, a.manifest), a.start, a.data);
  }

  lemma NotedKeeps(s: Partial, a: Arrival, version: nat, b: Arrival)
    requires Sorted(s) && Seen(s, b)
    ensures Seen(Noted(s, a, version), b)
  {
    hide AddPiece, Covers, Apart, Swallows;
    PieceArrives(ListOf(s, a.manifest), a.start, a.data);
    SomethingArrives(ListOf(s, a.manifest), a.start, a.data);
  }

  /** No eviction, and no piece that swallows a segment while touching a higher one. */
  ghost predicate Gentle(events: seq<Event>, version: nat) {
    forall i :: 0 <= i < |events| ==>
      !events[i].Evicted? && (events[i].Came? ==> GentlePiece(Run(events[..i], version).0, events[i].a))
  }

  ghost predicate GentlePiece(s: Partial, a: Arrival) {
    !Swallows(ListOf(s, a.manifest), a.start, a.start + |a.data|)
  }

  lemma GentlePrefix(events: seq<Event>, version: nat)
    requires events != [] && Gentle(events, version)
    ensures Gentle(events[..|events| - 1], version)
    ensures var e := events[|events| - 1];
            !e.Evicted? && (e.Came? ==> GentlePiece(Run(events[..|events| - 1], version).0, e.a))
  {
    hide Run, GentlePiece;
    var n := |events| - 1;
    forall i | 0 <= i < n
      ensures !events[..n][i].Evicted?
              && (events[..n][i].Came? ==> GentlePiece(Run(events[..n][..i], version).0, events[..n][i].a))
    {
      assert events[..n][..i] == events[..i];
    }
  }

  /** Until something is handed on, the record accounts for every piece that came. */
  lemma {:induction false} RunSees(events: seq<Event>, version: nat, i: nat)
    requires Gentle(events, version) && i < |events| && Run(events, version).1 == [] && events[i].Came?
    ensures Seen(Run(events, version).0, events[i].a)
    decreases |events|
  {
    hide Noted, Seen, Complete, Gentle, GentlePiece, Sorted;
    var n := |events| - 1;
    GentlePrefix(events, version);
    var before := Run(events[..n], version);
    assert before.1 == [];
    if i < n {
      RunSees(events[..n], version, i);
      if events[n].Came? {
        NotedKeeps(before.0, events[n].a, version, events[i].a);
      } else {
        ToldKeeps(before.0, events[n].length, events[i].a);
      }
    } else {
      IsGentle(before.0, events[n].a);
      NotedSees(before.0, events[n].a, version);
    }
  }

  lemma ToldKeeps(s: Partial, n: nat, b: Arrival)
    requires Seen(s, b)
    ensures Seen(WithLength(s, n), b)
  {
    hide Covers;
  }

  lemma IsGentle(s: Partial, a: Arrival)
    requires GentlePiece(s, a)
    ensures !Swallows(ListOf(s, a.manifest), a.start, a.start + |a.data|)
  {
  }

  // ---------------------------------------------------------------- what must have come

  ghost predicate Takes(a: Arrival, x: nat) {
    a.start <= x < a.start + |a.data|
  }

  ghost predicate Brought(events: seq<Event>, manifest: bool, x: nat) {
    exists i :: 0 <= i < |events| && events[i].Came? && events[i].a.manifest == manifest && Takes(events[i].a, x)
  }

  ghost predicate HasPiece(events: seq<Event>, manifest: bool) {
    exists i :: 0 <= i < |events| && events[i].Came? && events[i].a.manifest == manifest
  }

  ghost predicate HasEnd(events: seq<Event>, manifest: bool) {
    exists i :: 0 <= i < |events| && events[i].Came? && events[i].a.manifest == manifest && events[i].a.end
  }

  /** The pieces that came take in all of a stream, of which there is at least one. */
  ghost predicate AllThere(events: seq<Event>, manifest: bool, stream: seq<byte>) {
    HasPiece(events, manifest) && forall x: nat :: x < |stream| ==> Brought(events, manifest, x)
  }

  /** An announcement after the first piece. */
  ghost predicate TellsLength(events: seq<Event>) {
    exists i, j :: 0 <= i < j < |events| && events[i].Came? && events[j].Told?
  }

  /** The body's length: from its end piece, from an announcement, or from the version of a journal. */
  ghost predicate KnowsBody(events: seq<Event>, version: nat) {
    HasEnd(events, false) || TellsLength(events) || version < 0x1_0000_0000
  }

  /** A piece comes, and with it all of both streams and both lengths have come. */
  ghost predicate Ready(events: seq<Event>, manifest: seq<byte>, body: seq<byte>, version: nat) {
    && events != [] && events[|events| - 1].Came?
    && AllThere(events, true, manifest) && AllThere(events, false, body)
    && HasEnd(events, true) && KnowsBody(events, version)
  }

  /** What came among the first events came. */
  lemma CameBefore(events: seq<Event>, manifest: bool, version: nat)
    requires events != []
    ensures var front := events[..|events| - 1];
            && (HasPiece(front, manifest) ==> HasPiece(events, manifest)) && (HasEnd(front, manifest) ==> HasEnd(events, manifest))
            && (KnowsBody(front, version) ==> KnowsBody(events, version))
            && forall x: nat :: Brought(front, manifest, x) ==> Brought(events, manifest, x)
  {
    var front := events[..|events| - 1];
    assert forall i :: 0 <= i < |front| ==> front[i] == events[i];
  }

  // ---------------------------------------------------------------- nothing comes of nothing

  /** All that the record holds has come. */
  ghost predicate Accounted(s: Partial, events: seq<Event>, version: nat) {
    && ListAccounted(s.manifest, events, true) && ListAccounted(s.body, events, false)
    && (s.manifestLen >= 0 ==> HasEnd(events, true)) && (s.bodyLen >= 0 ==> KnowsBody(events, version))
  }

  ghost predicate ListAccounted(segs: seq<Seg>, events: seq<Event>, manifest: bool) {
    && (segs != [] ==> HasPiece(events, manifest))
    && forall x: nat :: Covers(segs, x) ==> Brought(events, manifest, x)
  }

  lemma ListKept(segs: seq<Seg>, events: seq<Event>, manifest: bool)
    requires events != [] && ListAccounted(segs, events[..|events| - 1], manifest)
    ensures ListAccounted(segs, events, manifest)
  {
    hide Covers, HasPiece, Brought;
    CameBefore(events, manifest, 0);
  }

  lemma PieceAccounted(segs: seq<Seg>, events: seq<Event>, a: Arrival)
    requires events != [] && events[|events| - 1] == Came(a) && Apart(segs)
    requires ListAccounted(segs, events[..|events| - 1], a.manifest)
    ensures ListAccounted(AddPiece(segs, a.start, a.data), events, a.manifest)
  {
    hide AddPiece, Covers, Apart, Swallows, HasPiece, Brought;
    PieceArrives(segs, a.start, a.data);
    CameBefore(events, a.manifest, 0);
    assert HasPiece(events, a.manifest) by { LastPiece(events); }
    forall x: nat | a.start <= x < a.start + |a.data|
      ensures Brought(events, a.manifest, x)
    {
      LastBrings(events, x);
    }
  }

  lemma LastPiece(events: seq<Event>)
    requires events != [] && events[|events| - 1].Came?
    ensures HasPiece(events, events[|events| - 1].a.manifest)
    ensures events[|events| - 1].a.end ==> HasEnd(events, events[|events| - 1].a.manifest)
  {
  }

  lemma LastBrings(events: seq<Event>, x: nat)
    requires events != [] && events[|events| - 1].Came? && Takes(events[|events| - 1].a, x)
    ensures Brought(events, events[|events| - 1].a.manifest, x)
  {
  }

  lemma NotedAccounted(s: Partial, events: seq<Event>, a: Arrival, version: nat)
    requires Sorted(s) && events != [] && events[|events| - 1] == Came(a) && Accounted(s, events[..|events| - 1], version)
    ensures Accounted(Noted(s, a, version), events, version)
  {
    hide AddPiece, Apart, ListAccounted, HasEnd, KnowsBody;
    CameBefore(events, true, version);
    CameBefore(events, false, version);
    LastPiece(events);
    ListKept(s.manifest, events, true);
    ListKept(s.body, events, false);
    if a.manifest { PieceAccounted(s.manifest, events, a); } else { PieceAccounted(s.body, events, a); }
    assert version < JOURNAL || HasEnd(events, false) ==> KnowsBody(events, version) by { LengthKnown(events, version); }
  }

  lemma LengthKnown(events: seq<Event>, version: nat)
    ensures version < JOURNAL || HasEnd(events, false) || TellsLength(events) ==> KnowsBody(events, version)
  {
    hide HasEnd, TellsLength;
  }

  lemma ToldAccounted(s: Partial, events: seq<Event>, n: nat, version: nat)
    requires events != [] && events[|events| - 1] == Told(n) && Accounted(s, events[..|events| - 1], version)
    ensures Accounted(WithLength(s, n), events, version)
  {
    hide ListAccounted, HasEnd, KnowsBody;
    CameBefore(events, true, version);
    CameBefore(events, false, version);
    ListKept(s.manifest, events, true);
    ListKept(s.body, events, false);
    if s.manifest != [] || s.body != [] {
      AfterPiece(s, events, n);
      LengthKnown(events, version);
    }
  }

  lemma AfterPiece(s: Partial, events: seq<Event>, n: nat)
    requires events != [] && events[|events| - 1] == Told(n) && (s.manifest != [] || s.body != [])
    requires ListAccounted(s.manifest, events[..|events| - 1], true) && ListAccounted(s.body, events[..|events| - 1], false)
    ensures TellsLength(events)
  {
    hide Covers;
    var front := events[..|events| - 1];
    var i :| 0 <= i < |front| && front[i].Came?;
    assert events[i] == front[i];
  }

  lemma FreshAccounted(events: seq<Event>, version: nat)
    ensures Accounted(FRESH, events, version)
  {
  }

  lemma {:induction false} RunAccounted(events: seq<Event>, version: nat)
    ensures Accounted(Run(events, version).0, events, version)
    decreases |events|
  {
    hide Accounted, Noted, Complete, Sorted, WithLength;
    FreshAccounted(events, version);
    if events != [] {
      var front, e := events[..|events| - 1], events[|events| - 1];
      RunAccounted(front, version);
      match e {
        case Evicted =>
        case Told(n) => ToldAccounted(Run(front, version).0, events, n, version);
        case Came(a) => NotedAccounted(Run(front, version).0, events, a, version);
      }
    }
  }

  /** What is handed on has come, whatever else happened: the event that hands it on makes it ready. */
  lemma HandedIsReady(events: seq<Event>, manifest: seq<byte>, body: seq<byte>, version: nat)
    requires AllGenuine(events, manifest, body) && Versioned(body, version) && events != []
    requires Run(events, version).1 != Run(events[..|events| - 1], version).1
    ensures Ready(events, manifest, body, version)
  {
    hide Accounted, Noted, Complete, Sorted, WithLength, Sound, AllGenuine, Versioned;
    var front := events[..|events| - 1];
    var s := Run(front, version).0;
    assert events[|events| - 1].Came? by { OnlyPieces(events, version); }
    var a := events[|events| - 1].a;
    FrontGenuine(events, manifest, body);
    RunExact(front, manifest, body, version);
    NotedSound(s, a, manifest, body, version);
    CompleteIff(Noted(s, a, version), manifest, body);
    RunAccounted(front, version);
    NotedAccounted(s, events, a, version);
    assert Complete(Noted(s, a, version)) by { Handing(events, version); }
    AccountedIsThere(Noted(s, a, version), events, manifest, body, version);
  }

  lemma OnlyPieces(events: seq<Event>, version: nat)
    requires events != [] && Run(events, version).1 != Run(events[..|events| - 1], version).1
    ensures events[|events| - 1].Came?
  {
    hide Stepped, WithLength;
  }

  lemma Handing(events: seq<Event>, version: nat)
    requires events != [] && events[|events| - 1].Came? && Run(events, version).1 != Run(events[..|events| - 1], version).1
    ensures Complete(Noted(Run(events[..|events| - 1], version).0, events[|events| - 1].a, version))
    ensures Run(events, version).0 == FRESH
  {
    hide Noted, Complete;
  }

  lemma FrontGenuine(events: seq<Event>, manifest: seq<byte>, body: seq<byte>)
    requires AllGenuine(events, manifest, body) && events != []
    ensures AllGenuine(events[..|events| - 1], manifest, body)
    ensures events[|events| - 1].Came? ==> Genuine(events[|events| - 1].a, manifest, body)
  {
    hide Genuine;
  }

  lemma AccountedIsThere(s: Partial, events: seq<Event>, manifest: seq<byte>, body: seq<byte>, version: nat)
    requires Accounted(s, events, version) && events != [] && events[|events| - 1].Came?
    requires s.manifestLen >= 0 && s.manifest != [] && (forall x: nat :: x < |manifest| ==> Covers(s.manifest, x))
    requires s.bodyLen >= 0 && s.body != [] && (forall x: nat :: x < |body| ==> Covers(s.body, x))
    ensures Ready(events, manifest, body, version)
  {
    hide Covers, HasPiece, Brought, HasEnd, KnowsBody;
  }

  // ---------------------------------------------------------------- and all of it is enough

  lemma RunCoversAll(events: seq<Event>, version: nat, manifest: bool, stream: seq<byte>)
    requires Gentle(events, version) && Run(events, version).1 == [] && AllThere(events, manifest, stream)
    ensures var s := Run(events, version).0;
            && ListOf(s, manifest) != [] && (HasEnd(events, manifest) ==> LenOf(s, manifest) >= 0)
            && forall x: nat :: x < |stream| ==> Covers(ListOf(s, manifest), x)
  {
    hide Run, Gentle, Covers;
    var s := Run(events, version).0;
    var p :| 0 <= p < |events| && events[p].Came? && events[p].a.manifest == manifest;
    RunSees(events, version, p);
    if HasEnd(events, manifest) {
      var e :| 0 <= e < |events| && events[e].Came? && events[e].a.manifest == manifest && events[e].a.end;
      RunSees(events, version, e);
    }
    forall x: nat | x < |stream|
      ensures Covers(ListOf(s, manifest), x)
    {
      assert Brought(events, manifest, x);
      var i :| 0 <= i < |events| && events[i].Came? && events[i].a.manifest == manifest && Takes(events[i].a, x);
      RunSees(events, version, i);
    }
  }

  /** An announcement after the first piece is taken down, and stays. */
  lemma {:induction false} RunKnows(events: seq<Event>, version: nat, i: nat, j: nat)
    requires Gentle(events, version) && Run(events, version).1 == []
    requires i < j < |events| && events[i].Came? && events[j].Told?
    ensures Run(events, version).0.bodyLen >= 0
    decreases |events|
  {
    hide Noted, Complete, Gentle, GentlePiece, Sorted, WithLength, Seen;
    var n := |events| - 1;
    GentlePrefix(events, version);
    var before := Run(events[..n], version).0;
    if j < n {
      RunKnows(events[..n], version, i, j);
      KeepsLength(before, events[n], version);
    } else {
      RunSees(events[..n], version, i);
      TakesLength(before, events[i].a, events[n].length);
    }
  }

  lemma TakesLength(s: Partial, a: Arrival, n: nat)
    requires Seen(s, a)
    ensures WithLength(s, n).bodyLen == n
  {
  }

  lemma KeepsLength(s: Partial, e: Event, version: nat)
    requires Sorted(s) && s.bodyLen >= 0
    ensures e.Came? ==> Noted(s, e.a, version).bodyLen >= 0
    ensures e.Told? ==> WithLength(s, e.length).bodyLen >= 0
  {
    hide AddPiece, Apart;
  }

  /** Of a journal every piece tells the body's length. */
  lemma JournalKnows(s: Partial, a: Arrival, version: nat)
    requires Sorted(s) && version < JOURNAL
    ensures Noted(s, a, version).bodyLen == version
  {
    hide AddPiece, Apart;
  }

  lemma LastNoted(events: seq<Event>, version: nat)
    requires events != [] && events[|events| - 1].Came? && Run(events, version).1 == []
    ensures var n := Noted(Run(events[..|events| - 1], version).0, events[|events| - 1].a, version);
            Run(events, version).0 == n && !Complete(n)
  {
    hide Noted, Complete, Sorted;
  }

  /** Once ready, the bundle has been handed on. */
  lemma ReadyIsHanded(events: seq<Event>, manifest: seq<byte>, body: seq<byte>, version: nat)
    requires AllGenuine(events, manifest, body) && Versioned(body, version) && Gentle(events, version)
    requires Ready(events, manifest, body, version)
    ensures Run(events, version).1 != []
  {
    hide Run, Gentle, Covers, AllThere, Complete, Sound, AllGenuine, Noted, HasEnd;
    if Run(events, version).1 == [] {
      RunExact(events, manifest, body, version);
      RunCoversAll(events, version, true, manifest);
      RunCoversAll(events, version, false, body);
      CompleteIff(Run(events, version).0, manifest, body);
      LastNoted(events, version);
      if version < JOURNAL { JournalKnows(Run(events[..|events| - 1], version).0, events[|events| - 1].a, version); }
      if TellsLength(events) {
        var i, j :| 0 <= i < j < |events| && events[i].Came? && events[j].Told?;
        RunKnows(events, version, i, j);
      }
    }
  }

  lemma GentleUpTo(events: seq<Event>, n: nat, manifest: seq<byte>, body: seq<byte>, version: nat)
    requires n <= |events| && Gentle(events, version) && AllGenuine(events, manifest, body)
    ensures Gentle(events[..n], version) && AllGenuine(events[..n], manifest, body)
  {
    hide Run, GentlePiece, Genuine;
    forall i | 0 <= i < n
      ensures !events[..n][i].Evicted? && (events[..n][i].Came? ==> GentlePiece(Run(events[..n][..i], version).0, events[..n][i].a))
    {
      assert events[..n][..i] == events[..i];
    }
  }

  lemma {:induction false} HandedStays(events: seq<Event>, n: nat, version: nat)
    requires n <= |events|
    ensures Run(events[..n], version).1 <= Run(events, version).1
    decreases |events|
  {
    hide Stepped, WithLength;
    if n < |events| {
      HandedStays(events[..|events| - 1], n, version);
      assert events[..|events| - 1][..n] == events[..n];
    } else {
      assert events[..n] == events;
    }
  }

  lemma {:induction false} FirstHanded(events: seq<Event>, version: nat) returns (n: nat)
    requires Run(events, version).1 != []
    ensures 0 < n <= |events| && Run(events[..n], version).1 != Run(events[..n - 1], version).1
    decreases |events|
  {
    hide Stepped, WithLength;
    var front := events[..|events| - 1];
    if Run(front, version).1 == [] {
      n := |events|;
      assert events[..n] == events;
    } else {
      n := FirstHanded(front, version);
      assert front[..n] == events[..n] && front[..n - 1] == events[..n - 1];
    }
  }

  /** Completion: in whatever order and with whatever repeats, the bundle is handed on if and only if some
      piece comes with which all of both streams and both lengths have come. */
  lemma RunCompletes(events: seq<Event>, manifest: seq<byte>, body: seq<byte>, version: nat)
    requires AllGenuine(events, manifest, body) && Versioned(body, version) && Gentle(events, version)
    ensures Run(events, version).1 != [] <==> exists n :: 0 < n <= |events| && Ready(events[..n], manifest, body, version)
    ensures Run(events, version).1 != [] ==> Run(events, version).1[0] == Handed(manifest, body)
  {
    hide Run, Gentle, AllGenuine, Ready;
    RunExact(events, manifest, body, version);
    if Run(events, version).1 != [] {
      var n := FirstHanded(events, version);
      GentleUpTo(events, n, manifest, body, version);
      assert events[..n][..n - 1] == events[..n - 1];
      HandedIsReady(events[..n], manifest, body, version);
    }
    forall n | 0 < n <= |events| && Ready(events[..n], manifest, body, version)
      ensures Run(events, version).1 != []
    {
      GentleUpTo(events, n, manifest, body, version);
      ReadyIsHanded(events[..n], manifest, body, version);
      HandedStays(events, n, version);
    }
  }

  lemma AfterOne(events: seq<Event>, e: Event, version: nat)
    ensures Run(events + [e], version) ==
            match e
            case Evicted => (FRESH, Run(events, version).1)
            case Told(n) => (WithLength(Run(events, version).0, n), Run(events, version).1)
            case Came(a) => var after := Stepped(Run(events, version).0, a, version); (after.0, Run(events, version).1 + after.1)
  {
    hide Stepped, WithLength;
    var all := events + [e];
    assert all[..|all| - 1] == events;
  }

  /** What has been handed on is done with: what comes after it starts from nothing. */
  lemma {:induction false} StartsAgain(events: seq<Event>, more: seq<Event>, version: nat)
    requires events != [] && Run(events, version).1 != Run(events[..|events| - 1], version).1
    ensures Run(events + more, version) == (Run(more, version).0, Run(events, version).1 + Run(more, version).1)
    decreases |more|
  {
    hide Stepped, WithLength, Run;
    NoEvents(version);
    if more == [] {
      OnlyPieces(events, version);
      Handing(events, version);
      assert events + more == events && Run(events, version).1 + [] == Run(events, version).1;
    } else {
      var n := |more| - 1;
      StartsAgain(events, more[..n], version);
      AfterOne(events + more[..n], more[n], version);
      AfterOne(more[..n], more[n], version);
      assert events + more[..n] + [more[n]] == events + more && more[..n] + [more[n]] == more;
      if more[n].Came? {
        var after := Stepped(Run(more[..n], version).0, more[n].a, version).1;
        assert (Run(events, version).1 + Run(more[..n], version).1) + after == Run(events, version).1 + (Run(more[..n], version).1 + after);
      }
    }
  }

  // ---------------------------------------------------------------- three small runs

  lemma FirstPiece(m: seq<byte>)
    requires m != []
    ensures AddPiece([], 0, m) == [Seg(0, m)]
  {
  }

  /** A manifest in one piece, to an empty record. */
  lemma ManifestCame(m: seq<byte>, version: nat)
    requires m != []
    ensures Sorted(FRESH) && !Complete(Noted(FRESH, Arrival(true, 0, m, true), version))
    ensures Noted(FRESH, Arrival(true, 0, m, true), version)
         == Partial([Seg(0, m)], [], |m|, if version < 0x1_0000_0000 then version else -1)
  {
    hide AddPiece;
    FirstPiece(m);
  }

  /** And a body in one piece, its length known. */
  lemma BodyCame(m: seq<byte>, b: seq<byte>, version: nat)
    requires m != [] && b != [] && (version < 0x1_0000_0000 ==> version == |b|)
    ensures var s := Partial([Seg(0, m)], [], |m|, |b|);
            Sorted(s) && Stepped(s, Arrival(false, 0, b, false), version) == (FRESH, [Handed(m, b)])
    ensures var s := Partial([Seg(0, m)], [], |m|, -1);
            Sorted(s) && (version >= 0x1_0000_0000 ==> Stepped(s, Arrival(false, 0, b, false), version).1 == [])
  {
    hide AddPiece;
    FirstPiece(b);
  }

  /** The body's length from an announcement: its one piece is not marked as an end. */
  lemma AnnouncedIsHanded(m: seq<byte>, b: seq<byte>, version: nat)
    requires m != [] && b != [] && version >= 0x1_0000_0000
    ensures Run([Came(Arrival(true, 0, m, true)), Told(|b|), Came(Arrival(false, 0, b, false))], version).1 == [Handed(m, b)]
  {
    hide Noted, Complete, Sorted, Run;
    var x, t, y := Came(Arrival(true, 0, m, true)), Told(|b|), Came(Arrival(false, 0, b, false));
    NoEvents(version);
    AfterOne([], x, version);
    AfterOne([x], t, version);
    AfterOne([x, t], y, version);
    assert [] + [x] == [x] && [x] + [t] == [x, t] && [x, t] + [y] == [x, t, y];
    ManifestCame(m, version);
    BodyCame(m, b, version);
  }

  lemma NoEvents(version: nat)
    ensures Run([], version) == (FRESH, [])
  {
  }

  /** Before the first piece an announcement is lost. */
  lemma EarlyIsLost(m: seq<byte>, b: seq<byte>, version: nat)
    requires m != [] && b != [] && version >= 0x1_0000_0000
    ensures Run([Told(|b|), Came(Arrival(true, 0, m, true)), Came(Arrival(false, 0, b, false))], version).1 == []
  {
    hide Noted, Complete, Sorted, Run;
    var x, t, y := Came(Arrival(true, 0, m, true)), Told(|b|), Came(Arrival(false, 0, b, false));
    NoEvents(version);
    AfterOne([], t, version);
    AfterOne([t], x, version);
    AfterOne([t, x], y, version);
    assert [] + [t] == [t] && [t] + [x] == [t, x] && [t, x] + [y] == [t, x, y];
    ManifestCame(m, version);
    BodyCame(m, b, version);
  }

  /** The body's length from the version, of a journal. */
  lemma JournalIsHanded(m: seq<byte>, b: seq<byte>)
    requires m != [] && b != [] && |b| < 0x1_0000_0000
    ensures Run([Came(Arrival(true, 0, m, true)), Came(Arrival(false, 0, b, false))], |b|).1 == [Handed(m, b)]
  {
    hide Noted, Complete, Sorted, Run;
    var x, y := Came(Arrival(true, 0, m, true)), Came(Arrival(false, 0, b, false));
    NoEvents(|b|);
    AfterOne([], x, |b|);
    AfterOne([x], y, |b|);
    assert [] + [x] == [x] && [x] + [y] == [x, y];
    ManifestCame(m, |b|);
    BodyCame(m, b, |b|);
  }

  // ---------------------------------------------------------------- from sender to record

  /** A message the sender builds arrives as a genuine piece, in packets of at most 255 bytes (the two
      callers of update_my_message pass 200 and 255), if its start is below 2^20 and the packet does not
      end with fewer than two bytes of data. */
  lemma BuiltIsGenuine(stream: seq<byte>, isManifest: bool, start: nat, room: int, bitmap: bool, to: (byte, byte),
                       bid: seq<byte>, version: nat, rest: seq<byte>, sid: (byte, byte), manifest: seq<byte>, body: seq<byte>)
    requires PlanPiece(start, |stream|, room, bitmap).Send? && start < MB && |bid| == 8 && version < Pow256(8)
    requires stream == if isManifest then manifest else body
    requires PlanPiece(start, |stream|, room, bitmap).bytes + |rest| >= 2
    requires room <= 255
    ensures var p := PlanPiece(start, |stream|, room, bitmap);
            && start + p.bytes <= |stream| && ValidHeader(Header(start, p.bytes, p.more, isManifest, to, bid, version))
            && var r := ParsePiece(HeaderBytes(Header(start, p.bytes, p.more, isManifest, to, bid, version))
                                   + stream[start..start + p.bytes] + rest, sid);
               && r.Parsed? && r.version == version && r.bid == bid && r.bytes == |r.data|
               && Genuine(Arrival(r.manifest, r.start, r.data, r.end), manifest, body)
  {
    hide PlanPiece, HeaderBytes, ParsePiece;
    var p := PlanPiece(start, |stream|, room, bitmap);
    PlanFits(start, |stream|, room, bitmap);
    if !p.more { EndIsReached(start, |stream|, room, bitmap); }
    var h := Header(start, p.bytes, p.more, isManifest, to, bid, version);
    ParseBuilt(h, stream[start..start + p.bytes], rest, sid);
  }
}
