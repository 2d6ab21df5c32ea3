/** Where the sender of pieces stands in a bundle's two streams (sync_announce_bundle_piece), and when
    a pass over the bundle tells the receiver how long they are. */
module PieceCursor {
  import opened PieceMessage
  import PieceWriter

  const MANIFEST_DONE := 1024
  const ANNOUNCEMENT := 21   // bytes of an announcement of the body's length

  /** A bundle to send, and where the peer has acknowledged it up to. */
  datatype Sending = Sending(manifestLen: nat, bodyLen: nat, manifestBound: nat, bodyBound: nat, bitmap: bool)

  datatype Cursor = Cursor(m: nat, b: nat)

  const START := Cursor(0, 0)

  function AtLeast(a: nat, b: nat): nat {
    if a < b then b else a
  }

  function ManifestAt(p: Sending, c: Cursor): nat {
    AtLeast(if c.m >= p.manifestLen then MANIFEST_DONE else c.m, p.manifestBound)
  }

  function BodyAt(p: Sending, c: Cursor): nat {
    AtLeast(c.b, p.bodyBound)
  }

  /** A manifest piece is tried only before the manifest's end. */
  function ManifestPlan(p: Sending, c: Cursor, room: int): (x: Plan) {
    if p.manifestBound < p.manifestLen && ManifestAt(p, c) < p.manifestLen
    then PlanPiece(ManifestAt(p, c), p.manifestLen, room, p.bitmap) else Nothing
  }

  function Moved(at: nat, x: Plan): nat {
    if x.Send? then at + x.bytes else at
  }

  /** What is left of the packet after the manifest's piece; the message may have outgrown it. */
  function RoomAfter(p: Sending, c: Cursor, room: int): int {
    room - MessageSize(ManifestAt(p, c), ManifestPlan(p, c, room))
  }

  /** With the manifest sent and the body not begun, or all sent, the body's length is announced, if
      that fits. */
  predicate Announces(p: Sending, c: Cursor, room: int) {
    && Moved(ManifestAt(p, c), ManifestPlan(p, c, room)) >= p.manifestLen
    && (c.b == 0 || c.b == p.bodyBound || c.b >= p.bodyLen) && RoomAfter(p, c, room) > ANNOUNCEMENT
  }

  /** The body gets what the manifest and the announcement have left. */
  function BodyRoom(p: Sending, c: Cursor, room: int): int {
    RoomAfter(p, c, room) - if Announces(p, c, room) then ANNOUNCEMENT else 0
  }

  /** A body piece is always tried. */
  function BodyPlan(p: Sending, c: Cursor, room: int): (x: Plan) {
    PlanPiece(BodyAt(p, c), p.bodyLen, BodyRoom(p, c, room), p.bitmap)
  }

  function Advanced(p: Sending, c: Cursor, room: int): (c': Cursor) {
    Cursor(Moved(ManifestAt(p, c), ManifestPlan(p, c, room)), Moved(BodyAt(p, c), BodyPlan(p, c, room)))
  }

  /** Both cursors are at their ends: the sender starts again. */
  predicate PassDone(p: Sending, c: Cursor) {
    c.b >= p.bodyLen && c.m >= p.manifestLen
  }

  function Next(p: Sending, c: Cursor, room: int): (c': Cursor) {
    if PassDone(p, Advanced(p, c, room)) then START else Advanced(p, c, room)
  }

  class TxCursor {
    var manifestOffset: nat
    var bodyOffset: nat

    constructor ()
      ensures View() == START
    {
      manifestOffset, bodyOffset := 0, 0;
    }

    function View(): Cursor
      reads this
    {
      Cursor(manifestOffset, bodyOffset)
    }

    /** sync_announce_bundle_piece, from the manifest's end test on, with so much room in the packet;
        what it has appended is the manifest's piece, the announcement and the body's piece. */
    method Announce(p: Sending, room: int) returns (manifest: Plan, announced: bool, body: Plan)
      modifies this
      ensures manifest == ManifestPlan(p, old(View()), room) && announced == Announces(p, old(View()), room)
      ensures body == BodyPlan(p, old(View()), room) && View() == Next(p, old(View()), room)
    {
      hide PlanPiece, ManifestPlan, ManifestAt, AtLeast, MessageSize;
      var left;
      manifest, left := AnnounceManifest(p, room);
      announced := false;
      if manifestOffset >= p.manifestLen {
        if bodyOffset == 0 || bodyOffset == p.bodyBound || bodyOffset >= p.bodyLen {
          if left > 1 + 8 + 8 + 4 {
            announced := true;
            left := left - 21;
          }
        }
      }
      body := AnnounceBody(p, left);
      if bodyOffset >= p.bodyLen && manifestOffset >= p.manifestLen {
        bodyOffset, manifestOffset := 0, 0;
      }
    }

    method AnnounceManifest(p: Sending, room: int) returns (manifest: Plan, left: int)
      modifies this`manifestOffset
      ensures manifest == ManifestPlan(p, old(View()), room) && left == RoomAfter(p, old(View()), room)
      ensures manifestOffset == Moved(ManifestAt(p, old(View())), manifest)
    {
      hide PlanPiece;
      if manifestOffset >= p.manifestLen { manifestOffset := MANIFEST_DONE; }
      if manifestOffset < p.manifestBound { manifestOffset := p.manifestBound; }
      manifest, left := Nothing, room;
      if p.manifestBound < p.manifestLen {
        if manifestOffset < p.manifestLen {
          manifest := PieceWriter.Decide(manifestOffset, p.manifestLen, room, p.bitmap);
          left := room - MessageSize(manifestOffset, manifest);
          if manifest.Send? { manifestOffset := manifestOffset + manifest.bytes; }
        }
      }
    }

    method AnnounceBody(p: Sending, room: int) returns (body: Plan)
      modifies this`bodyOffset
      ensures body == PlanPiece(AtLeast(old(bodyOffset), p.bodyBound), p.bodyLen, room, p.bitmap)
      ensures bodyOffset == Moved(AtLeast(old(bodyOffset), p.bodyBound), body)
    {
      hide PlanPiece;
      if bodyOffset < p.bodyBound { bodyOffset := p.bodyBound; }
      body := PieceWriter.Decide(bodyOffset, p.bodyLen, room, p.bitmap);
      if body.Send? { bodyOffset := bodyOffset + body.bytes; }
    }
  }

  // ---------------------------------------------------------------- one pass

  /** The cursors after these calls, if no call before the last ended the pass. */
  function At(p: Sending, rs: seq<int>): (c: Cursor) {
    if rs == [] then START else Advanced(p, At(p, rs[..|rs| - 1]), rs[|rs| - 1])
  }

  ghost predicate InPass(p: Sending, rs: seq<int>) {
    forall k :: 0 < k < |rs| ==> !PassDone(p, At(p, rs[..k]))
  }

  function RunOf(p: Sending, c: Cursor, rs: seq<int>): (c': Cursor) {
    if rs == [] then c else Next(p, RunOf(p, c, rs[..|rs| - 1]), rs[|rs| - 1])
  }

  /** Within a pass that is what the calls do; the last call of a pass goes back to the start. */
  lemma {:induction false} PassRuns(p: Sending, rs: seq<int>)
    requires InPass(p, rs) && rs != []
    ensures RunOf(p, START, rs) == if PassDone(p, At(p, rs)) then START else At(p, rs)
  {
    hide Advanced, PassDone;
    var n := |rs| - 1;
    if n > 0 {
      forall k | 0 < k < n
        ensures !PassDone(p, At(p, rs[..n][..k]))
      {
        assert rs[..n][..k] == rs[..k];
      }
      PassRuns(p, rs[..n]);
    }
  }

  ghost predicate Sound(p: Sending) {
    p.manifestLen <= MANIFEST_DONE
  }

  /** The room each call finds in its packet: of at most 255 bytes. */
  ghost predicate Packets(rs: seq<int>) {
    forall i :: 0 <= i < |rs| ==> rs[i] <= 255
  }

  ghost predicate ManifestEnded(p: Sending, rs: seq<int>) {
    exists i :: 0 <= i < |rs| && EndPiece(ManifestPlan(p, At(p, rs[..i]), rs[i]))
  }

  ghost predicate BodyEnded(p: Sending, rs: seq<int>) {
    exists i :: 0 <= i < |rs| && EndPiece(BodyPlan(p, At(p, rs[..i]), rs[i]))
  }

  predicate EndPiece(x: Plan) {
    x.Send? && !x.more
  }

  /** What is left of a stream fills the packet exactly, so that it is not seen to be the end. */
  predicate FillsExactly(at: nat, len: nat, room: int, bitmap: bool) {
    len - at == MaxBytes(at, room) && (!bitmap || len % 64 == 0)
  }

  /** An end piece goes to the end; a piece that goes there is an end piece unless it fills the packet. */
  lemma OnePiece(at: nat, len: nat, room: int, bitmap: bool)
    requires room <= 255 && at <= len
    ensures var x := PlanPiece(at, len, room, bitmap);
            && Moved(at, x) <= len && (EndPiece(x) ==> Moved(at, x) == len)
            && (at < len && Moved(at, x) == len ==> (EndPiece(x) <==> !FillsExactly(at, len, room, bitmap)))
            && (at == len ==> (EndPiece(x) <==> MaxBytes(at, room) >= 1))
  {
    hide PlanPiece;
    var x := PlanPiece(at, len, room, bitmap);
    if x.Send? {
      PlanFits(at, len, room, bitmap);
      if !x.more { EndIsReached(at, len, room, bitmap); }
      if Moved(at, x) == len { EndIsMarked(at, len, room, bitmap); }
    }
    AtTheEnd(at, room, bitmap);
  }

  /** At the end there is nothing to send but the fact that it is the end. */
  lemma AtTheEnd(at: nat, room: int, bitmap: bool)
    ensures PlanPiece(at, at, room, bitmap) == if MaxBytes(at, room) >= 1 then Send(0, false) else GiveUp
  {
  }

  /** The manifest's cursor before step i, once bounded. */
  function ManifestFrom(p: Sending, rs: seq<int>, i: nat): nat
    requires i <= |rs|
  {
    ManifestAt(p, At(p, rs[..i]))
  }

  function BodyFrom(p: Sending, rs: seq<int>, i: nat): nat
    requires i <= |rs|
  {
    BodyAt(p, At(p, rs[..i]))
  }

  function BodyRoomAt(p: Sending, rs: seq<int>, i: nat): int
    requires i < |rs|
  {
    BodyRoom(p, At(p, rs[..i]), rs[i])
  }

  lemma StepAt(p: Sending, rs: seq<int>, i: nat)
    requires i < |rs|
    ensures At(p, rs[..i + 1]) == Advanced(p, At(p, rs[..i]), rs[i])
  {
    assert rs[..i + 1][..i] == rs[..i];
  }

  lemma AtStart(p: Sending, rs: seq<int>)
    ensures At(p, rs[..0]) == START
  {
  }

  lemma ManifestStep(p: Sending, rs: seq<int>, i: nat)
    requires Sound(p) && Packets(rs) && i < |rs| && p.manifestBound < p.manifestLen
    ensures var m, m', x := ManifestFrom(p, rs, i), ManifestFrom(p, rs, i + 1), ManifestPlan(p, At(p, rs[..i]), rs[i]);
            && (m >= p.manifestLen ==> !EndPiece(x) && m' >= p.manifestLen)
            && (m < p.manifestLen ==> (EndPiece(x) ==> m' >= p.manifestLen)
                                      && (m' >= p.manifestLen ==> (EndPiece(x) <==> !FillsExactly(m, p.manifestLen, rs[i], p.bitmap))))
  {
    hide PlanPiece, FillsExactly, EndPiece, At, MaxBytes;
    StepAt(p, rs, i);
    NothingIsNoEnd();
    if ManifestFrom(p, rs, i) < p.manifestLen {
      OnePiece(ManifestFrom(p, rs, i), p.manifestLen, rs[i], p.bitmap);
    }
  }

  lemma NothingIsNoEnd()
    ensures !EndPiece(Nothing)
  {
  }

  lemma BodyStep(p: Sending, rs: seq<int>, i: nat)
    requires Packets(rs) && i < |rs| && BodyFrom(p, rs, i) <= p.bodyLen
    ensures var b, b', x := BodyFrom(p, rs, i), BodyFrom(p, rs, i + 1), BodyPlan(p, At(p, rs[..i]), rs[i]);
            && b <= b' <= p.bodyLen && (EndPiece(x) ==> b' == p.bodyLen)
            && (b < p.bodyLen && b' == p.bodyLen ==> (EndPiece(x) <==> !FillsExactly(b, p.bodyLen, BodyRoomAt(p, rs, i), p.bitmap)))
            && (b == p.bodyLen ==> (EndPiece(x) <==> MaxBytes(b, BodyRoomAt(p, rs, i)) >= 1))
  {
    hide PlanPiece, FillsExactly, EndPiece, At, MaxBytes;
    StepAt(p, rs, i);
    OnePiece(BodyFrom(p, rs, i), p.bodyLen, BodyRoomAt(p, rs, i), p.bitmap);
  }

  // ---------------------------------------------------------------- the manifest's end

  /** The call in which the manifest's cursor reaches the end. */
  lemma {:induction false} ReachesManifest(p: Sending, rs: seq<int>, n: nat) returns (k: nat)
    requires Sound(p) && Packets(rs) && n <= |rs| && p.manifestBound < p.manifestLen
    requires ManifestFrom(p, rs, n) >= p.manifestLen
    ensures k < n && ManifestFrom(p, rs, k) < p.manifestLen <= ManifestFrom(p, rs, k + 1)
    ensures forall i :: 0 <= i <= k ==> ManifestFrom(p, rs, i) < p.manifestLen
    ensures forall i :: k < i <= n ==> ManifestFrom(p, rs, i) >= p.manifestLen
  {
    hide ManifestFrom, ManifestPlan, EndPiece, FillsExactly, Packets;
    StartsBefore(p, rs);
    if ManifestFrom(p, rs, n - 1) >= p.manifestLen {
      k := ReachesManifest(p, rs, n - 1);
    } else {
      k := n - 1;
      forall i | 0 <= i <= k
        ensures ManifestFrom(p, rs, i) < p.manifestLen
      {
        if ManifestFrom(p, rs, i) >= p.manifestLen { StaysAtEnd(p, rs, i, k); }
      }
    }
  }

  lemma StartsBefore(p: Sending, rs: seq<int>)
    requires p.manifestBound < p.manifestLen
    ensures ManifestFrom(p, rs, 0) < p.manifestLen
  {
    assert rs[..0] == [];
  }

  lemma {:induction false} StaysAtEnd(p: Sending, rs: seq<int>, i: nat, k: nat)
    requires Sound(p) && Packets(rs) && i <= k <= |rs| && p.manifestBound < p.manifestLen
    requires ManifestFrom(p, rs, i) >= p.manifestLen
    ensures ManifestFrom(p, rs, k) >= p.manifestLen
  {
    hide ManifestFrom, ManifestPlan, EndPiece, FillsExactly;
    if i < k {
      StaysAtEnd(p, rs, i, k - 1);
      ManifestStep(p, rs, k - 1);
    }
  }

  /** A pass tells the receiver the manifest's length just if the piece that reached its end did not
      fill its packet: no manifest piece follows that one. */
  lemma ManifestEnd(p: Sending, rs: seq<int>) returns (k: nat)
    requires Sound(p) && Packets(rs) && p.manifestBound < p.manifestLen && ManifestFrom(p, rs, |rs|) >= p.manifestLen
    ensures k < |rs| && ManifestFrom(p, rs, k) < p.manifestLen <= ManifestFrom(p, rs, k + 1)
    ensures forall i :: k < i < |rs| ==> ManifestPlan(p, At(p, rs[..i]), rs[i]) == Nothing
    ensures ManifestEnded(p, rs) <==> !FillsExactly(ManifestFrom(p, rs, k), p.manifestLen, rs[k], p.bitmap)
  {
    hide FillsExactly, EndPiece, PlanPiece, Packets, MaxBytes, At;
    k := ReachesManifest(p, rs, |rs|);
    forall i | 0 <= i < |rs|
      ensures EndPiece(ManifestPlan(p, At(p, rs[..i]), rs[i]))
              <==> i == k && !FillsExactly(ManifestFrom(p, rs, k), p.manifestLen, rs[k], p.bitmap)
    {
      ManifestStep(p, rs, i);
      if i < k { assert ManifestFrom(p, rs, i + 1) < p.manifestLen; }
    }
    forall i | k < i < |rs|
      ensures ManifestPlan(p, At(p, rs[..i]), rs[i]) == Nothing
    {
      assert ManifestFrom(p, rs, i) >= p.manifestLen;
    }
  }

  // ---------------------------------------------------------------- the body's end

  lemma {:induction false} BodyInside(p: Sending, rs: seq<int>, i: nat, n: nat)
    requires Packets(rs) && i <= n <= |rs| && p.bodyBound <= p.bodyLen
    ensures BodyFrom(p, rs, i) <= BodyFrom(p, rs, n) <= p.bodyLen
    decreases n
  {
    hide BodyPlan, EndPiece, FillsExactly, Packets;
    if n == 0 {
      assert rs[..0] == [];
    } else if i == n {
      BodyInside(p, rs, n - 1, n - 1);
      BodyStep(p, rs, n - 1);
    } else {
      BodyInside(p, rs, i, n - 1);
      BodyStep(p, rs, n - 1);
    }
  }

  /** The body is tried once more at its end, if its pass goes on: so its length is told just if the
      piece that reached the end did not fill its packet, or a later call of the pass has room for a
      piece of no bytes. */
  lemma BodyEnd(p: Sending, rs: seq<int>, k: nat)
    requires Packets(rs) && k < |rs| && p.bodyBound <= p.bodyLen
    requires BodyFrom(p, rs, k) < p.bodyLen == BodyFrom(p, rs, k + 1)
    ensures BodyEnded(p, rs) <==>
            || !FillsExactly(BodyFrom(p, rs, k), p.bodyLen, BodyRoomAt(p, rs, k), p.bitmap)
            || exists j :: k < j < |rs| && MaxBytes(p.bodyLen, BodyRoomAt(p, rs, j)) >= 1
  {
    hide FillsExactly, EndPiece, PlanPiece, Packets, MaxBytes, At;
    forall i | 0 <= i < |rs|
      ensures EndPiece(BodyPlan(p, At(p, rs[..i]), rs[i])) <==>
              || (i == k && !FillsExactly(BodyFrom(p, rs, k), p.bodyLen, BodyRoomAt(p, rs, k), p.bitmap))
              || (i > k && MaxBytes(p.bodyLen, BodyRoomAt(p, rs, i)) >= 1)
    {
      BodyInside(p, rs, i, i);
      BodyStep(p, rs, i);
      if i < k { BodyInside(p, rs, i + 1, k); }
      if i > k { BodyInside(p, rs, k + 1, i); }
    }
    if exists j :: k < j < |rs| && MaxBytes(p.bodyLen, BodyRoomAt(p, rs, j)) >= 1 {
      var j :| k < j < |rs| && MaxBytes(p.bodyLen, BodyRoomAt(p, rs, j)) >= 1;
      assert EndPiece(BodyPlan(p, At(p, rs[..j]), rs[j]));
    }
    if !FillsExactly(BodyFrom(p, rs, k), p.bodyLen, BodyRoomAt(p, rs, k), p.bitmap) {
      assert EndPiece(BodyPlan(p, At(p, rs[..k]), rs[k]));
    }
  }

  // ---------------------------------------------------------------- when the body's length is announced

  /** Bytes of the body sent in the first n calls of a pass. */
  function BodySent(p: Sending, rs: seq<int>, n: nat): (t: nat)
    requires n <= |rs|
  {
    if n == 0 then 0 else
      var x := BodyPlan(p, At(p, rs[..n - 1]), rs[n - 1]);
      BodySent(p, rs, n - 1) + if x.Send? then x.bytes else 0
  }

  lemma {:induction false} BodyStands(p: Sending, rs: seq<int>, n: nat)
    requires 0 < n <= |rs|
    ensures At(p, rs[..n]).b == p.bodyBound + BodySent(p, rs, n)
  {
    hide At, BodyPlan;
    StepAt(p, rs, n - 1);
    if n > 1 { BodyStands(p, rs, n - 1); } else { AtStart(p, rs); }
  }

  /** A call announces the body's length exactly if the whole manifest is sent by then, more than 21 bytes are left
      behind its piece, and of what the peer lacks of the body this pass has sent nothing yet, or all. */
  lemma ToldWhen(p: Sending, rs: seq<int>, i: nat)
    requires i < |rs|
    ensures Announces(p, At(p, rs[..i]), rs[i]) <==>
            && At(p, rs[..i + 1]).m >= p.manifestLen && RoomAfter(p, At(p, rs[..i]), rs[i]) > 21
            && (BodySent(p, rs, i) == 0 || p.bodyBound + BodySent(p, rs, i) >= p.bodyLen)
  {
    hide At, ManifestPlan, ManifestAt, RoomAfter;
    StepAt(p, rs, i);
    if i > 0 { BodyStands(p, rs, i); } else { AtStart(p, rs); }
  }

  // ---------------------------------------------------------------- every pass ends

  /** Room for a 64-byte unit, whatever the offset, and the announcement. */
  ghost predicate Roomy(rs: seq<int>) {
    forall i :: 0 <= i < |rs| ==> rs[i] >= 87 + ANNOUNCEMENT
  }

  lemma MovesOn(at: nat, len: nat, room: int, bitmap: bool)
    requires 87 <= room <= 255 && at < len
    ensures Moved(at, PlanPiece(at, len, room, bitmap)) >= at + 1
  {
  }

  /** After n calls the manifest is n bytes on or sent, and the body as far as calls were left for it. */
  lemma {:induction false} Progress(p: Sending, rs: seq<int>, n: nat)
    requires Sound(p) && Packets(rs) && Roomy(rs) && n <= |rs|
    ensures At(p, rs[..n]).m >= (if n < p.manifestLen then n else p.manifestLen)
    ensures n > p.manifestLen ==> At(p, rs[..n]).b >= (if n - p.manifestLen < p.bodyLen then n - p.manifestLen else p.bodyLen)
  {
    hide PlanPiece, At, MaxBytes, MessageSize, BodyPlan;
    if n == 0 {
      AtStart(p, rs);
    } else {
      Progress(p, rs, n - 1);
      StepAt(p, rs, n - 1);
      var c, room := At(p, rs[..n - 1]), rs[n - 1];
      if ManifestAt(p, c) < p.manifestLen { MovesOn(ManifestAt(p, c), p.manifestLen, room, p.bitmap); }
      if c.m >= p.manifestLen { BodyMovesOn(p, c, room); }
    }
  }

  /** With the manifest sent, the body gets a whole unit or more. */
  lemma BodyMovesOn(p: Sending, c: Cursor, room: int)
    requires Sound(p) && c.m >= p.manifestLen && 87 + ANNOUNCEMENT <= room <= 255
    ensures var b := Moved(BodyAt(p, c), BodyPlan(p, c, room)); b >= c.b && (c.b < p.bodyLen ==> b >= c.b + 1)
  {
    hide PlanPiece, MaxBytes;
    assert BodyRoom(p, c, room) >= 87;
    if BodyAt(p, c) < p.bodyLen { MovesOn(BodyAt(p, c), p.bodyLen, BodyRoom(p, c, room), p.bitmap); }
  }

  /** With room for a unit and the announcement in every packet, a pass takes no more calls than the
      two streams have bytes. */
  lemma PassEnds(p: Sending, rs: seq<int>)
    requires Sound(p) && Packets(rs) && Roomy(rs) && |rs| >= p.manifestLen + p.bodyLen
    ensures PassDone(p, At(p, rs))
  {
    hide Advanced;
    Progress(p, rs, |rs|);
    assert rs[..|rs|] == rs;
  }

  // ---------------------------------------------------------------- a bundle whose end is never marked

  /** A manifest of 128 bytes, sent whole into 149 bytes of packet, without its end mark. */
  lemma FullPacket()
    ensures PlanPiece(0, 128, 149, true) == Send(128, true) && FillsExactly(0, 128, 149, true)
    ensures MessageSize(0, Send(128, true)) == 151
  {
  }

  const SMALL := Sending(128, 128, 0, 0, true)

  /** The manifest fills one packet and leaves nothing for the body. */
  lemma FirstCall()
    ensures ManifestPlan(SMALL, START, 149) == Send(128, true) && BodyPlan(SMALL, START, 149) == GiveUp
    ensures !Announces(SMALL, START, 149) && Next(SMALL, START, 149) == Cursor(128, 0)
  {
    hide PlanPiece, FillsExactly;
    FullPacket();
    NoRoom();
  }

  lemma NoRoom()
    ensures PlanPiece(0, 128, -2, true) == GiveUp
  {
  }

  /** The body's length is announced, and the body fills the rest of the next. */
  lemma SecondCall()
    ensures ManifestPlan(SMALL, Cursor(128, 0), 170) == Nothing && BodyPlan(SMALL, Cursor(128, 0), 170) == Send(128, true)
    ensures Announces(SMALL, Cursor(128, 0), 170) && Next(SMALL, Cursor(128, 0), 170) == START
  {
    hide PlanPiece, FillsExactly;
    FullPacket();
  }

  function Alternating(n: nat): (rs: seq<int>)
    ensures |rs| == 2 * n
  {
    if n == 0 then [] else Alternating(n - 1) + [149, 170]
  }

  /** Neither piece of the call is marked as an end. */
  ghost predicate Unmarked(c: Cursor, room: int) {
    !EndPiece(ManifestPlan(SMALL, c, room)) && !EndPiece(BodyPlan(SMALL, c, room))
  }

  lemma BothUnmarked()
    ensures Unmarked(START, 149) && Unmarked(Cursor(128, 0), 170)
  {
    hide ManifestPlan, BodyPlan;
    FirstCall();
    SecondCall();
  }

  lemma RunStep(p: Sending, c: Cursor, rs: seq<int>, k: nat)
    requires k < |rs|
    ensures RunOf(p, c, rs[..k + 1]) == Next(p, RunOf(p, c, rs[..k]), rs[k])
  {
    assert rs[..k + 1][..k] == rs[..k];
  }

  lemma LastTwo(n: nat)
    requires n > 0
    ensures var rs := Alternating(n);
            rs[..2 * n - 2] == Alternating(n - 1) && rs[2 * n - 2] == 149 && rs[2 * n - 1] == 170 && rs[..2 * n] == rs
  {
  }

  /** Manifest and body of 128 bytes, and packets with 149 and 170 bytes of room in turn: the sender goes
      round for ever, and no piece is ever marked as an end; so the manifest's length is never told. */
  lemma {:induction false} NeverTold(n: nat)
    ensures RunOf(SMALL, START, Alternating(n)) == START
    ensures forall i :: 0 <= i < 2 * n ==> Unmarked(RunOf(SMALL, START, Alternating(n)[..i]), Alternating(n)[i])
  {
    hide Next, Unmarked, SMALL, Alternating, RunOf;
    if n == 0 {
      NoCalls();
    } else {
      NeverTold(n - 1);
      FirstCall();
      SecondCall();
      BothUnmarked();
      LastTwo(n);
      var rs, m := Alternating(n), 2 * n - 2;
      RunStep(SMALL, START, rs, m);
      RunStep(SMALL, START, rs, m + 1);
      forall i | 0 <= i < 2 * n
        ensures Unmarked(RunOf(SMALL, START, rs[..i]), rs[i])
      {
        if i < m { assert rs[..i] == rs[..m][..i] && rs[i] == rs[..m][i]; }
      }
    }
  }

  lemma NoCalls()
    ensures RunOf(SMALL, START, Alternating(0)) == START
  {
  }
}
