/** The record of a partial bundle, updated in place as pieces arrive (saw_piece). */
module PieceReceiver {
  import opened Bits
  import opened Segments
  import opened SegmentList
  import opened PieceRun

  class PartialBundle {
    const manifestSegments: SegList
    const bodySegments: SegList
    var manifestLength: int
    var bodyLength: int
    var handed: seq<Handed>      // bundles handed to rhizome_update_bundle

    ghost predicate Valid()
      reads this, manifestSegments, bodySegments, manifestSegments.nodes, bodySegments.nodes
    {
      && manifestSegments != bodySegments && Separate(manifestSegments.nodes, bodySegments.nodes)
      && manifestSegments.Linked() && bodySegments.Linked()
      && Apart(manifestSegments.View()) && Apart(bodySegments.View())
    }

    ghost function View(): (s: Partial)
      reads this, manifestSegments, bodySegments, manifestSegments.nodes, bodySegments.nodes
    {
      Partial(manifestSegments.View(), bodySegments.View(), manifestLength, bodyLength)
    }

    constructor ()
      ensures Valid() && View() == FRESH && handed == []
    {
      manifestSegments := new SegList();
      bodySegments := new SegList();
      manifestLength, bodyLength, handed := -1, -1, [];
    }

    /** clear_partial, and preparing the record again. */
    method Reset()
      requires Valid()
      modifies this`manifestLength, this`bodyLength, manifestSegments, bodySegments
      ensures Valid() && View() == FRESH
    {
      manifestSegments.Clear();
      bodySegments.Clear();
      manifestLength, bodyLength := -1, -1;
    }

    /** Notes the length of a stream from its end piece, and of a journal's body from its version. */
    method NoteLength(manifest: bool, end: nat, isEnd: bool, version: nat)
      modifies this`manifestLength, this`bodyLength
      ensures manifestLength == if isEnd && manifest then end else old(manifestLength)
      ensures bodyLength == if version < JOURNAL then version else if isEnd && !manifest then end else old(bodyLength)
    {
      if isEnd {
        if manifest { manifestLength := end; } else { bodyLength := end; }
      }
      if version < 0x1_0000_0000 { bodyLength := version; }
    }

    /** The piece goes into its list; both lists are merged, which leaves the other as it is. */
    method NotePiece(manifest: bool, start: nat, piece: seq<byte>)
      requires Valid()
      modifies manifestSegments, bodySegments, manifestSegments.nodes, bodySegments.nodes
      ensures Valid()
      ensures manifestSegments.View() == if manifest then AddPiece(old(manifestSegments.View()), start, piece)
                                         else old(manifestSegments.View())
      ensures bodySegments.View() == if manifest then old(bodySegments.View())
                                     else AddPiece(old(bodySegments.View()), start, piece)
    {
      hide AddPiece, Apart, Merged, SegList.View, SegList.Linked, EndsDescend;
      ghost var ms, bs := manifestSegments.nodes, bodySegments.nodes;
      MergedApart(manifestSegments.View());
      MergedApart(bodySegments.View());
      if manifest {
        manifestSegments.AddPiece(start, piece);
        assert forall i :: 0 <= i < |manifestSegments.nodes| ==> manifestSegments.nodes[i] in ms || manifestSegments.nodes[i] !in bs;
        bodySegments.MergeSegments();
        StillSeparate(ms, bs, manifestSegments.nodes, bodySegments.nodes);
      } else {
        bodySegments.AddPiece(start, piece);
        assert forall i :: 0 <= i < |bodySegments.nodes| ==> bodySegments.nodes[i] in bs || bodySegments.nodes[i] !in ms;
        manifestSegments.MergeSegments();
        StillSeparate(bs, ms, bodySegments.nodes, manifestSegments.nodes);
      }
    }

    /** The whole step: the piece is noted, and a whole bundle is handed on and the record released. */
    method SawPiece(a: Arrival, version: nat)
      requires Valid()
      modifies this, manifestSegments, bodySegments, manifestSegments.nodes, bodySegments.nodes
      ensures Valid()
      ensures View() == Stepped(old(View()), a, version).0
      ensures handed == old(handed) + Stepped(old(View()), a, version).1
    {
      hide AddPiece, Apart, SegList.Linked, SegList.View, Separate, Complete;
      NoteLength(a.manifest, a.start + |a.data|, a.end, version);
      NotePiece(a.manifest, a.start, a.data);
      assert View() == Noted(old(View()), a, version);
      var whole := IsWhole();
      if whole {
        handed := handed + [Handed(manifestSegments.head.data, bodySegments.head.data)];
        Reset();
      }
    }

    /** saw_length: where there is a record, it takes down the body's announced length. */
    method SawLength(length: nat)
      requires Valid()
      modifies this`bodyLength
      ensures Valid() && View() == WithLength(old(View()), length)
    {
      hide Apart, Complete, SegList.Linked, SegList.View, Separate;
      var none := IsNew();
      if !none { bodyLength := length; }
    }

    method IsNew() returns (none: bool)
      requires Valid()
      ensures none <==> View().manifest == [] && View().body == []
    {
      none := manifestSegments.head == null && bodySegments.head == null;
    }

    /** One segment for each stream, from 0, of the known length. */
    method IsWhole() returns (whole: bool)
      requires Valid()
      ensures whole == Complete(View())
      ensures whole ==> manifestSegments.head != null && bodySegments.head != null
                        && manifestSegments.head.data == View().manifest[0].data && bodySegments.head.data == View().body[0].data
    {
      var m := manifestSegments.IsOne(manifestLength);
      var b := bodySegments.IsOne(bodyLength);
      whole := m && b;
    }
  }

  ghost predicate Separate(a: seq<Node>, b: seq<Node>) {
    forall i, j :: 0 <= i < |a| && 0 <= j < |b| ==> a[i] != b[j]
  }

  /** One list with some nodes gone, the other with some that are new: still no node in both. */
  lemma StillSeparate(a: seq<Node>, b: seq<Node>, a': seq<Node>, b': seq<Node>)
    requires Separate(a, b) || Separate(b, a)
    requires forall i :: 0 <= i < |a'| ==> a'[i] in a || a'[i] !in b
    requires forall n :: n in b' ==> n in b
    ensures Separate(a', b') && Separate(b', a')
  {
    forall i, j | 0 <= i < |a'| && 0 <= j < |b'|
      ensures a'[i] != b'[j]
    {
      assert b'[j] in b';
    }
  }
}
