/** The linked list of segments (struct segment_list): inserting a piece, and merging. */
module SegmentList {
  import opened Bits
  import opened Segments

  class Node {
    var start: nat
    var data: seq<byte>
    var next: Node?
    var prev: Node?

    constructor (start: nat, data: seq<byte>, next: Node?, prev: Node?)
      ensures this.start == start && this.data == data && this.next == next && this.prev == prev
    {
      this.start, this.data, this.next, this.prev := start, data, next, prev;
    }

    function Value(): (s: Seg)
      reads this`start, this`data
    {
      Seg(start, data)
    }
  }

  ghost function Values(nodes: seq<Node>): (r: seq<Seg>)
    reads nodes`start, nodes`data
    ensures |r| == |nodes| && forall i :: 0 <= i < |r| ==> r[i] == nodes[i].Value()
  {
    if nodes == [] then [] else [nodes[0].Value()] + Values(nodes[1..])
  }

  ghost predicate Distinct(nodes: seq<Node>) {
    forall i, j :: 0 <= i < j < |nodes| ==> nodes[i] != nodes[j]
  }

  /** Forward links all there; a backward link is right or absent, as a node added at the end gets
      none. */
  ghost predicate Chained(nodes: seq<Node>, nexts: seq<Node?>, prevs: seq<Node?>) {
    && Distinct(nodes) && |nexts| == |prevs| == |nodes|
    && (forall i :: 0 <= i < |nodes| ==> nexts[i] == At(nodes, i + 1))
    && (forall i :: 0 <= i < |nodes| ==> prevs[i] == null || (i > 0 && prevs[i] == nodes[i - 1]))
  }

  ghost predicate Chain(nodes: seq<Node>)
    reads nodes`next, nodes`prev
  {
    Chained(nodes, Nexts(nodes), Prevs(nodes))
  }

  ghost function At(nodes: seq<Node>, i: nat): (n: Node?) {
    if i < |nodes| then nodes[i] else null
  }

  ghost function Before(nodes: seq<Node>, i: nat): (n: Node?)
    requires i <= |nodes|
  {
    if i > 0 then nodes[i - 1] else null
  }

  /** x put in at k. */
  ghost function Ins<T>(s: seq<T>, k: nat, x: T): (r: seq<T>)
    requires k <= |s|
    ensures |r| == |s| + 1
  {
    s[..k] + [x] + s[k..]
  }

  lemma InsAt<T>(s: seq<T>, k: nat, x: T, j: nat)
    requires k <= |s| && j <= |s|
    ensures Ins(s, k, x)[j] == if j < k then s[j] else if j == k then x else s[j - 1]
  {
  }

  lemma DistinctInserted(nodes: seq<Node>, k: nat, n: Node)
    requires Distinct(nodes) && k <= |nodes| && n !in nodes
    ensures Distinct(Ins(nodes, k, n))
  {
    hide Ins;
    var m := Ins(nodes, k, n);
    forall i, j | 0 <= i < j < |m|
      ensures m[i] != m[j]
    {
      InsAt(nodes, k, n, i);
      InsAt(nodes, k, n, j);
    }
  }

  class SegList {
    var head: Node?
    ghost var nodes: seq<Node>

    ghost predicate Linked()
      reads this, nodes`next, nodes`prev
    {
      Chain(nodes) && head == At(nodes, 0)
    }

    ghost function View(): (r: seq<Seg>)
      reads this`nodes, nodes`start, nodes`data
    {
      Values(nodes)
    }

    constructor ()
      ensures Linked() && View() == []
    {
      head, nodes := null, [];
    }

    /** A new node before the current one. */
    method InsertBefore(before: Node?, cur: Node?, start: nat, piece: seq<byte>, ghost k: nat)
      requires Linked() && k <= |nodes| && cur == At(nodes, k) && before == Before(nodes, k)
      modifies this, nodes`next, nodes`prev
      ensures Linked() && View() == Spliced(old(View()), k, 0, Seg(start, piece))
      ensures forall i :: 0 <= i < |nodes| ==> nodes[i] in old(nodes) || fresh(nodes[i])
    {
      hide Values, Chain, Spliced, Ins;
      var n := Link(before, cur, start, piece, nodes, k);
      if before == null { head := n; }
      InsFirst(nodes, k, n);
      nodes := Ins(nodes, k, n);
    }

    /** A node grown by a piece, at its start, at its end, or both. */
    method Extend(cur: Node, start: nat, piece: seq<byte>, ghost k: nat)
      requires Linked() && k < |nodes| && cur == nodes[k]
      requires start <= cur.Value().End() && cur.start <= start + |piece|
      modifies nodes`start, nodes`data
      ensures View() == Spliced(old(View()), k, 1, Extended(old(cur.Value()), start, piece))
    {
      hide Values, Spliced, Chained;
      ChainedIsDistinct(nodes, Nexts(nodes), Prevs(nodes));
      var segmentStart, segmentEnd, end := cur.start, cur.start + |cur.data|, start + |piece|;
      if start < segmentStart {
        var extra := segmentStart - start;
        cur.data := piece[..extra] + cur.data;
        cur.start := start;
      }
      if end > segmentEnd {
        var extra := end - segmentEnd;
        cur.data := cur.data + piece[|piece| - extra..];
      }
      SplicedIsUpdate(old(View()), k, cur.Value());
      assert cur.Value() == Extended(old(cur.Value()), start, piece);
    }

    /** Goes down past the segments that start above the piece's end. */
    method Walk(start: nat, end: nat) returns (before: Node?, cur: Node?, ghost k: nat)
      requires Linked() && start <= end
      ensures k <= |nodes| && cur == At(nodes, k) && before == Before(nodes, k) && k == Stop(View(), start, end)
      ensures |View()| == |nodes| && (cur == null <==> k == |nodes|) && (cur != null ==> View()[k] == cur.Value())
    {
      hide Values, Chain, Stop;
      before, cur, k := null, head, 0;
      assert View()[0..] == View();
      while cur != null && cur.start + |cur.data| >= start && end < cur.start
        invariant k <= |nodes| && cur == At(nodes, k) && before == Before(nodes, k)
        invariant Stop(View(), start, end) == k + Stop(View()[k..], start, end)
        decreases |nodes| - k
      {
        NextIs(nodes, k);
        StopsLater(View(), k, start, end);
        before := cur;
        cur := cur.next;
        k := k + 1;
      }
      StopsHere(View(), k, start, end);
    }

    /** The piece goes in before the segment the walk stops at, or is there already, or extends it. */
    method PlacePiece(start: nat, piece: seq<byte>)
      requires Linked()
      modifies this, nodes
      ensures Linked() && View() == Place(old(View()), start, piece)
      ensures forall i :: 0 <= i < |nodes| ==> nodes[i] in old(nodes) || fresh(nodes[i])
    {
      hide SegList.View, SegList.Linked, Spliced, Extended, Place, Stop;
      var end := start + |piece|;
      PlaceIs(View(), start, piece);
      var before, cur, k := Walk(start, end);
      if cur == null || cur.start + |cur.data| < start {
        InsertBefore(before, cur, start, piece, k);
      } else if cur.start <= start && cur.start + |cur.data| >= end {
      } else {
        assert (cur.start >= start && cur.start <= end) || (cur.start + |cur.data| >= start && cur.start + |cur.data| <= end);
        Extend(cur, start, piece, k);
      }
    }

    /** The current node's extra bytes go to the end of the next, and the node goes. */
    method JoinNext(before: Node?, cur: Node, next: Node, ghost k: nat)
      requires Linked() && k + 1 < |nodes| && cur == nodes[k] && next == nodes[k + 1] && before == Before(nodes, k)
      requires cur.start <= next.Value().End() <= cur.Value().End()
      modifies this, next, if before != null then {before} else {}
      ensures Linked() && View() == Spliced(old(View()), k, 2, Joined(old(cur.Value()), old(next.Value())))
      ensures nodes == Del(old(nodes), k)
    {
      hide Values, Spliced, Chain, Del;
      JoinNodes(before, cur, next, nodes, k);
      if before == null { head := next; }
      DelNext(nodes, k);
      nodes := Del(nodes, k);
    }

    lemma Counted()
      requires Linked()
      ensures |View()| == |nodes| && head == At(nodes, 0)
    {
    }

    lemma Neighbours(k: nat)
      requires Linked() && k < |nodes|
      ensures |View()| == |nodes| && View()[k] == nodes[k].Value() && nodes[k].next == At(nodes, k + 1)
      ensures k + 1 < |nodes| ==> View()[k + 1] == nodes[k + 1].Value()
    {
      hide Chain, Values;
      NextIs(nodes, k);
    }

    /** merge_segments */
    method MergeSegments()
      requires Linked() && EndsDescend(View())
      modifies this, nodes
      ensures Linked() && View() == Merged(old(View())) && forall n :: n in nodes ==> n in old(nodes)
    {
      hide SegList.View, SegList.Linked, Merged, Spliced, Joined, EndsDescend, Del;
      var before: Node?, cur := null, head;
      ghost var k, segs := 0, View();
      StartMerge(segs);
      Counted();
      while cur != null && cur.next != null
        invariant Linked() && k <= |nodes| && At(nodes, k) == cur && before == Before(nodes, k)
        invariant (forall n :: n in nodes ==> n in old(nodes))
        invariant MergeDone(segs, View(), k)
        decreases |nodes| - k
      {
        ghost var v := View();
        var next := cur.next;
        Neighbours(k);
        MergeEnds(segs, v, k);
        if cur.start > next.start + |next.data| {
          MergeSkips(segs, v, k);
          before := cur;
          cur := next;
          k := k + 1;
        } else {
          MergeJoins(segs, v, k);
          ghost var was := nodes;
          assert nodes[k + 1] in nodes && (k > 0 ==> nodes[k - 1] in nodes);
          JoinNext(before, cur, next, k);
          DelNext(was, k);
          cur := next;
        }
      }
      if cur != null { Neighbours(k); }
      Counted();
      EndMerge(segs, View(), k);
    }

    /** The list is given up. */
    method Clear()
      modifies this
      ensures Linked() && View() == [] && nodes == []
    {
      head, nodes := null, [];
    }

    /** A single segment from 0, of a given length. */
    method IsOne(length: int) returns (one: bool)
      requires Linked()
      ensures one == OneOf(View(), length)
      ensures one ==> head != null && head.data == View()[0].data
    {
      hide Chain, Values;
      Counted();
      if |nodes| > 0 { Neighbours(0); }
      one := head != null && head.next == null && head.start == 0 && |head.data| == length;
    }

    /** What saw_piece does to a list: places the piece, and merges. */
    method AddPiece(start: nat, piece: seq<byte>)
      requires Linked() && Apart(View())
      modifies this, nodes
      ensures Linked() && Apart(View()) && View() == Segments.AddPiece(old(View()), start, piece)
      ensures forall i :: 0 <= i < |nodes| ==> nodes[i] in old(nodes) || fresh(nodes[i])
    {
      hide SegList.View, SegList.Linked, Merged, Place, Apart, EndsDescend, ApartBut;
      PlacedApartBut(View(), start, piece);
      ApartButDescends(Place(View(), start, piece), Stop(View(), start, start + |piece|));
      StaysApart(View(), start, piece);
      PlacePiece(start, piece);
      ghost var placed := nodes;
      MergeSegments();
      forall i | 0 <= i < |nodes|
        ensures nodes[i] in old(nodes) || fresh(nodes[i])
      {
        assert nodes[i] in placed;
      }
    }
  }

  /** Merging so far: the first k segments are as they will be. */
  ghost predicate MergeDone(segs: seq<Seg>, v: seq<Seg>, k: nat) {
    EndsDescend(segs) && k <= |v| && EndsDescend(v[k..]) && Merged(segs) == v[..k] + Merged(v[k..])
  }

  lemma StartMerge(segs: seq<Seg>)
    requires EndsDescend(segs)
    ensures MergeDone(segs, segs, 0)
  {
    hide Merged;
    assert segs[0..] == segs;
  }

  lemma EndMerge(segs: seq<Seg>, v: seq<Seg>, k: nat)
    requires MergeDone(segs, v, k) && |v| <= k + 1
    ensures v == Merged(segs)
  {
    assert v == v[..k] + v[k..];
  }

  lemma MergeEnds(segs: seq<Seg>, v: seq<Seg>, k: nat)
    requires MergeDone(segs, v, k) && k + 1 < |v|
    ensures v[k + 1].End() <= v[k].End()
  {
    assert v[k..][0] == v[k] && v[k..][1] == v[k + 1];
  }

  lemma MergeSkips(segs: seq<Seg>, v: seq<Seg>, k: nat)
    requires MergeDone(segs, v, k) && k + 1 < |v| && v[k].start > v[k + 1].End()
    ensures MergeDone(segs, v, k + 1)
  {
    var t := v[k..];
    assert t[1..] == v[k + 1..] && t[0] == v[k] && t[1] == v[k + 1];
    assert v[..k + 1] == v[..k] + [v[k]];
    assert v[..k] + ([v[k]] + Merged(v[k + 1..])) == v[..k + 1] + Merged(v[k + 1..]);
  }

  lemma MergeJoins(segs: seq<Seg>, v: seq<Seg>, k: nat)
    requires MergeDone(segs, v, k) && k + 1 < |v| && v[k].start <= v[k + 1].End() <= v[k].End()
    ensures MergeDone(segs, Spliced(v, k, 2, Joined(v[k], v[k + 1])), k)
  {
    hide Joined;
    var t, j := v[k..], Joined(v[k], v[k + 1]);
    var w := Spliced(v, k, 2, j);
    JoinedEnds(v[k], v[k + 1]);
    assert t[0] == v[k] && t[1] == v[k + 1] && t[2..] == v[k + 2..];
    assert w[k..] == [j] + t[2..] && w[..k] == v[..k];
    forall a, b | 0 <= a < b < |w| - k
      ensures w[k..][b].End() <= w[k..][a].End()
    {
      assert w[k..][b] == t[b + 1];
      if a > 0 { assert w[k..][a] == t[a + 1]; }
    }
  }

  method JoinNodes(before: Node?, cur: Node, next: Node, ghost nodes: seq<Node>, ghost k: nat)
    requires Chain(nodes) && k + 1 < |nodes| && cur == nodes[k] && next == nodes[k + 1] && before == Before(nodes, k)
    requires cur.start <= next.Value().End() <= cur.Value().End()
    modifies next, if before != null then {before} else {}
    ensures Chain(Del(nodes, k))
    ensures Values(Del(nodes, k)) == Spliced(old(Values(nodes)), k, 2, Joined(old(cur.Value()), old(next.Value())))
  {
    hide Values, Spliced, Chain, Del;
    var extra := (cur.start + |cur.data|) - (next.start + |next.data|);
    ghost var v := Values(nodes);
    ghost var joined := Joined(cur.Value(), next.Value());
    ChainIsDistinct(nodes);
    GrowNext(next, cur.data[|cur.data| - extra..], nodes, k);
    TakeOut(before, cur, next, nodes, k);
    DeletedValues(nodes, k);
    DelUpdate(v, k, joined);
  }

  method GrowNext(next: Node, more: seq<byte>, ghost nodes: seq<Node>, ghost k: nat)
    requires Distinct(nodes) && k + 1 < |nodes| && next == nodes[k + 1]
    modifies next`data
    ensures next.data == old(next.data) + more
    ensures Values(nodes) == old(Values(nodes))[k + 1 := next.Value()]
  {
    hide Values;
    next.data := next.data + more;
  }

  lemma DeletedValues(nodes: seq<Node>, k: nat)
    requires k < |nodes|
    ensures Values(Del(nodes, k)) == Del(Values(nodes), k)
  {
    hide Values, Del;
  }

  lemma DelUpdate(v: seq<Seg>, k: nat, s: Seg)
    requires k + 1 < |v|
    ensures Del(v[k + 1 := s], k) == Spliced(v, k, 2, s)
  {
  }

  lemma DelNext(nodes: seq<Node>, k: nat)
    requires k < |nodes|
    ensures forall n :: n in Del(nodes, k) ==> n in nodes
    ensures k + 1 < |nodes| ==> At(Del(nodes, k), k) == nodes[k + 1]
    ensures Before(Del(nodes, k), k) == Before(nodes, k)
  {
  }

  lemma NextIs(nodes: seq<Node>, k: nat)
    requires Chain(nodes) && k < |nodes|
    ensures nodes[k].next == At(nodes, k + 1)
  {
  }

  lemma StopsLater(segs: seq<Seg>, k: nat, start: nat, end: nat)
    requires k < |segs| && start <= end && !(segs[k].End() < start || segs[k].start <= end)
    ensures Stop(segs[k..], start, end) == 1 + Stop(segs[k + 1..], start, end)
  {
    assert segs[k..][1..] == segs[k + 1..];
  }

  lemma StopsHere(segs: seq<Seg>, k: nat, start: nat, end: nat)
    requires k <= |segs| && start <= end && (k < |segs| ==> segs[k].End() < start || segs[k].start <= end)
    ensures Stop(segs[k..], start, end) == 0
  {
  }

  lemma SplicedIsUpdate(segs: seq<Seg>, k: nat, s: Seg)
    requires k < |segs|
    ensures Spliced(segs, k, 1, s) == segs[k := s]
  {
  }

  /** Allocates a node and links it in between two. */
  method Link(before: Node?, cur: Node?, start: nat, piece: seq<byte>, ghost nodes: seq<Node>, ghost k: nat) returns (n: Node)
    requires Chain(nodes) && k <= |nodes| && cur == At(nodes, k) && before == Before(nodes, k)
    modifies nodes`next, nodes`prev
    ensures fresh(n) && Chain(Ins(nodes, k, n)) && Values(Ins(nodes, k, n)) == Spliced(old(Values(nodes)), k, 0, Seg(start, piece))
  {
    hide Values, Chained, Nexts, Prevs, Spliced, Distinct, Ins;
    ghost var nexts, prevs := Nexts(nodes), Prevs(nodes);
    n := new Node(start, piece, cur, if cur != null then cur.prev else null);
    ChainedIsDistinct(nodes, nexts, prevs);
    PutIn(before, cur, n, nodes, k);
    InsertedValues(nodes, k, n);
    InsertedNexts(nodes, k, n);
    InsertedPrevs(nodes, k, n);
    LinksInserted(nodes, nexts, prevs, k, n);
  }

  lemma InsFirst(was: seq<Node>, k: nat, n: Node)
    requires k <= |was|
    ensures Ins(was, k, n)[0] == if k == 0 then n else was[0]
    ensures forall x :: x in Ins(was, k, n) ==> x == n || x in was
  {
  }

  method PutIn(before: Node?, cur: Node?, n: Node, ghost nodes: seq<Node>, ghost k: nat)
    requires n !in nodes && Distinct(nodes) && k <= |nodes| && cur == At(nodes, k) && before == Before(nodes, k)
    modifies nodes`next, nodes`prev
    ensures n.next == old(n.next) && n.prev == old(n.prev)
    ensures Nexts(nodes) == if k > 0 then old(Nexts(nodes))[k - 1 := n] else old(Nexts(nodes))
    ensures Prevs(nodes) == if k < |nodes| then old(Prevs(nodes))[k := n] else old(Prevs(nodes))
  {
    hide Nexts, Prevs;
    if cur != null { cur.prev := n; }
    if before != null { before.next := n; }
  }

  lemma ChainedIsDistinct(nodes: seq<Node>, nexts: seq<Node?>, prevs: seq<Node?>)
    requires Chained(nodes, nexts, prevs)
    ensures Distinct(nodes) && |nexts| == |prevs| == |nodes|
  {
  }

  lemma ChainIsDistinct(nodes: seq<Node>)
    requires Chain(nodes)
    ensures Distinct(nodes)
  {
  }

  lemma SplicedIsIns(segs: seq<Seg>, k: nat, s: Seg)
    requires k <= |segs|
    ensures Spliced(segs, k, 0, s) == Ins(segs, k, s)
  {
  }

  lemma InsertedValues(was: seq<Node>, k: nat, n: Node)
    requires k <= |was|
    ensures Values(Ins(was, k, n)) == Spliced(Values(was), k, 0, n.Value())
  {
    hide Values, Ins, Spliced;
    SplicedIsIns(Values(was), k, n.Value());
    var m, v := Ins(was, k, n), Ins(Values(was), k, n.Value());
    forall j: nat | j <= |was|
      ensures Values(m)[j] == v[j]
    {
      InsAt(was, k, n, j);
      InsAt(Values(was), k, n.Value(), j);
    }
  }

  lemma InsertedNexts(was: seq<Node>, k: nat, n: Node)
    requires k <= |was|
    ensures Nexts(Ins(was, k, n)) == Ins<Node?>(Nexts(was), k, n.next)
  {
    hide Nexts, Ins;
    var m, a := Ins(was, k, n), Ins<Node?>(Nexts(was), k, n.next);
    forall j: nat | j <= |was|
      ensures Nexts(m)[j] == a[j]
    {
      InsAt(was, k, n, j);
      InsAt<Node?>(Nexts(was), k, n.next, j);
    }
  }

  lemma InsertedPrevs(was: seq<Node>, k: nat, n: Node)
    requires k <= |was|
    ensures Prevs(Ins(was, k, n)) == Ins<Node?>(Prevs(was), k, n.prev)
  {
    hide Prevs, Ins;
    var m, b := Ins(was, k, n), Ins<Node?>(Prevs(was), k, n.prev);
    forall j: nat | j <= |was|
      ensures Prevs(m)[j] == b[j]
    {
      InsAt(was, k, n, j);
      InsAt<Node?>(Prevs(was), k, n.prev, j);
    }
  }

  ghost function Nexts(nodes: seq<Node>): (r: seq<Node?>)
    reads nodes`next
    ensures |r| == |nodes| && forall i :: 0 <= i < |r| ==> r[i] == nodes[i].next
  {
    if nodes == [] then [] else [nodes[0].next] + Nexts(nodes[1..])
  }

  ghost function Prevs(nodes: seq<Node>): (r: seq<Node?>)
    reads nodes`prev
    ensures |r| == |nodes| && forall i :: 0 <= i < |r| ==> r[i] == nodes[i].prev
  {
    if nodes == [] then [] else [nodes[0].prev] + Prevs(nodes[1..])
  }

  lemma LinksInserted(was: seq<Node>, nexts: seq<Node?>, prevs: seq<Node?>, k: nat, n: Node)
    requires Chained(was, nexts, prevs) && k <= |was| && n !in was
    ensures Chained(Ins(was, k, n), Ins<Node?>(if k > 0 then nexts[k - 1 := n] else nexts, k, At(was, k)),
                    Ins<Node?>(if k < |was| then prevs[k := n] else prevs, k, if k < |was| then prevs[k] else null))
  {
    hide Ins;
    var m := Ins(was, k, n);
    var nexts1: seq<Node?>, prevs1: seq<Node?> :=
      if k > 0 then nexts[k - 1 := n] else nexts, if k < |was| then prevs[k := n] else prevs;
    var a, b := Ins<Node?>(nexts1, k, At(was, k)), Ins<Node?>(prevs1, k, if k < |was| then prevs[k] else null);
    DistinctInserted(was, k, n);
    forall i: nat | i < |m|
      ensures a[i] == At(m, i + 1)
      ensures b[i] == null || (i > 0 && b[i] == m[i - 1])
    {
      InsAt<Node?>(nexts1, k, At(was, k), i);
      InsAt<Node?>(prevs1, k, if k < |was| then prevs[k] else null, i);
      if i + 1 < |m| { InsAt(was, k, n, i + 1); }
      if i > 0 { InsAt(was, k, n, i - 1); }
    }
    assert Chained(m, a, b);
  }

  // ---------------------------------------------------------------- taking a node out

  /** s without its element k. */
  ghost function Del<T>(s: seq<T>, k: nat): (r: seq<T>)
    requires k < |s|
    ensures |r| == |s| - 1 && forall j :: 0 <= j < |r| ==> r[j] == s[if j < k then j else j + 1]
  {
    s[..k] + s[k + 1..]
  }

  lemma LinksDeleted(was: seq<Node>, nexts: seq<Node?>, prevs: seq<Node?>, k: nat)
    requires Chained(was, nexts, prevs) && k + 1 < |was|
    ensures Chained(Del(was, k), Del<Node?>(if k > 0 then nexts[k - 1 := was[k + 1]] else nexts, k),
                    Del<Node?>(prevs[k + 1 := prevs[k]], k))
  {
    hide Del;
    var m := Del(was, k);
    var nexts1: seq<Node?>, prevs1: seq<Node?> := if k > 0 then nexts[k - 1 := was[k + 1]] else nexts, prevs[k + 1 := prevs[k]];
    var a, b := Del<Node?>(nexts1, k), Del<Node?>(prevs1, k);
    forall i: nat | i < |m|
      ensures a[i] == At(m, i + 1)
      ensures b[i] == null || (i > 0 && b[i] == m[i - 1])
    {
    }
    assert Chained(m, a, b);
  }

  /** Links the node before, or none, to the one after. */
  method TakeOut(before: Node?, cur: Node, next: Node, ghost nodes: seq<Node>, ghost k: nat)
    requires Chain(nodes) && k + 1 < |nodes| && cur == nodes[k] && next == nodes[k + 1] && before == Before(nodes, k)
    modifies next`prev, (if before != null then {before} else {})`next
    ensures Chain(Del(nodes, k))
  {
    hide Chained, Nexts, Prevs, Distinct, Del;
    ghost var nexts, prevs := Nexts(nodes), Prevs(nodes);
    ChainedIsDistinct(nodes, nexts, prevs);
    BackLink(nodes, nexts, prevs, k);
    Relink(before, cur, next, nodes, k);
    DeletedLinks(nodes, k);
    LinksDeleted(nodes, nexts, prevs, k);
  }

  /** A backward link that is there is to the node before. */
  lemma BackLink(nodes: seq<Node>, nexts: seq<Node?>, prevs: seq<Node?>, k: nat)
    requires Chained(nodes, nexts, prevs) && k < |nodes|
    ensures prevs[k] == null || (k > 0 && prevs[k] == nodes[k - 1])
  {
  }

  method Relink(before: Node?, cur: Node, next: Node, ghost nodes: seq<Node>, ghost k: nat)
    requires Distinct(nodes) && k + 1 < |nodes| && cur == nodes[k] && next == nodes[k + 1] && before == Before(nodes, k)
    requires cur.prev == null || cur.prev == before
    modifies next`prev, (if before != null then {before} else {})`next
    ensures Nexts(nodes) == if k > 0 then old(Nexts(nodes))[k - 1 := next] else old(Nexts(nodes))
    ensures Prevs(nodes) == old(Prevs(nodes))[k + 1 := old(cur.prev)]
  {
    hide Nexts, Prevs;
    if before != null { before.next := next; }
    next.prev := cur.prev;
    if cur.prev != null { cur.prev.next := next; }
  }

  lemma DeletedLinks(nodes: seq<Node>, k: nat)
    requires k < |nodes|
    ensures Nexts(Del(nodes, k)) == Del<Node?>(Nexts(nodes), k) && Prevs(Del(nodes, k)) == Del<Node?>(Prevs(nodes), k)
  {
    hide Nexts, Prevs, Del;
  }
}
