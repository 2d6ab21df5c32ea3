/** Why the in-place pairing is optimal: each round merges the two lightest items, so the
    weighted depths of its tree are a lower bound for every prefix code. */
module HuffmanOptimal {
  import opened Symbols
  import opened MinimumRedundancy
  import opened PrefixCost

  function Keys(a: seq<SymFreq>, lo: nat, hi: nat): (r: seq<nat>)
    requires lo <= hi <= |a|
    ensures |r| == hi - lo && forall i :: 0 <= i < |r| ==> r[i] == a[lo + i].key
    decreases hi
  {
    if lo == hi then [] else Keys(a, lo, hi - 1) + [a[hi - 1].key]
  }

  /** Cursors after whole rounds, or half-way through one. */
  ghost predicate Cursors(p: Pairing, half: nat) {
    p.root <= p.next < |p.a| <= 65536 && p.leaf <= |p.a| && p.root + p.leaf == 2 * p.next + half && p.next < p.leaf
  }

  /** What still waits to be paired: symbols from leaf on, internal nodes root to next. */
  function Items(p: Pairing): (r: seq<nat>)
    requires p.root <= p.next <= |p.a| && p.leaf <= |p.a|
  {
    Keys(p.a, p.leaf, |p.a|) + Keys(p.a, p.root, p.next)
  }

  ghost predicate Rising(ws: seq<nat>) {
    forall i, j :: 0 <= i <= j < |ws| ==> ws[i] <= ws[j]
  }

  function Sum(ws: seq<nat>): (s: nat) {
    if ws == [] then 0 else ws[0] + Sum(ws[1..])
  }

  /** Both queues are in order, and nothing weighs less than the last item taken. */
  ghost predicate Queues(a: seq<nat>, b: seq<nat>, last: nat) {
    Rising(a) && Rising(b) && forall i :: 0 <= i < |a + b| ==> (a + b)[i] >= last
  }

  ghost predicate Queued(p: Pairing, last: nat)
    requires p.root <= p.next <= |p.a| && p.leaf <= |p.a|
  {
    Queues(Keys(p.a, p.leaf, |p.a|), Keys(p.a, p.root, p.next), last)
  }

  /** The newest internal node weighs at most twice the last item taken. */
  ghost predicate Newest(p: Pairing, last: nat)
    requires p.next <= |p.a|
  {
    p.root < p.next ==> p.a[p.next - 1].key <= 2 * last
  }

  // ---------------------------------------------------------------- one item at a time

  lemma {:induction false} SumWithout(ws: seq<nat>, i: nat)
    requires i < |ws|
    ensures Sum(ws) == ws[i] + Sum(Without(ws, i))
  {
    if i == 0 {
      assert Without(ws, 0) == ws[1..];
    } else {
      WithoutTail(ws, i);
      SumWithout(ws[1..], i - 1);
    }
  }

  lemma {:induction false} SumAppend(ws: seq<nat>, w: nat)
    ensures Sum(ws + [w]) == Sum(ws) + w
  {
    if ws == [] {
      assert ws + [w] == [w] && [w][1..] == [];
    } else {
      assert (ws + [w])[1..] == ws[1..] + [w];
      SumAppend(ws[1..], w);
    }
  }

  function Index(fromInternal: bool, leaves: nat): nat {
    if fromInternal then leaves else 0
  }

  function Rest(take: bool, s: seq<nat>): (r: seq<nat>)
    requires take ==> s != []
  {
    if take then s[1..] else s
  }

  ghost predicate LighterFront(a: seq<nat>, b: seq<nat>, fromB: bool) {
    a + b != [] && (fromB <==> (a == [] || (b != [] && b[0] < a[0])))
  }

  /** The front of the lighter queue is the lightest item of all; taking it leaves queues. */
  lemma TakeLighter(a: seq<nat>, b: seq<nat>, fromB: bool, last: nat)
    requires Queues(a, b, last) && LighterFront(a, b, fromB)
    ensures if fromB then b != [] else a != []
    ensures var i := Index(fromB, |a|);
            && Lightest(a + b, i) && (a + b)[i] == (if fromB then b[0] else a[0]) >= last
            && Without(a + b, i) == Rest(!fromB, a) + Rest(fromB, b)
            && Queues(Rest(!fromB, a), Rest(fromB, b), (a + b)[i])
  {
    var i := Index(fromB, |a|);
    TakeFront(a, b, fromB);
    FrontLightest(a, b, fromB);
    if fromB { RisingTail(b); } else { RisingTail(a); }
    LightestRest(a + b, i);
  }

  lemma FrontLightest(a: seq<nat>, b: seq<nat>, fromB: bool)
    requires Rising(a) && Rising(b) && LighterFront(a, b, fromB)
    ensures Lightest(a + b, Index(fromB, |a|))
  {
  }

  lemma TakeFront(a: seq<nat>, b: seq<nat>, fromB: bool)
    requires if fromB then b != [] else a != []
    ensures var i := Index(fromB, |a|);
            && i < |a + b|
            && Without(a + b, i) == Rest(!fromB, a) + Rest(fromB, b)
            && (a + b)[i] == if fromB then b[0] else a[0]
  {
  }

  lemma RisingTail(ws: seq<nat>)
    requires ws != [] && Rising(ws)
    ensures Rising(ws[1..])
  {
  }

  lemma LightestRest(ws: seq<nat>, i: nat)
    requires Lightest(ws, i)
    ensures forall k :: 0 <= k < |Without(ws, i)| ==> Without(ws, i)[k] >= ws[i]
  {
  }

  lemma FirstQueues(p: Pairing)
    requires Cursors(p, 0) && p.root < p.next
    ensures var q, n, fromB := First(p), |p.a|, FirstFromInternal(p);
            var a, b := Keys(p.a, p.leaf, n), Keys(p.a, p.root, p.next);
            && Cursors(q, 1) && q.next == p.next && |q.a| == n
            && LighterFront(a, b, fromB) && (if fromB then b != [] else a != [])
            && Keys(q.a, q.leaf, n) == Rest(!fromB, a)
            && Keys(q.a, q.root, q.next) == Rest(fromB, b)
            && q.a[q.next].key == (if fromB then b[0] else a[0])
            && (q.root < q.next ==> q.a[q.next - 1] == p.a[q.next - 1])
            && q.root == p.root + (if fromB then 1 else 0) && (fromB ==> b[0] == p.a[p.root].key)
            && q.leaf == p.leaf + (if fromB then 0 else 1) && (!fromB ==> a[0] == p.a[p.leaf].key)
            && (q.leaf < n ==> q.a[q.leaf] == p.a[q.leaf])
            && forall k :: q.root <= k < q.next ==> q.a[k] == p.a[k]
  {
    hide Keys;
    var q, n, fromB := First(p), |p.a|, FirstFromInternal(p);
    var a, b := Keys(p.a, p.leaf, n), Keys(p.a, p.root, p.next);
    assert b != [] && b[0] == p.a[p.root].key && (a != [] ==> a[0] == p.a[p.leaf].key);
    assert Keys(q.a, q.leaf, n) == Rest(!fromB, a);
    assert Keys(q.a, q.root, q.next) == Rest(fromB, b);
  }

  /** The first of the two items of a round. */
  lemma FirstTakes(p: Pairing, last: nat)
    requires Cursors(p, 0) && p.root < p.next && Queued(p, last) && Newest(p, last)
    ensures var q, i := First(p), Index(FirstFromInternal(p), |p.a| - p.leaf);
            && Cursors(q, 1) && q.next == p.next && |q.a| == |p.a|
            && Lightest(Items(p), i) && Items(q) == Without(Items(p), i)
            && q.a[q.next].key == Items(p)[i] >= last
            && Queued(q, Items(p)[i]) && Newest(q, last)
            && q.root == p.root + (if FirstFromInternal(p) then 1 else 0)
            && q.leaf == p.leaf + (if FirstFromInternal(p) then 0 else 1)
            && (FirstFromInternal(p) ==> Items(p)[i] == p.a[p.root].key)
            && (!FirstFromInternal(p) ==> p.leaf < |p.a| && Items(p)[i] == p.a[p.leaf].key)
            && (q.leaf < |q.a| ==> q.a[q.leaf] == p.a[q.leaf])
            && forall k :: q.root <= k < q.next ==> q.a[k] == p.a[k]
  {
    hide First, FirstFromInternal, Keys, Queues, Lightest, LighterFront, Without, Rest, Index;
    FirstQueues(p);
    TakeLighter(Keys(p.a, p.leaf, |p.a|), Keys(p.a, p.root, p.next), FirstFromInternal(p), last);
  }

  lemma SecondQueues(q: Pairing)
    requires Cursors(q, 1) && q.next + 1 < |q.a|
    ensures var r, n, fromB := Second(q), |q.a|, SecondFromInternal(q);
            var a, b := Keys(q.a, q.leaf, n), Keys(q.a, q.root, q.next);
            && Cursors(r, 0) && r.next == q.next + 1 && |r.a| == n
            && LighterFront(a, b, fromB) && (if fromB then b != [] else a != [])
            && r.root == q.root + (if fromB then 1 else 0) && (fromB ==> q.root < q.next && b[0] == q.a[q.root].key)
            && r.leaf == q.leaf + (if fromB then 0 else 1) && (!fromB ==> a[0] == q.a[q.leaf].key)
            && Keys(r.a, r.leaf, n) == Rest(!fromB, a)
    ensures var r, n, fromB := Second(q), |q.a|, SecondFromInternal(q);
            var a, b := Keys(q.a, q.leaf, n), Keys(q.a, q.root, q.next);
            var w := (q.a[q.next].key + if fromB then b[0] else a[0]) % 65536;
            r.a[q.next].key == w && Keys(r.a, r.root, r.next) == Rest(fromB, b) + [w]
  {
    hide Keys;
    var r, n, fromB := Second(q), |q.a|, SecondFromInternal(q);
    var a, b := Keys(q.a, q.leaf, n), Keys(q.a, q.root, q.next);
    assert (b != [] ==> b[0] == q.a[q.root].key) && (a != [] ==> a[0] == q.a[q.leaf].key);
    assert fromB ==> b != [];
    assert !fromB ==> a != [];
    var w := r.a[q.next].key;
    assert Keys(r.a, r.leaf, n) == Rest(!fromB, a);
    assert Keys(r.a, r.root, r.next) == Rest(fromB, b) + [w];
  }

  /** The second, and the new internal node. */
  lemma SecondTakes(q: Pairing, x: nat, last: nat)
    requires Cursors(q, 1) && q.next + 1 < |q.a|
    requires Queued(q, x) && Newest(q, last) && last <= x
    requires q.a[q.next].key == x && x + Sum(Items(q)) < 65536
    ensures var r, j := Second(q), Index(SecondFromInternal(q), |q.a| - q.leaf);
            && Cursors(r, 0) && r.next == q.next + 1 && |r.a| == |q.a|
            && Lightest(Items(q), j) && Items(r) == Without(Items(q), j) + [x + Items(q)[j]]
            && Items(q)[j] >= x
            && Queued(r, Items(q)[j]) && Newest(r, Items(q)[j])
            && r.a[q.next].key == x + Items(q)[j]
            && r.root == q.root + (if SecondFromInternal(q) then 1 else 0)
            && r.leaf == q.leaf + (if SecondFromInternal(q) then 0 else 1)
            && (SecondFromInternal(q) ==> q.root < q.next && Items(q)[j] == q.a[q.root].key)
            && (!SecondFromInternal(q) ==> q.leaf < |q.a| && Items(q)[j] == q.a[q.leaf].key)
  {
    hide Second, SecondFromInternal, Lightest, LighterFront, Without, Sum, Queues, Keys, Rest, Index;
    SecondQueues(q);
    var y := TakeAndMerge(Keys(q.a, q.leaf, |q.a|), Keys(q.a, q.root, q.next), SecondFromInternal(q), x);
  }

  lemma TakeAndMerge(a: seq<nat>, b: seq<nat>, fromB: bool, x: nat) returns (y: nat)
    requires Queues(a, b, x) && LighterFront(a, b, fromB) && (b != [] ==> b[|b| - 1] <= 2 * x)
    ensures if fromB then b != [] else a != []
    ensures Lightest(a + b, Index(fromB, |a|))
    ensures y == (a + b)[Index(fromB, |a|)] == (if fromB then b[0] else a[0])
    ensures x <= y <= Sum(a + b)
    ensures Queues(Rest(!fromB, a), Rest(fromB, b) + [x + y], y)
    ensures Rest(!fromB, a) + (Rest(fromB, b) + [x + y]) == Without(a + b, Index(fromB, |a|)) + [x + y]
  {
    hide Lightest, LighterFront, Without, Sum, Queues, Rest, Index;
    TakeLighter(a, b, fromB, x);
    y := (a + b)[Index(fromB, |a|)];
    SumWithout(a + b, Index(fromB, |a|));
    LastOfRest(b, fromB, 2 * x);
    AppendNewest(Rest(!fromB, a), Rest(fromB, b), x + y, y);
  }

  lemma LastOfRest(b: seq<nat>, take: bool, m: nat)
    requires (take ==> b != []) && (b != [] ==> b[|b| - 1] <= m)
    ensures Rest(take, b) != [] ==> Rest(take, b)[|Rest(take, b)| - 1] <= m
  {
  }

  lemma AppendNewest(a: seq<nat>, b: seq<nat>, w: nat, y: nat)
    requires Queues(a, b, y) && y <= w && (b != [] ==> b[|b| - 1] <= w)
    ensures Queues(a, b + [w], y) && a + (b + [w]) == (a + b) + [w]
  {
    assert a + (b + [w]) == (a + b) + [w];
  }

  // ---------------------------------------------------------------- the tree the rounds build

  /** The parent array after the last round. */
  function Par(a: seq<SymFreq>): (par: seq<SymFreq>)
    requires 2 <= |a| <= 65536
    ensures |par| == |a| && Tree(par)
  {
    Ends(a);
    Paired(a, |a| - 1).a
  }

  lemma Ends(a: seq<SymFreq>)
    requires 2 <= |a| <= 65536
    ensures var p := Paired(a, |a| - 1); p.root == |a| - 2 && p.leaf == |a| && |p.a| == |a| && Tree(p.a)
  {
    hide Paired;
    PairedShape(a, |a| - 1);
  }

  lemma Round(a: seq<SymFreq>, t: nat)
    requires 2 <= |a| <= 65536 && 1 <= t < |a| - 1
    ensures Cursors(Paired(a, t), 0) && Paired(a, t).root < t && Paired(a, t).next == t
    ensures PairEffect(Paired(a, t), Paired(a, t + 1))
    ensures Paired(a, t + 1) == Second(First(Paired(a, t)))
  {
    hide Parents, SameSyms, PairEffect, First, Second;
    PairedBounds(a, t);
    PairHasEffect(Paired(a, t));
  }

  lemma RoundKeeps(a: seq<SymFreq>, t: nat)
    requires 2 <= |a| <= 65536 && 1 <= t < |a| - 1
    ensures var p, r := Paired(a, t), Paired(a, t + 1);
            && p.root <= r.root && |r.a| == |p.a| == |a| && p.root <= |a|
            && forall k :: 0 <= k < p.root ==> r.a[k] == p.a[k]
  {
    hide Shape, Paired, First, Second;
    Round(a, t);
  }

  lemma {:induction false} ParentKept(a: seq<SymFreq>, t: nat, k: nat)
    requires 2 <= |a| <= 65536 && 1 <= t <= |a| - 1 && k < Paired(a, t).root
    ensures k < |a| - 2 && Par(a)[k].key == Paired(a, t).a[k].key
    decreases |a| - t
  {
    hide Shape, Tree, Paired, PairEffect;
    Ends(a);
    if t < |a| - 1 {
      RoundKeeps(a, t);
      ParentKept(a, t + 1, k);
    }
  }

  /** An internal node taken in round t has t as its parent. */
  lemma TakenParent(a: seq<SymFreq>, t: nat, k: nat)
    requires 2 <= |a| <= 65536 && 1 <= t < |a| - 1 && Paired(a, t).root <= k < Paired(a, t + 1).root
    ensures k < |a| - 2 && Par(a)[k].key == t
    ensures Depth(Par(a), k) == 1 + Depth(Par(a), t)
  {
    hide Shape, Tree, Paired, Par;
    Round(a, t);
    ParentKept(a, t + 1, k);
    TreeStep(Par(a), k);
  }

  /** The round, or the start, in which symbol i was taken. */
  function LeafParent(a: seq<SymFreq>, i: nat, t: nat): (m: nat)
    requires 2 <= |a| <= 65536 && 1 <= t <= |a| - 1
    ensures m < t
  {
    hide Paired;
    if t == 1 then 0 else if i < Paired(a, t - 1).leaf then LeafParent(a, i, t - 1) else t - 1
  }

  lemma {:induction false} LeafRises(a: seq<SymFreq>, t: nat, t': nat)
    requires 2 <= |a| <= 65536 && 1 <= t <= t' <= |a| - 1
    ensures Paired(a, t).leaf <= Paired(a, t').leaf && Paired(a, t).root <= Paired(a, t').root
  {
    hide Shape, Paired;
    if t < t' {
      LeafRises(a, t, t' - 1);
      Round(a, t' - 1);
    }
  }

  lemma {:induction false} LeafParentBefore(a: seq<SymFreq>, i: nat, t: nat, m: nat)
    requires 2 <= |a| <= 65536 && 1 <= m <= t <= |a| - 1 && i < Paired(a, t).leaf
    ensures LeafParent(a, i, t) < m <==> i < Paired(a, m).leaf
    decreases t
  {
    hide Shape, Paired;
    if m < t {
      LeafRises(a, m, t - 1);
      if i < Paired(a, t - 1).leaf { LeafParentBefore(a, i, t - 1, m); }
    }
  }

  /** The depth of symbol i in the tree. */
  function LeafLen(a: seq<SymFreq>, i: nat): (d: nat)
    requires 2 <= |a| <= 65536 && i < |a|
    ensures d >= 1
  {
    1 + Depth(Par(a), LeafParent(a, i, |a| - 1))
  }

  function LeafLens(a: seq<SymFreq>, lo: nat, hi: nat): (r: seq<nat>)
    requires 2 <= |a| <= 65536 && lo <= hi <= |a|
    ensures |r| == hi - lo
    decreases hi
  {
    if lo == hi then [] else LeafLens(a, lo, hi - 1) + [LeafLen(a, hi - 1)]
  }

  function NodeLens(a: seq<SymFreq>, lo: nat, hi: nat): (r: seq<nat>)
    requires 2 <= |a| <= 65536 && lo <= hi <= |a| - 1
    ensures |r| == hi - lo
    decreases hi
  {
    if lo == hi then [] else NodeLens(a, lo, hi - 1) + [Depth(Par(a), hi - 1)]
  }

  /** The depths of what waits, in the order of Items. */
  function Lens(a: seq<SymFreq>, root: nat, leaf: nat, next: nat): (r: seq<nat>)
    requires 2 <= |a| <= 65536 && root <= next <= |a| - 1 && leaf <= |a|
    ensures |r| == |a| - leaf + (next - root)
  {
    LeafLens(a, leaf, |a|) + NodeLens(a, root, next)
  }

  // ---------------------------------------------------------------- depths follow the rounds

  lemma TakeLens(a: seq<SymFreq>, root: nat, leaf: nat, next: nat, fromB: bool, d: nat)
    requires 2 <= |a| <= 65536 && root <= next <= |a| - 1 && leaf <= |a|
    requires if fromB then root < next && Depth(Par(a), root) == d else leaf < |a| && LeafLen(a, leaf) == d
    ensures var i, ls := Index(fromB, |a| - leaf), Lens(a, root, leaf, next);
            && i < |ls| && ls[i] == d
            && Without(ls, i) == Lens(a, root + (if fromB then 1 else 0), leaf + (if fromB then 0 else 1), next)
  {
    hide Par, LeafLen, Depth, LeafLens, NodeLens, Without;
    var x, y := LeafLens(a, leaf, |a|), NodeLens(a, root, next);
    TakeFront(x, y, fromB);
    if fromB { NodeLensTail(a, root, next); } else { LeafLensTail(a, leaf, |a|); }
  }

  lemma {:induction false} LeafLensAt(a: seq<SymFreq>, lo: nat, hi: nat, i: nat)
    requires 2 <= |a| <= 65536 && lo <= hi <= |a| && i < hi - lo
    ensures LeafLens(a, lo, hi)[i] == LeafLen(a, lo + i)
    decreases hi
  {
    hide Par, LeafLen;
    if i < hi - 1 - lo { LeafLensAt(a, lo, hi - 1, i); }
  }

  lemma {:induction false} LeafLensTail(a: seq<SymFreq>, lo: nat, hi: nat)
    requires 2 <= |a| <= 65536 && lo < hi <= |a|
    ensures LeafLens(a, lo, hi) == [LeafLen(a, lo)] + LeafLens(a, lo + 1, hi)
    decreases hi
  {
    hide Par, LeafLen;
    if lo + 1 < hi { LeafLensTail(a, lo, hi - 1); }
  }

  lemma {:induction false} NodeLensTail(a: seq<SymFreq>, lo: nat, hi: nat)
    requires 2 <= |a| <= 65536 && lo < hi <= |a| - 1
    ensures NodeLens(a, lo, hi) == [Depth(Par(a), lo)] + NodeLens(a, lo + 1, hi)
    decreases hi
  {
    hide Par, Depth;
    if lo + 1 < hi { NodeLensTail(a, lo, hi - 1); }
  }

  lemma AddLens(a: seq<SymFreq>, root: nat, leaf: nat, next: nat)
    requires 2 <= |a| <= 65536 && root <= next < |a| - 1 && leaf <= |a|
    ensures Lens(a, root, leaf, next + 1) == Lens(a, root, leaf, next) + [Depth(Par(a), next)]
  {
    hide Par, LeafLen, Depth, LeafLens;
    assert NodeLens(a, root, next + 1) == NodeLens(a, root, next) + [Depth(Par(a), next)];
  }

  /** A symbol taken in round t has t as its parent. */
  lemma TakenLeaf(a: seq<SymFreq>, t: nat, i: nat)
    requires 2 <= |a| <= 65536 && 1 <= t < |a| - 1 && Paired(a, t).leaf <= i < Paired(a, t + 1).leaf
    ensures i < |a| && LeafLen(a, i) == 1 + Depth(Par(a), t)
  {
    hide Par, Depth, Paired, LeafParent;
    LeafRises(a, t + 1, |a| - 1);
    Ends(a);
    LeafParentBefore(a, i, |a| - 1, t);
    LeafParentBefore(a, i, |a| - 1, t + 1);
  }

  // ---------------------------------------------------------------- one whole round

  /** What a round starts from. */
  ghost predicate Ready(a: seq<SymFreq>, t: nat, last: nat)
    requires 2 <= |a| <= 65536 && 1 <= t <= |a| - 1
  {
    Queued(Paired(a, t), last) && Newest(Paired(a, t), last) && Sum(Items(Paired(a, t))) < 65536
  }

  /** Where the items of a round come from, and what they weigh. */
  ghost predicate Takes(p: Pairing, q: Pairing, r: Pairing, x: nat, y: nat)
    requires p.root < p.next < |p.a|
  {
    && |q.a| == |r.a| == |p.a| && q.next == p.next && r.next == p.next + 1 && q.root <= q.next && q.leaf <= |q.a|
    && q.root == p.root + (if FirstFromInternal(p) then 1 else 0)
    && q.leaf == p.leaf + (if FirstFromInternal(p) then 0 else 1)
    && r.root == q.root + (if SecondFromInternal(q) then 1 else 0)
    && r.leaf == q.leaf + (if SecondFromInternal(q) then 0 else 1)
    && (FirstFromInternal(p) ==> x == p.a[p.root].key)
    && (SecondFromInternal(q) ==> q.root < q.next && y == p.a[q.root].key)
    && (!FirstFromInternal(p) ==> p.leaf < |p.a| && x == p.a[p.leaf].key)
    && (!SecondFromInternal(q) ==> q.leaf < |p.a| && y == p.a[q.leaf].key)
    && r.a[p.next].key == x + y
  }

  lemma RoundItems(p: Pairing, last: nat) returns (i: nat, j: nat, x: nat, y: nat)
    requires Cursors(p, 0) && p.root < p.next && p.next + 1 < |p.a|
    requires Queued(p, last) && Newest(p, last) && Sum(Items(p)) < 65536
    ensures var q, r := First(p), Second(First(p));
            && Takes(p, q, r, x, y) && Cursors(r, 0)
            && i == Index(FirstFromInternal(p), |p.a| - p.leaf) && j == Index(SecondFromInternal(q), |p.a| - q.leaf)
            && Queued(r, y) && Newest(r, y) && Sum(Items(r)) == Sum(Items(p))
            && Items(r) == Without(Without(Items(p), i), j) + [x + y]
    ensures Lightest(Items(p), i) && x == Items(p)[i] && last <= x <= y
    ensures Lightest(Without(Items(p), i), j) && y == Without(Items(p), i)[j]
  {
    hide First, Second, FirstFromInternal, SecondFromInternal, Queued, Newest, Items, Sum, Without, Index;
    var q := First(p);
    FirstTakes(p, last);
    i := Index(FirstFromInternal(p), |p.a| - p.leaf);
    x := Items(p)[i];
    SumWithout(Items(p), i);
    SecondTakes(q, x, last);
    j := Index(SecondFromInternal(q), |q.a| - q.leaf);
    y := Items(q)[j];
    SumWithout(Items(q), j);
    SumAppend(Without(Items(q), j), x + y);
  }

  /** The round as the tree sees it: what it takes are the two children of node t. */
  lemma RoundLens(a: seq<SymFreq>, t: nat, i: nat, j: nat, x: nat, y: nat)
    requires 2 <= |a| <= 65536 && 1 <= t < |a| - 1
    requires var p := Paired(a, t);
             var q := First(p);
             && Takes(p, q, Paired(a, t + 1), x, y)
             && i == Index(FirstFromInternal(p), |a| - p.leaf) && j == Index(SecondFromInternal(q), |a| - q.leaf)
    ensures var p, r, d := Paired(a, t), Paired(a, t + 1), Depth(Par(a), t);
            var ls := Lens(a, p.root, p.leaf, t);
            && i < |ls| && ls[i] == d + 1 && j < |ls| - 1 && Without(ls, i)[j] == d + 1
            && Lens(a, r.root, r.leaf, t + 1) == Without(Without(ls, i), j) + [d]
  {
    hide First, FirstFromInternal, SecondFromInternal, Paired, Par, Depth, Lens, Without, LeafLen, Index;
    var p, q, r, d := Paired(a, t), First(Paired(a, t)), Paired(a, t + 1), Depth(Par(a), t) + 1;
    TakenKind(a, t, x, y);
    TakeLens(a, p.root, p.leaf, t, FirstFromInternal(p), d);
    TakeLens(a, q.root, q.leaf, t, SecondFromInternal(q), d);
    AddLens(a, r.root, r.leaf, t);
  }

  lemma TakenKind(a: seq<SymFreq>, t: nat, x: nat, y: nat)
    requires 2 <= |a| <= 65536 && 1 <= t < |a| - 1
    requires Takes(Paired(a, t), First(Paired(a, t)), Paired(a, t + 1), x, y)
    ensures var p, q, d := Paired(a, t), First(Paired(a, t)), Depth(Par(a), t) + 1;
            && (if FirstFromInternal(p) then p.root < t && Depth(Par(a), p.root) == d
                else p.leaf < |a| && LeafLen(a, p.leaf) == d)
            && (if SecondFromInternal(q) then q.root < t && Depth(Par(a), q.root) == d
                else q.leaf < |a| && LeafLen(a, q.leaf) == d)
  {
    hide First, FirstFromInternal, SecondFromInternal, Paired, Par, Depth, LeafLen;
    var p, q := Paired(a, t), First(Paired(a, t));
    if FirstFromInternal(p) { TakenParent(a, t, p.root); } else { TakenLeaf(a, t, p.leaf); }
    if SecondFromInternal(q) { TakenParent(a, t, q.root); } else { TakenLeaf(a, t, q.leaf); }
  }

  // ---------------------------------------------------------------- the bound, from the last round back

  /** Symbols in order of rising weight, all used, and few enough uses that no sum wraps. */
  ghost predicate Weights(a: seq<SymFreq>) {
    && 2 <= |a| <= 65536 && Rising(Keys(a, 0, |a|)) && a[0].key >= 1 && Sum(Keys(a, 0, |a|)) < 65536
  }

  /** The items after round t cannot be coded for less than their depths cost. */
  ghost predicate Best(a: seq<SymFreq>, t: nat)
    requires 2 <= |a| <= 65536 && 1 <= t <= |a| - 1
  {
    var p := Paired(a, t);
    var ls := Lens(a, p.root, p.leaf, t);
    |ls| == |Items(p)| && LowerBound(Items(p), Cost(Items(p), ls))
  }

  lemma CostOfMerge(ws: seq<nat>, ls: seq<nat>, i: nat, j: nat, d: nat)
    requires |ws| == |ls| >= 2 && i < |ws| && j < |ws| - 1
    requires ls[i] == d + 1 && Without(ls, i)[j] == d + 1
    ensures var x, y := ws[i], Without(ws, i)[j];
            |Merged(ws, i, j)| == |Without(Without(ls, i), j) + [d]|
            && Cost(ws, ls) == Cost(Merged(ws, i, j), Without(Without(ls, i), j) + [d]) + x + y
  {
    hide Cost, Without;
    CostWithout(ws, ls, i);
    CostWithout(Without(ws, i), Without(ls, i), j);
    CostAppend(Without(Without(ws, i), j), Without(Without(ls, i), j), ws[i] + Without(ws, i)[j], d);
    MulOneMore(ws[i], Without(ws, i)[j], d);
  }

  lemma MulOneMore(x: nat, y: nat, d: nat)
    ensures x * (d + 1) + y * (d + 1) == (x + y) * d + x + y
  {
  }

  lemma BestAtEnd(a: seq<SymFreq>)
    requires 2 <= |a| <= 65536
    ensures Best(a, |a| - 1)
  {
    hide Paired, Par, LeafLen;
    Ends(a);
    var n := |a|;
    var p := Paired(a, n - 1);
    assert Items(p) == [p.a[n - 2].key];
    assert Depth(Par(a), n - 2) == 0;
    assert Lens(a, p.root, p.leaf, n - 1) == [0];
    SingleCost(p.a[n - 2].key);
  }

  lemma SingleCost(w: nat)
    ensures Cost([w], [0]) == 0
  {
    assert [w][1..] == [];
  }

  lemma {:induction false} BestFrom(a: seq<SymFreq>, t: nat, last: nat)
    requires 2 <= |a| <= 65536 && 1 <= t <= |a| - 1 && Ready(a, t, last)
    ensures Best(a, t)
    decreases |a| - t
  {
    hide First, Second, Paired, Par, Depth, LeafLen, Lens, Items, Cost, LowerBound, Without, Takes, PairEffect, Queued, Newest,
         Lightest, FirstFromInternal, SecondFromInternal, Index, Sum;
    if t == |a| - 1 {
      BestAtEnd(a);
    } else {
      Round(a, t);
      var p := Paired(a, t);
      var i, j, x, y := RoundItems(p, last);
      RoundLens(a, t, i, j, x, y);
      BestFrom(a, t + 1, y);
      MergeStep(Items(p), Lens(a, p.root, p.leaf, t), i, j, Depth(Par(a), t));
    }
  }

  lemma MergeStep(ws: seq<nat>, ls: seq<nat>, i: nat, j: nat, d: nat)
    requires |ls| >= 2 && |ws| >= 2 && i < |ls| && j < |ls| - 1 && Lightest(ws, i) && Lightest(Without(ws, i), j)
    requires ls[i] == d + 1 && Without(ls, i)[j] == d + 1
    requires |Merged(ws, i, j)| == |Without(Without(ls, i), j) + [d]|
    requires LowerBound(Merged(ws, i, j), Cost(Merged(ws, i, j), Without(Without(ls, i), j) + [d]))
    ensures |ws| == |ls| && LowerBound(ws, Cost(ws, ls))
  {
    hide Cost, LowerBound, Without;
    CostOfMerge(ws, ls, i, j, d);
    MergeBound(ws, i, j, Cost(Merged(ws, i, j), Without(Without(ls, i), j) + [d]));
  }

  /** The first merge of all, before round one. */
  lemma StartItems(a: seq<SymFreq>)
    requires Weights(a)
    ensures Ready(a, 1, a[1].key)
    ensures StartMerges(Items(Paired(a, 1)), Keys(a, 0, |a|))
  {
    StartFrom(a, Keys(a, 0, |a|));
  }

  /** The items after the first merge, in terms of the weights. */
  ghost predicate StartMerges(items: seq<nat>, k: seq<nat>) {
    |k| >= 2 && Lightest(k, 0) && Lightest(Without(k, 0), 0) && items == Merged(k, 0, 0)
  }

  lemma StartFrom(a: seq<SymFreq>, k: seq<nat>)
    requires 2 <= |a| <= 65536 && k == Keys(a, 0, |a|) && Rising(k) && Sum(k) < 65536
    ensures Ready(a, 1, a[1].key) && StartMerges(Items(Paired(a, 1)), k)
  {
    hide Sum, Rising, Lightest, Queues, Without, Start, Paired, Items;
    StartWeights(k);
    StartKeys(a, k);
    hide Keys;
    NewestAtStart(a, k);
  }

  lemma NewestAtStart(a: seq<SymFreq>, k: seq<nat>)
    requires 2 <= |a| <= 65536 && k == Keys(a, 0, |a|) && Rising(k)
    requires Paired(a, 1).a[0].key == k[0] + k[1]
    ensures a[1].key == k[1] && Newest(Paired(a, 1), k[1])
  {
    hide Paired;
  }

  lemma WithoutFirst(k: seq<nat>)
    requires k != []
    ensures Without(k, 0) == k[1..]
  {
  }

  lemma RisingFirst(k: seq<nat>)
    requires k != [] && Rising(k)
    ensures Lightest(k, 0) && Rising(k[1..]) && forall i :: 0 <= i < |k[1..]| ==> k[1..][i] >= k[0]
  {
  }

  lemma StartQueues(s: seq<nat>, x: nat, y: nat)
    requires Rising(s) && forall i :: 0 <= i < |s| ==> s[i] >= y
    ensures Queues(s, [x + y], y)
  {
  }

  lemma StartWeights(k: seq<nat>)
    requires |k| >= 2 && Rising(k)
    ensures Without(k, 0) == k[1..] && Without(Without(k, 0), 0) == k[1..][1..]
    ensures Lightest(k, 0) && Lightest(Without(k, 0), 0)
    ensures k[0] + k[1] <= Sum(k) && Sum(k[1..][1..] + [k[0] + k[1]]) == Sum(k)
    ensures Queues(k[1..][1..], [k[0] + k[1]], k[1])
  {
    hide Sum, Without, Rising, Lightest, Queues;
    var t := k[1..];
    WithoutFirst(k);
    WithoutFirst(t);
    RisingFirst(k);
    RisingFirst(t);
    StartQueues(t[1..], k[0], k[1]);
    SumWithout(k, 0);
    SumWithout(t, 0);
    SumAppend(t[1..], k[0] + k[1]);
  }

  lemma StartKeys(a: seq<SymFreq>, k: seq<nat>)
    requires 2 <= |a| <= 65536 && k == Keys(a, 0, |a|) && k[0] + k[1] < 65536
    ensures var p := Paired(a, 1);
            && p.root == 0 && p.leaf == 2 && p.next == 1 && |p.a| == |a| && p.a[0].key == k[0] + k[1]
            && Items(p) == k[1..][1..] + [k[0] + k[1]]
            && Keys(p.a, 2, |a|) == k[1..][1..] && Keys(p.a, 0, 1) == [k[0] + k[1]]
  {
    hide Keys;
    var p := Paired(a, 1);
    assert p == Start(a);
    assert Keys(p.a, 2, |a|) == k[1..][1..];
    assert Keys(p.a, 0, 1) == [k[0] + k[1]];
  }

  lemma StartLens(a: seq<SymFreq>)
    requires 2 <= |a| <= 65536
    ensures var ls, d := Lens(a, 0, 0, 0), Depth(Par(a), 0);
            && |ls| == |a| && ls[0] == d + 1 && Without(ls, 0)[0] == d + 1
            && Lens(a, 0, 2, 1) == Without(Without(ls, 0), 0) + [d]
  {
    hide Par, Depth, LeafLen, Without, Paired, Lens;
    StartLeaves(a);
    TakeLens(a, 0, 0, 0, false, Depth(Par(a), 0) + 1);
    TakeLens(a, 0, 1, 0, false, Depth(Par(a), 0) + 1);
    AddLens(a, 0, 2, 0);
  }

  lemma AllLens(a: seq<SymFreq>)
    requires 2 <= |a| <= 65536
    ensures Lens(a, 0, 0, 0) == LeafLens(a, 0, |a|)
  {
    hide LeafLens, Par, Depth;
  }

  lemma StartLeaves(a: seq<SymFreq>)
    requires 2 <= |a| <= 65536
    ensures LeafLen(a, 0) == LeafLen(a, 1) == Depth(Par(a), 0) + 1
  {
    hide Par, Depth, Paired, LeafParent;
    Ends(a);
    StartCursors(a);
    LeafParentBefore(a, 0, |a| - 1, 1);
    LeafParentBefore(a, 1, |a| - 1, 1);
  }

  /** No prefix code is cheaper than the depths of the symbols in the tree. */
  lemma TreeIsOptimal(a: seq<SymFreq>)
    requires Weights(a)
    ensures LowerBound(Keys(a, 0, |a|), Cost(Keys(a, 0, |a|), LeafLens(a, 0, |a|)))
  {
    hide Cost, LowerBound, Without, Items, Lens, LeafLens, Keys, Sum, Ready, Par, Depth, Paired, Lightest;
    StartItems(a);
    StartLens(a);
    StartCursors(a);
    BestFrom(a, 1, a[1].key);
    MergeStep(Keys(a, 0, |a|), Lens(a, 0, 0, 0), 0, 0, Depth(Par(a), 0));
    AllLens(a);
  }

  lemma StartCursors(a: seq<SymFreq>)
    requires 2 <= |a| <= 65536
    ensures Paired(a, 1).root == 0 && Paired(a, 1).leaf == 2
  {
  }

  // ---------------------------------------------------------------- how deep the tree can be

  /** How much heavier than an item the node d levels above its parent is at least. */
  function Growth(d: nat): nat {
    if d == 0 then 1 else if d == 1 then 2 else Growth(d - 1) + Growth(d - 2)
  }

  lemma {:induction false} GrowthRises(d: nat, e: nat)
    requires d <= e
    ensures 1 <= Growth(d) <= Growth(e)
    decreases e
  {
    if d < e {
      if e > 1 { GrowthRises(if d < e - 2 then d else e - 2, e - 2); }
      GrowthRises(d, e - 1);
    } else if d > 1 {
      GrowthRises(d - 1, d - 1);
    }
  }

  lemma GrowthValue()
    ensures Growth(23) == 75025
  {
    assert Growth(8) == 55 && Growth(9) == 89;
    assert Growth(14) == 987 && Growth(15) == 1597;
  }

  lemma GrowthSteps(h: nat)
    ensures h == 0 ==> Growth(h + 1) == Growth(h) + 1
    ensures h > 0 ==> Growth(h + 1) == Growth(h) + Growth(h - 1)
    ensures Growth(h) >= 1
  {
    GrowthRises(h, h);
  }

  /** Node c, still in the queue, is what an item of weight w, with its parent at depth d, has been
      merged into so far. */
  ghost predicate Chained(a: seq<SymFreq>, t: nat, last: nat, c: nat, w: nat, d: nat)
    requires 2 <= |a| <= 65536 && 1 <= t <= |a| - 1
  {
    && Paired(a, t).root <= c < t && Depth(Par(a), c) <= d
    && Heavy(Paired(a, t).a[c].key, last, w, d - Depth(Par(a), c))
  }

  ghost predicate Heavy(key: nat, last: nat, w: nat, h: nat) {
    key >= w * Growth(h) && last >= w * (if h == 0 then 1 else Growth(h - 1))
  }

  lemma HeavyMerge(key: nat, last: nat, w: nat, h: nat, x: nat, y: nat)
    requires Heavy(key, last, w, h) && last <= x <= y && (x == key || y == key)
    ensures Heavy(x + y, y, w, h + 1)
  {
    GrowthSteps(h);
    hide Growth;
    Spread(w, Growth(h), if h == 0 then 1 else Growth(h - 1));
  }

  lemma Spread(w: nat, a: nat, b: nat)
    ensures w * (a + b) == w * a + w * b
  {
  }

  lemma HeavyLater(key: nat, last: nat, last': nat, w: nat, h: nat)
    requires Heavy(key, last, w, h) && last <= last'
    ensures Heavy(key, last', w, h)
  {
  }

  lemma ChainRound(a: seq<SymFreq>, t: nat, last: nat, c: nat, x: nat, y: nat, w: nat, d: nat) returns (c': nat)
    requires 2 <= |a| <= 65536 && 1 <= t < |a| - 1 && Chained(a, t, last, c, w, d) && last <= x <= y
    requires Takes(Paired(a, t), First(Paired(a, t)), Paired(a, t + 1), x, y)
    ensures Chained(a, t + 1, y, c', w, d)
  {
    hide First, Second, Paired, Par, Depth, FirstFromInternal, SecondFromInternal, PairEffect, Heavy;
    var p, r := Paired(a, t), Paired(a, t + 1);
    var h := d - Depth(Par(a), c);
    if c < r.root {
      TakenParent(a, t, c);
      HeavyMerge(p.a[c].key, last, w, h, x, y);
      c' := t;
    } else {
      ChainCell(a, t, c);
      HeavyLater(p.a[c].key, last, y, w, h);
      c' := c;
    }
  }

  lemma ChainCell(a: seq<SymFreq>, t: nat, c: nat)
    requires 2 <= |a| <= 65536 && 1 <= t < |a| - 1 && Paired(a, t + 1).root <= c < t
    ensures Paired(a, t + 1).a[c] == Paired(a, t).a[c]
  {
    hide Paired, First, Second;
    Round(a, t);
  }

  lemma {:induction false} ChainFrom(a: seq<SymFreq>, t: nat, last: nat, c: nat, w: nat, d: nat)
    requires 2 <= |a| <= 65536 && 1 <= t <= |a| - 1 && Ready(a, t, last) && Chained(a, t, last, c, w, d)
    ensures w * Growth(d) <= Sum(Items(Paired(a, t)))
    decreases |a| - t
  {
    hide First, Second, Paired, Par, Depth, Items, Lightest, Without, Takes, PairEffect, Queued, Newest, Growth,
         FirstFromInternal, SecondFromInternal, Index, Sum;
    if t == |a| - 1 {
      Ends(a);
      RootDepth(a);
      LastItem(a);
    } else {
      Round(a, t);
      var i, j, x, y := RoundItems(Paired(a, t), last);
      var c' := ChainRound(a, t, last, c, x, y, w, d);
      ChainFrom(a, t + 1, y, c', w, d);
    }
  }

  lemma LastItem(a: seq<SymFreq>)
    requires 2 <= |a| <= 65536
    ensures Sum(Items(Paired(a, |a| - 1))) == Paired(a, |a| - 1).a[|a| - 2].key
  {
    hide Paired, Sum;
    Ends(a);
    OneItem(Paired(a, |a| - 1));
    SumOne(Paired(a, |a| - 1).a[|a| - 2].key);
  }

  lemma OneItem(p: Pairing)
    requires p.leaf == |p.a| && p.root + 1 == p.next <= |p.a|
    ensures Items(p) == [p.a[p.root].key]
  {
  }

  lemma SumOne(w: nat)
    ensures Sum([w]) == w
  {
    assert [w][1..] == [];
  }

  lemma RootDepth(a: seq<SymFreq>)
    requires 2 <= |a| <= 65536
    ensures Depth(Par(a), |a| - 2) == 0
  {
  }

  /** A symbol not yet taken: its cell still holds its weight. */
  lemma {:induction false} LeafCell(a: seq<SymFreq>, t: nat, k: nat)
    requires 2 <= |a| <= 65536 && 1 <= t <= |a| - 1 && t <= k < |a|
    ensures Paired(a, t).a[k] == a[k]
  {
    hide Paired, First, Second;
    if t > 1 {
      LeafCell(a, t - 1, k);
      Round(a, t - 1);
    } else {
      StartCell(a, k);
    }
  }

  lemma StartCell(a: seq<SymFreq>, k: nat)
    requires 2 <= |a| <= 65536 && 1 <= k < |a|
    ensures Paired(a, 1).a[k] == a[k]
  {
  }

  /** From any round on, a symbol still waiting ends up under nodes that grow as fast. */
  lemma {:induction false} LeafFrom(a: seq<SymFreq>, t: nat, last: nat, i: nat)
    requires 2 <= |a| <= 65536 && 1 <= t <= |a| - 1 && Ready(a, t, last) && Paired(a, t).leaf <= i < |a|
    ensures a[i].key * Growth(LeafLen(a, i) - 1) <= Sum(Items(Paired(a, t)))
    decreases |a| - t
  {
    hide First, Second, Paired, Par, Depth, Items, Lightest, Without, PairEffect, Queued, Newest, Growth, LeafLen,
         FirstFromInternal, SecondFromInternal, Index, Sum, Heavy;
    if t == |a| - 1 {
      Ends(a);
    } else {
      Round(a, t);
      var p := Paired(a, t);
      var j0, j, x, y := RoundItems(p, last);
      if i < Paired(a, t + 1).leaf {
        TakenLeaf(a, t, i);
        TakenWeight(a, t, i, x, y);
        HeavyStart(a[i].key, x, y);
        ChainFrom(a, t + 1, y, t, a[i].key, LeafLen(a, i) - 1);
      } else {
        LeafFrom(a, t + 1, y, i);
      }
    }
  }

  lemma HeavyStart(w: nat, x: nat, y: nat)
    requires x <= y && (w == x || w == y)
    ensures Heavy(x + y, y, w, 0)
  {
  }

  lemma TakenWeight(a: seq<SymFreq>, t: nat, i: nat, x: nat, y: nat)
    requires 2 <= |a| <= 65536 && 1 <= t < |a| - 1 && Paired(a, t).leaf <= i < Paired(a, t + 1).leaf && i < |a|
    requires Takes(Paired(a, t), First(Paired(a, t)), Paired(a, t + 1), x, y)
    ensures a[i].key == x || a[i].key == y
  {
    hide First, Second, Paired, Par, FirstFromInternal, SecondFromInternal;
    LeafCell(a, t, i);
  }

  /** No symbol is heavier than its depth allows: the sum of all weights is as many times its own as
      a Fibonacci number of its code length. */
  lemma LeafIsLight(a: seq<SymFreq>, i: nat)
    requires Weights(a) && i < |a|
    ensures a[i].key * Growth(LeafLen(a, i) - 1) <= Sum(Keys(a, 0, |a|))
  {
    hide Paired, Par, Depth, Ready, Keys, Growth, LeafLen, Sum, Heavy, Items;
    StartItems(a);
    StartCursors(a);
    StartSum(a);
    if i < 2 { FirstIsLight(a, i); } else { LeafFrom(a, 1, a[1].key, i); }
  }

  lemma FirstIsLight(a: seq<SymFreq>, i: nat)
    requires Weights(a) && i < 2 && Ready(a, 1, a[1].key)
    ensures a[i].key * Growth(LeafLen(a, i) - 1) <= Sum(Items(Paired(a, 1)))
  {
    hide Paired, Par, Depth, Ready, Keys, Growth, LeafLen, Sum, Heavy, Items, Weights;
    WeightsShape(a);
    StartCursors(a);
    StartLeaves(a);
    FirstNode(a);
    HeavyStart(a[i].key, a[0].key, a[1].key);
    ChainFrom(a, 1, a[1].key, 0, a[i].key, LeafLen(a, i) - 1);
  }

  lemma WeightsShape(a: seq<SymFreq>)
    requires Weights(a)
    ensures 2 <= |a| <= 65536
  {
  }

  lemma StartSum(a: seq<SymFreq>)
    requires Weights(a)
    ensures Sum(Items(Paired(a, 1))) == Sum(Keys(a, 0, |a|)) < 65536
  {
    hide Paired, Sum, Keys;
    var k := Keys(a, 0, |a|);
    StartWeights(k);
    StartKeys(a, k);
  }

  lemma FirstNode(a: seq<SymFreq>)
    requires Weights(a)
    ensures 1 <= a[0].key <= a[1].key && Paired(a, 1).a[0].key == a[0].key + a[1].key
  {
    hide Paired, Sum, Keys;
    var k := Keys(a, 0, |a|);
    assert a[0].key == k[0] && a[1].key == k[1];
    StartWeights(k);
    StartKeys(a, k);
  }

  /** 16-bit sums keep the tree shallow: no symbol lies deeper than 22. */
  lemma TreeIsShallow(a: seq<SymFreq>)
    requires Weights(a)
    ensures Depth(Par(a), 0) <= 21
  {
    hide Paired, Par, Depth, Ready, Keys, Sum;
    StartItems(a);
    StartCursors(a);
    StartSum(a);
    FirstNode(a);
    // The first node weighs twice the lightest symbol: it stands one level up already.
    ChainFrom(a, 1, a[1].key, 0, a[0].key, Depth(Par(a), 0) + 1);
    AtLeastOnce(a[0].key, Growth(Depth(Par(a), 0) + 1));
    NotThatDeep(Depth(Par(a), 0));
  }

  lemma AtLeastOnce(w: nat, g: nat)
    requires w >= 1
    ensures w * g >= g
  {
  }

  lemma NotThatDeep(d: nat)
    ensures Growth(d + 1) < 65536 ==> d <= 21
  {
    GrowthValue();
    if d >= 22 { GrowthRises(23, d + 1); }
  }
}
