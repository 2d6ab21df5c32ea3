/** The third phase of the in-place construction: code lengths from the depths of the tree. */
module CodeLengths {
  import opened Symbols
  import opened MinimumRedundancy
  import opened PrefixCost
  import opened HuffmanOptimal

  // ---------------------------------------------------------------- phase three: code lengths

  function HalfPow(d: nat): (r: real)
    ensures r > 0.0
  {
    if d == 0 then 1.0 else HalfPow(d - 1) / 2.0
  }

  /** The Kraft sum of the lengths in a. */
  function Kraft(a: seq<SymFreq>): real {
    if a == [] then 0.0 else HalfPow(a[0].key) + Kraft(a[1..])
  }

  ghost predicate Falling(a: seq<SymFreq>) {
    forall i, j :: 0 <= i <= j < |a| ==> a[i].key >= a[j].key
  }

  /** Nodes (root, top] are the level above dpth, and avbl counts their child slots. */
  ghost predicate Level(par: seq<SymFreq>, dpth: nat, root: int, top: int, avbl: nat)
    requires Tree(par)
  {
    && -1 <= root <= top <= |par| - 2
    && (avbl > 0 && root >= 0 ==> Depth(par, root) == dpth)
    && (avbl == 0 ==> root == -1)
    && if dpth == 0 then root == |par| - 2 && avbl == 1 else
         && avbl == 2 * (top - root)
         && (forall k :: root < k <= top ==> Depth(par, k) == dpth - 1)
         && (forall k :: top < k <= |par| - 2 ==> Depth(par, k) < dpth - 1)
  }

  lemma LevelDescends(par: seq<SymFreq>, dpth: nat, root: int, top: int, avbl: nat, root': int)
    requires Tree(par) && Level(par, dpth, root, top, avbl) && avbl > 0
    requires -1 <= root' <= root
    requires forall k :: root' < k <= root ==> Depth(par, k) == dpth
    requires root' >= 0 ==> Depth(par, root') != dpth
    ensures root - root' <= avbl
    ensures Level(par, dpth + 1, root', root, 2 * (root - root'))
    ensures root' >= 0 ==> root - root' > 0
  {
    if root' >= 0 {
      assert root' < root;
      DepthFallsSlowly(par, root', root' + 1);
    }
    if dpth == 0 {
      if root > 0 { DepthPositiveBelowRoot(par, root - 1); }
    } else {
      forall k | root' < k <= root
        ensures root < par[k].key <= top
      {
        assert k < |par| - 2;
        assert Depth(par, k) == 1 + Depth(par, par[k].key);
      }
      if root' < root { LevelDoubles(par, root', root, top); }
    }
  }

  /** The share of the code space that n free slots at depth d stand for. */
  function Slots(n: nat, d: nat): real {
    n as real * HalfPow(d)
  }

  lemma SlotsSplit(d: nat, used: nat)
    ensures Slots(used, d) == Slots(2 * used, d + 1)
  {
  }

  lemma DepthPositiveBelowRoot(par: seq<SymFreq>, k: nat)
    requires Tree(par) && k < |par| - 2
    ensures Depth(par, k) >= 1
  {
  }

  lemma KraftStep(x: SymFreq, tail: seq<SymFreq>, left: nat)
    requires left > 0
    ensures Kraft([x] + tail) + Slots(left - 1, x.key) == Kraft(tail) + Slots(left, x.key)
  {
    assert ([x] + tail)[1..] == tail;
  }

  /** Writes the leaves of one level, highest index first. */
  method WriteLevel(a: array<SymFreq>, next: int, avbl: nat, used: nat, dpth: u16) returns (next': int)
    requires used <= avbl && avbl - used <= next + 1 && next < a.Length
    modifies a
    ensures next' == next - (avbl - used)
    ensures forall k :: 0 <= k <= next' ==> a[k] == old(a[k])
    ensures forall k :: next' < k <= next ==> a[k].key == dpth
    ensures forall k :: next < k < a.Length ==> a[k] == old(a[k])
    ensures SameSyms(a[..], old(a[..]))
    ensures Kraft(a[next' + 1..]) + Slots(used, dpth) == old(Kraft(a[next + 1..])) + Slots(avbl, dpth)
  {
    hide Slots, Kraft;
    var left := avbl;
    next' := next;
    while left > used
      invariant used <= left <= avbl && next' == next - (avbl - left)
      invariant forall k :: 0 <= k <= next' ==> a[k] == old(a[k])
      invariant forall k :: next' < k <= next ==> a[k].key == dpth
      invariant forall k :: next < k < a.Length ==> a[k] == old(a[k])
      invariant forall k :: 0 <= k < a.Length ==> a[k].sym == old(a[k].sym)
      invariant Kraft(a[next' + 1..]) + Slots(left, dpth) == old(Kraft(a[next + 1..])) + Slots(avbl, dpth)
    {
      ghost var tail := a[next' + 1..];
      a[next'] := a[next'].(key := dpth);
      assert a[next'..] == [a[next']] + tail;
      KraftStep(a[next'], tail, left);
      next' := next' - 1;
      left := left - 1;
    }
  }

  /** Skips the internal nodes that lie at depth dpth. */
  method CountLevel(a: array<SymFreq>, root: int, dpth: nat, ghost par: seq<SymFreq>) returns (root': int, used: nat)
    requires Tree(par) && |par| == a.Length && -1 <= root <= a.Length - 2
    requires Unread(a[..], root, par)
    ensures -1 <= root' <= root && used == root - root'
    ensures forall k :: root' < k <= root ==> Depth(par, k) == dpth
    ensures root' >= 0 ==> Depth(par, root') != dpth
  {
    root', used := root, 0;
    while root' >= 0 && a[root'].key == dpth
      invariant -1 <= root' <= root && used == root - root'
      invariant forall k :: root' < k <= root ==> Depth(par, k) == dpth
    {
      used, root' := used + 1, root' - 1;
    }
  }

  lemma LevelStart(par: seq<SymFreq>)
    requires Tree(par)
    ensures Level(par, 0, |par| - 2, |par| - 2, 1)
    ensures Kraft([]) + Slots(1, 0) == 1.0
  {
  }

  lemma LevelCap(par: seq<SymFreq>, dpth: nat, root: int, top: int, avbl: nat)
    requires Tree(par) && Level(par, dpth, root, top, avbl) && avbl > 0
    ensures dpth <= Depth(par, 0) + 1
    ensures dpth == 0 ==> root >= 0
  {
    if root >= 0 {
      DepthFallsSlowly(par, 0, root);
    } else {
      assert Depth(par, top) == dpth - 1;
      DepthFallsSlowly(par, 0, top);
    }
  }

  /** Cells root.. down to 0 still hold the depths phase two left there. */
  ghost predicate Unread(a: seq<SymFreq>, root: int, par: seq<SymFreq>)
    requires Tree(par) && |par| == |a| && -1 <= root <= |a| - 2
  {
    forall k :: 0 <= k <= root ==> a[k].key == Depth(par, k)
  }

  ghost predicate Written(a: seq<SymFreq>, from: int, bound: nat, cap: nat)
    requires 0 <= from
  {
    && (forall k :: from <= k < |a| ==> 1 <= a[k].key < bound && a[k].key <= cap)
    && (forall i, j :: from <= i <= j < |a| ==> a[i].key >= a[j].key)
  }

  lemma WrittenExtends(a: seq<SymFreq>, b: seq<SymFreq>, from: int, from': int, dpth: nat, cap: nat)
    requires |a| == |b| && 0 <= from' <= from <= |a| && Written(a, from, dpth, cap)
    requires forall k :: from' <= k < from ==> b[k].key == dpth
    requires forall k :: from <= k < |a| ==> b[k] == a[k]
    requires from' < from ==> 1 <= dpth <= cap
    ensures Written(b, from', dpth + 1, cap)
  {
  }

  lemma UnreadKept(a: seq<SymFreq>, b: seq<SymFreq>, root: int, root': int, next: int, par: seq<SymFreq>)
    requires Tree(par) && |par| == |a| == |b| && -1 <= root' <= root <= |a| - 2 && root' <= next < |a|
    requires Unread(a, root, par)
    requires forall k :: 0 <= k <= next ==> b[k] == a[k]
    ensures Unread(b, root', par)
  {
  }

  // ---------------------------------------------------------------- the lengths are the symbols' depths

  /** Exactly the nodes below r have parents up to m. */
  ghost predicate Splits(par: seq<SymFreq>, r: int, m: nat)
    requires Tree(par)
  {
    && 0 <= r <= |par| - 2
    && (forall k :: 0 <= k < r ==> par[k].key <= m)
    && (forall k :: r <= k < |par| - 2 ==> par[k].key > m)
  }

  /** lp gives each symbol's parent: every node has two children, counting nodes and symbols. */
  ghost predicate Leafed(par: seq<SymFreq>, lp: seq<nat>)
    requires Tree(par)
  {
    && |lp| == |par| && (forall i :: 0 <= i < |lp| ==> lp[i] <= |par| - 2)
    && forall m: nat, r: nat :: m <= |par| - 2 && Splits(par, r, m) ==>
         forall i :: 0 <= i < |lp| ==> (lp[i] <= m <==> i < 2 * (m + 1) - r)
  }

  ghost predicate Lengths(a: seq<SymFreq>, from: int, par: seq<SymFreq>, lp: seq<nat>)
    requires Tree(par) && |lp| == |a| == |par| && 0 <= from && forall i :: 0 <= i < |lp| ==> lp[i] <= |par| - 2
  {
    forall k :: from <= k < |a| ==> a[k].key == 1 + Depth(par, lp[k])
  }

  lemma LevelSplits(par: seq<SymFreq>, dpth: nat, root: int, top: int, avbl: nat)
    requires Tree(par) && Level(par, dpth, root, top, avbl) && dpth > 0 && top > root
    ensures Splits(par, root + 1, top)
  {
    forall k | 0 <= k <= root
      ensures par[k].key <= top
    {
      assert avbl > 0;
      DepthFallsSlowly(par, k, root);
      assert Depth(par, k) == 1 + Depth(par, par[k].key);
    }
    forall k | root < k < |par| - 2
      ensures par[k].key > top
    {
      assert Depth(par, k) == 1 + Depth(par, par[k].key);
    }
  }

  /** The symbols whose parents are on level dpth - 1 are those the level's pass writes. */
  lemma LevelLeaves(par: seq<SymFreq>, lp: seq<nat>, dpth: nat, root: int, top: int, avbl: nat, root': int, i: int)
    requires Tree(par) && Leafed(par, lp) && Level(par, dpth, root, top, avbl) && avbl > 0
    requires -1 <= root' <= root && Level(par, dpth + 1, root', root, 2 * (root - root'))
    requires root' >= 0 ==> root - root' > 0
    requires root' + 2 * (root - root') < i <= root + avbl && root + avbl < |par|
    ensures dpth > 0 && 0 <= i && lp[i] <= |par| - 2 && Depth(par, lp[i]) == dpth - 1
  {
    if dpth > 0 {
      LevelSplits(par, dpth, root, top, avbl);
      if root > root' { LevelSplits(par, dpth + 1, root', root, 2 * (root - root')); }
      assert lp[i] <= top <==> i < 2 * (top + 1) - (root + 1);
      if root > root' { assert lp[i] <= root <==> i < 2 * (root + 1) - (root' + 1); }
    }
  }

  /** What holds before each level: unwritten symbols up to next, and their slots. */
  ghost predicate Assigning(a: seq<SymFreq>, par: seq<SymFreq>, lp: seq<nat>, dpth: nat, root: int, top: int, avbl: nat, next: int)
    requires Tree(par) && Leafed(par, lp)
  {
    && |a| == |par| && -1 <= root <= |a| - 2 && next == root + avbl < |a|
    && Level(par, dpth, root, top, avbl) && Unread(a, root, par)
    && Written(a, next + 1, dpth, Depth(par, 0) + 1)
    && Lengths(a, next + 1, par, lp)
    && Kraft(a[next + 1..]) + Slots(avbl, dpth) == 1.0
  }

  lemma LengthsExtend(a: seq<SymFreq>, b: seq<SymFreq>, par: seq<SymFreq>, lp: seq<nat>, dpth: nat, root: int, top: int, avbl: nat,
                      root': int, next: int, next': int)
    requires Tree(par) && Leafed(par, lp) && |a| == |b| == |par| && Level(par, dpth, root, top, avbl) && avbl > 0
    requires -1 <= root' <= root && Level(par, dpth + 1, root', root, 2 * (root - root'))
    requires root' >= 0 ==> root - root' > 0
    requires next == root + avbl < |a| && next' == root' + 2 * (root - root') <= next
    requires Lengths(a, next + 1, par, lp)
    requires forall k :: next' < k <= next ==> b[k].key == dpth
    requires forall k :: next < k < |a| ==> b[k] == a[k]
    ensures Lengths(b, next' + 1, par, lp)
    ensures next' < next ==> dpth > 0
  {
    hide Level, Leafed;
    LeafedBounds(par, lp);
    forall k | next' < k < |b|
      ensures b[k].key == 1 + Depth(par, lp[k])
    {
      if k <= next { LevelLeaves(par, lp, dpth, root, top, avbl, root', k); }
    }
    if next' < next { LevelLeaves(par, lp, dpth, root, top, avbl, root', next); }
  }

  lemma LeafedBounds(par: seq<SymFreq>, lp: seq<nat>)
    requires Tree(par) && Leafed(par, lp)
    ensures |lp| == |par| && forall i :: 0 <= i < |lp| ==> lp[i] <= |par| - 2
  {
  }

  /** One level: counts its nodes, and gives the slots left over to symbols. */
  method AssignLevel(a: array<SymFreq>, root: int, next: int, avbl: nat, dpth: nat, ghost par: seq<SymFreq>, ghost lp: seq<nat>,
                     ghost top: int) returns (root': int, next': int, used: nat)
    requires 2 <= a.Length <= 65536 && Tree(par) && Leafed(par, lp)
    requires Assigning(a[..], par, lp, dpth, root, top, avbl, next) && avbl > 0
    modifies a
    ensures SameSyms(a[..], old(a[..]))
    ensures Assigning(a[..], par, lp, dpth + 1, root', root, 2 * used, next')
    ensures root' <= root && used == root - root' && (root' == root ==> root == -1)
  {
    hide Slots, Kraft, Tree, Depth, SameSyms, Unread, Written, Level, Lengths, Leafed;
    ghost var before := a[..];
    LevelCap(par, dpth, root, top, avbl);
    root', used := CountLevel(a, root, dpth, par);
    LevelDescends(par, dpth, root, top, avbl, root');
    next' := WriteLevel(a, next, avbl, used, dpth);
    SlotsSplit(dpth, used);
    LengthsExtend(before, a[..], par, lp, dpth, root, top, avbl, root', next, next');
    WrittenExtends(before, a[..], next + 1, next' + 1, dpth, Depth(par, 0) + 1);
    UnreadKept(before, a[..], root, root', next', par);
  }

  method AssignLengths(a: array<SymFreq>, ghost par: seq<SymFreq>, ghost lp: seq<nat>)
    requires 2 <= a.Length <= 65536 && |par| == a.Length && Tree(par) && Leafed(par, lp)
    requires Unread(a[..], a.Length - 2, par)
    modifies a
    ensures SameSyms(a[..], old(a[..]))
    ensures Kraft(a[..]) == 1.0 && Falling(a[..])
    ensures Lengths(a[..], 0, par, lp)
    ensures forall k :: 0 <= k < a.Length ==> 1 <= a[k].key <= Depth(par, 0) + 1
  {
    hide Slots, Kraft, Tree, Depth, SameSyms, Unread, Written, Level, Lengths, Leafed;
    ghost var orig := a[..];
    var n := a.Length;
    var avbl, used, dpth, root, next := 1, 0, 0, n - 2, n - 1;
    ghost var top := n - 2;
    AssigningStart(a[..], par, lp);
    while avbl > 0
      invariant 0 <= avbl && Assigning(a[..], par, lp, dpth, root, top, avbl, next)
      invariant SameSyms(a[..], orig)
      decreases root + 1, avbl
    {
      ghost var before, root0 := a[..], root;
      root, next, used := AssignLevel(a, root, next, avbl, dpth, par, lp, top);
      SameSymsTransitive(a[..], before, orig);
      avbl, dpth, top := 2 * used, dpth + 1, root0;
    }
    AssigningEnd(a[..], par, lp, dpth, root, top, next);
  }

  lemma AssigningStart(a: seq<SymFreq>, par: seq<SymFreq>, lp: seq<nat>)
    requires 2 <= |a| && |par| == |a| && Tree(par) && Leafed(par, lp) && Unread(a, |a| - 2, par)
    ensures Assigning(a, par, lp, 0, |a| - 2, |a| - 2, 1, |a| - 1) && SameSyms(a, a)
  {
    LevelStart(par);
    Reflexive(a, Depth(par, 0) + 1);
    assert a[|a|..] == [];
  }

  lemma AssigningEnd(a: seq<SymFreq>, par: seq<SymFreq>, lp: seq<nat>, dpth: nat, root: int, top: int, next: int)
    requires Tree(par) && Leafed(par, lp) && |par| == |a| && Assigning(a, par, lp, dpth, root, top, 0, next)
    ensures Kraft(a) == 1.0 && Falling(a) && Lengths(a, 0, par, lp)
    ensures forall k :: 0 <= k < |a| ==> 1 <= a[k].key <= Depth(par, 0) + 1
  {
    hide Kraft, Slots, Leafed;
    LevelEnds(par, dpth, root, top);
    assert a[0..] == a;
    WrittenAll(a, dpth, Depth(par, 0) + 1);
  }

  lemma Reflexive(a: seq<SymFreq>, cap: nat)
    ensures SameSyms(a, a) && Written(a, |a|, 0, cap)
  {
  }

  lemma LevelEnds(par: seq<SymFreq>, dpth: nat, root: int, top: int)
    requires Tree(par) && Level(par, dpth, root, top, 0)
    ensures root == -1 && Slots(0, dpth) == 0.0
  {
  }

  lemma WrittenAll(a: seq<SymFreq>, bound: nat, cap: nat)
    requires Written(a, 0, bound, cap)
    ensures Falling(a) && forall k :: 0 <= k < |a| ==> 1 <= a[k].key <= cap
  {
  }

  // ---------------------------------------------------------------- the parents of the symbols

  function LeafParents(a: seq<SymFreq>): (lp: seq<nat>)
    requires 2 <= |a| <= 65536
    ensures |lp| == |a| && forall i :: 0 <= i < |lp| ==> lp[i] == LeafParent(a, i, |a| - 1) <= |a| - 2
  {
    seq(|a|, i requires 0 <= i < |a| => LeafParent(a, i, |a| - 1))
  }

  /** After round m, root nodes and 2(m + 1) - root symbols have a parent up to m. */
  lemma ParentsOfRound(a: seq<SymFreq>, m: nat, r: nat, i: nat)
    requires 2 <= |a| <= 65536 && m <= |a| - 2 && Splits(Par(a), r, m) && i < |a|
    ensures LeafParent(a, i, |a| - 1) <= m <==> i < 2 * (m + 1) - r
  {
    hide Paired, Par, LeafParent;
    Ends(a);
    var p := Paired(a, m + 1);
    LeafParentBefore(a, i, |a| - 1, m + 1);
    SplitIsRoot(a, m, r);
  }

  lemma SplitIsRoot(a: seq<SymFreq>, m: nat, r: nat)
    requires 2 <= |a| <= 65536 && m <= |a| - 2 && Splits(Par(a), r, m)
    ensures r == Paired(a, m + 1).root
  {
    hide Paired, Par, Tree;
    Ends(a);
    var root := Paired(a, m + 1).root;
    LeafRises(a, m + 1, |a| - 1);
    if r < root {
      ParentKept(a, m + 1, r);
      EarlyParents(a, m + 1, r);
    }
    if root < r { LateParents(a, m + 1, root); }
  }

  lemma EarlyParents(a: seq<SymFreq>, t: nat, k: nat)
    requires 2 <= |a| <= 65536 && 1 <= t <= |a| - 1 && k < Paired(a, t).root
    ensures Paired(a, t).a[k].key < t
  {
    hide Paired;
    PairedShape(a, t);
  }

  lemma {:induction false} LateParents(a: seq<SymFreq>, t: nat, k: nat)
    requires 2 <= |a| <= 65536 && 1 <= t <= |a| - 1 && Paired(a, t).root <= k < |a| - 2
    ensures Par(a)[k].key >= t
    decreases |a| - t
  {
    hide Paired, Par;
    Ends(a);
    if t < |a| - 1 {
      if k < Paired(a, t + 1).root { TakenParent(a, t, k); } else { LateParents(a, t + 1, k); }
    }
  }

  lemma ParentsLeafed(a: seq<SymFreq>)
    requires 2 <= |a| <= 65536
    ensures Leafed(Par(a), LeafParents(a))
  {
    hide Par, LeafParent, Splits;
    var lp := LeafParents(a);
    forall m: nat, r: nat | m <= |a| - 2 && Splits(Par(a), r, m)
      ensures forall i :: 0 <= i < |lp| ==> (lp[i] <= m <==> i < 2 * (m + 1) - r)
    {
      forall i | 0 <= i < |lp|
        ensures lp[i] <= m <==> i < 2 * (m + 1) - r
      {
        ParentsOfRound(a, m, r, i);
      }
    }
  }

  // ---------------------------------------------------------------- the whole construction

  /** Lengths b for weights a: as cheap as any prefix code. */
  ghost predicate Optimal(a: seq<SymFreq>, b: seq<SymFreq>) {
    |a| == |b| && LowerBound(Keys(a, 0, |a|), Cost(Keys(a, 0, |a|), Keys(b, 0, |b|)))
  }

  /** No symbol is longer than its share of the weight allows. */
  ghost predicate Light(a: seq<SymFreq>, b: seq<SymFreq>) {
    |a| == |b| && forall k :: 0 <= k < |a| ==> b[k].key >= 1 && a[k].key * Growth(b[k].key - 1) <= Sum(Keys(a, 0, |a|))
  }

  lemma LengthsAreLight(a: seq<SymFreq>, b: seq<SymFreq>)
    requires Weights(a) && |a| == |b| && Leafed(Par(a), LeafParents(a)) && Lengths(b, 0, Par(a), LeafParents(a))
    ensures Light(a, b)
  {
    hide Par, Leafed, Depth, Lengths, LeafParents, LeafLen, Sum, Keys, Growth;
    forall k | 0 <= k < |a|
      ensures b[k].key >= 1 && a[k].key * Growth(b[k].key - 1) <= Sum(Keys(a, 0, |a|))
    {
      LengthIsDepth(a, b, k);
      LeafIsLight(a, k);
    }
  }

  lemma LengthsAreDepths(a: seq<SymFreq>, b: seq<SymFreq>)
    requires 2 <= |a| == |b| <= 65536 && Leafed(Par(a), LeafParents(a)) && Lengths(b, 0, Par(a), LeafParents(a))
    ensures Keys(b, 0, |b|) == LeafLens(a, 0, |a|)
  {
    hide Par, Leafed, Depth, LeafLen, LeafLens, Keys, Lengths, LeafParents;
    forall i | 0 <= i < |a|
      ensures Keys(b, 0, |b|)[i] == LeafLens(a, 0, |a|)[i]
    {
      LeafLensAt(a, 0, |a|, i);
      LengthIsDepth(a, b, i);
    }
  }

  lemma LengthIsDepth(a: seq<SymFreq>, b: seq<SymFreq>, i: nat)
    requires 2 <= |a| == |b| <= 65536 && Leafed(Par(a), LeafParents(a)) && Lengths(b, 0, Par(a), LeafParents(a)) && i < |a|
    ensures b[i].key == LeafLen(a, i)
  {
    hide Par, Leafed, Depth, LeafParent;
  }

  lemma LengthsAreOptimal(a: seq<SymFreq>, b: seq<SymFreq>)
    requires Weights(a) && |a| == |b| && Leafed(Par(a), LeafParents(a)) && Lengths(b, 0, Par(a), LeafParents(a))
    ensures Optimal(a, b) && Depth(Par(a), 0) <= 21
  {
    hide Par, Leafed, Depth, Lengths, LeafParents, LowerBound, Cost;
    LengthsAreDepths(a, b);
    TreeIsOptimal(a);
    TreeIsShallow(a);
  }

  /** Two symbols or more. */
  method CalculateMany(a: array<SymFreq>)
    requires 2 <= a.Length <= 65536
    modifies a
    ensures SameSyms(a[..], old(a[..]))
    ensures Kraft(a[..]) == 1.0 && Falling(a[..])
    ensures forall k :: 0 <= k < a.Length ==> 1 <= a[k].key
    ensures Weights(old(a[..])) ==> Optimal(old(a[..]), a[..]) && Light(old(a[..]), a[..])
    ensures Weights(old(a[..])) ==> forall k :: 0 <= k < a.Length ==> a[k].key == LeafLen(old(a[..]), k) <= 22
  {
    hide Parents, SameSyms, Depth, Kraft, Paired, Tree, Leafed, Lengths, Optimal, Weights, LeafParents, Light, LeafLen;
    ghost var orig := a[..];
    PairUp(a);
    ghost var par := a[..];
    assert par == Par(orig);
    PairedSyms(orig);
    ParentsLeafed(orig);
    FindDepths(a);
    SameSymsTransitive(a[..], par, orig);
    ghost var mid := a[..];
    AssignLengths(a, par, LeafParents(orig));
    SameSymsTransitive(a[..], mid, orig);
    if Weights(orig) {
      LengthsAreOptimal(orig, a[..]);
      LengthsAreLight(orig, a[..]);
      forall k | 0 <= k < a.Length
        ensures a[k].key == LeafLen(orig, k)
      {
        LengthIsDepth(orig, a[..], k);
      }
    }
  }

  lemma PairedSyms(a: seq<SymFreq>)
    requires 2 <= |a| <= 65536
    ensures SameSyms(Par(a), a)
  {
    hide Paired;
    PairedShape(a, |a| - 1);
  }

  /** Of a symbol and a node of the same weight the symbol is taken first, which keeps the code flat: weights 1, 1, 2
      and 2 get two bits each, not three, three, two and one. */
  lemma TiesStayFlat(a: seq<SymFreq>)
    requires |a| == 4 && a[0].key == a[1].key == 1 && a[2].key == a[3].key == 2
    ensures forall i :: 0 <= i < 4 ==> LeafLen(a, i) == 2
  {
    var p1, p2, p3 := Paired(a, 1), Paired(a, 2), Paired(a, 3);
    assert p1.root == 0 && p1.leaf == 2 && p1.a[0].key == 2;
    assert p2.root == 0 && p2.leaf == 4 && p2.a[1].key == 4 && p2.a[0].key == 2;
    assert p3.root == 2 && p3.a[0].key == 2 && p3.a[1].key == 2;
    assert Par(a) == p3.a;
    assert Depth(p3.a, 0) == 1 + Depth(p3.a, 2) && Depth(p3.a, 1) == 1 + Depth(p3.a, 2);
  }

  /** tdefl_calculate_minimum_redundancy. */
  method Calculate(a: array<SymFreq>)
    requires a.Length <= 65536
    modifies a
    ensures SameSyms(a[..], old(a[..]))
    ensures a.Length == 1 ==> a[0].key == 1
    ensures a.Length >= 2 ==> Kraft(a[..]) == 1.0
    ensures Falling(a[..])
    ensures forall k :: 0 <= k < a.Length ==> 1 <= a[k].key
    ensures Weights(old(a[..])) ==> Optimal(old(a[..]), a[..]) && Light(old(a[..]), a[..])
    ensures Weights(old(a[..])) ==> forall k :: 0 <= k < a.Length ==> a[k].key == LeafLen(old(a[..]), k) <= 22
  {
    hide Kraft, Optimal, Light, LeafLen;
    if a.Length >= 2 {
      CalculateMany(a);
    } else if a.Length == 1 {
      a[0] := a[0].(key := 1);
    }
  }
}
