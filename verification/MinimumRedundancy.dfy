/** In-place minimum-redundancy code construction (Moffat and Katajainen), as
    tdefl_calculate_minimum_redundancy runs it: one array of 16-bit keys holds, in turn,
    symbol weights, internal weights, parent pointers, internal depths and code lengths. */
module MinimumRedundancy {

  import opened Symbols

  function SetKey(a: seq<SymFreq>, k: nat, v: u16): (r: seq<SymFreq>)
    requires k < |a|
    ensures |r| == |a|
  {
    a[k := a[k].(key := v)]
  }

  // ---------------------------------------------------------------- phase one: pairing

  /** Cells below root hold parent pointers, root..next internal weights, leaf.. symbol weights. */
  datatype Pairing = Pairing(a: seq<SymFreq>, root: nat, leaf: nat, next: nat)

  ghost predicate Parents(a: seq<SymFreq>, upto: int, bound: int)
    requires upto <= |a|
  {
    && (forall k :: 0 <= k < upto ==> k < a[k].key < bound)
    && (forall i, j :: 0 <= i <= j < upto ==> a[i].key <= a[j].key)
    && (forall k, l :: 0 <= k && l == k + 2 && l < upto ==> a[k].key < a[l].key)
  }

  ghost predicate Shape(p: Pairing, orig: seq<SymFreq>) {
    && |p.a| == |orig| >= 2
    && 1 <= p.next <= |orig| - 1
    && p.root < p.next
    && p.root + p.leaf == 2 * p.next
    && p.leaf <= |orig|
    && SameSyms(p.a, orig)
    && (forall k :: p.leaf <= k < |orig| ==> p.a[k] == orig[k])
    && Parents(p.a, p.root, p.next)
  }

  predicate FirstFromInternal(p: Pairing)
    requires p.root < p.next < |p.a|
  {
    p.leaf >= |p.a| || p.a[p.root].key < p.a[p.leaf].key
  }

  function First(p: Pairing): (r: Pairing)
    requires p.root < p.next < |p.a| <= 65536
  {
    if FirstFromInternal(p) then
      Pairing(SetKey(SetKey(p.a, p.next, p.a[p.root].key), p.root, p.next), p.root + 1, p.leaf, p.next)
    else
      Pairing(SetKey(p.a, p.next, p.a[p.leaf].key), p.root, p.leaf + 1, p.next)
  }

  predicate SecondFromInternal(p: Pairing)
    requires p.root <= p.next < |p.a|
  {
    p.leaf >= |p.a| || (p.root < p.next && p.a[p.root].key < p.a[p.leaf].key)
  }

  function Second(p: Pairing): (r: Pairing)
    requires p.root <= p.next < |p.a| <= 65536
  {
    if SecondFromInternal(p) then
      Pairing(SetKey(SetKey(p.a, p.next, (p.a[p.next].key + p.a[p.root].key) % 65536), p.root, p.next),
              p.root + 1, p.leaf, p.next + 1)
    else
      Pairing(SetKey(p.a, p.next, (p.a[p.next].key + p.a[p.leaf].key) % 65536), p.root, p.leaf + 1, p.next + 1)
  }

  /** One round takes two items and makes them the children of internal node `next`. */
  function Pair(p: Pairing): (r: Pairing)
    requires p.root < p.next < |p.a| <= 65536
  {
    Second(First(p))
  }

  /** What one round changes: cell `next` gets a weight, the internal nodes taken get
      `next` as their parent, and nothing else moves. */
  ghost predicate PairEffect(p: Pairing, r: Pairing)
    requires p.root < p.next < |p.a|
  {
    && |r.a| == |p.a| && SameSyms(r.a, p.a)
    && r.next == p.next + 1 && r.root + r.leaf == p.root + p.leaf + 2
    && p.root <= r.root <= p.root + 2 && r.root <= p.next
    && p.leaf <= r.leaf
    && (r.leaf <= |p.a| || r.leaf == p.leaf)
    && (forall k :: p.root <= k < r.root ==> r.a[k].key == p.next)
    && (forall k :: 0 <= k < |p.a| && k != p.next && !(p.root <= k < r.root) ==> r.a[k] == p.a[k])
  }

  lemma PairHasEffect(p: Pairing)
    requires p.root < p.next < |p.a| - 1 && |p.a| <= 65536 && p.root + p.leaf == 2 * p.next && p.leaf <= |p.a|
    ensures PairEffect(p, Pair(p))
    ensures SecondFromInternal(First(p)) ==> First(p).root < p.next
  {
  }

  lemma ParentsExtend(a: seq<SymFreq>, b: seq<SymFreq>, root: nat, root': nat, next: nat)
    requires |a| == |b| && root <= root' <= root + 2 && root' <= next < |a|
    requires Parents(a, root, next)
    requires forall k :: 0 <= k < root ==> b[k] == a[k]
    requires forall k :: root <= k < root' ==> b[k].key == next
    ensures Parents(b, root', next + 1)
  {
  }

  lemma PairKeepsShape(p: Pairing, orig: seq<SymFreq>)
    requires Shape(p, orig) && p.next < |orig| - 1 && |orig| <= 65536
    ensures Shape(Pair(p), orig)
  {
    hide Pair, SameSyms, Parents;
    PairHasEffect(p);
    var r := Pair(p);
    ParentsExtend(p.a, r.a, p.root, r.root, p.next);
    SameSymsTransitive(r.a, p.a, orig);
  }

  lemma SameSymsTransitive(a: seq<SymFreq>, b: seq<SymFreq>, c: seq<SymFreq>)
    requires SameSyms(a, b) && SameSyms(b, c)
    ensures SameSyms(a, c)
  {
  }

  function Start(a: seq<SymFreq>): (p: Pairing)
    requires 2 <= |a|
  {
    Pairing(SetKey(a, 0, (a[0].key + a[1].key) % 65536), 0, 2, 1)
  }

  function Paired(a: seq<SymFreq>, upto: nat): (p: Pairing)
    requires 2 <= |a| <= 65536 && 1 <= upto <= |a| - 1
    ensures p.next == upto && |p.a| == |a| && p.root < p.next && p.root + p.leaf == 2 * p.next && p.leaf <= |a|
  {
    if upto == 1 then
      Start(a)
    else
      var q := Paired(a, upto - 1);
      PairHasEffect(q);
      Pair(q)
  }

  lemma {:induction false} PairedShape(a: seq<SymFreq>, upto: nat)
    requires 2 <= |a| <= 65536 && 1 <= upto <= |a| - 1
    ensures Shape(Paired(a, upto), a)
  {
    hide Pair;
    if upto > 1 {
      PairedShape(a, upto - 1);
      PairKeepsShape(Paired(a, upto - 1), a);
    }
  }

  lemma PairedBounds(a: seq<SymFreq>, upto: nat)
    requires 2 <= |a| <= 65536 && 1 <= upto < |a| - 1
    ensures var p := Paired(a, upto);
            && First(p).next == p.next && First(p).root <= p.next && |First(p).a| == |a|
            && (SecondFromInternal(First(p)) ==> First(p).root < p.next)
            && Paired(a, upto + 1) == Second(First(p))
  {
    var p := Paired(a, upto);
    hide Parents, SameSyms;
    PairHasEffect(p);
  }

  method TakeFirst(a: array<SymFreq>, root: nat, leaf: nat, next: nat) returns (root': nat, leaf': nat)
    requires root < next < a.Length <= 65536
    modifies a
    ensures Pairing(a[..], root', leaf', next) == First(Pairing(old(a[..]), root, leaf, next))
  {
    if leaf >= a.Length || a[root].key < a[leaf].key {
      a[next] := a[next].(key := a[root].key);
      a[root] := a[root].(key := next);
      root', leaf' := root + 1, leaf;
    } else {
      a[next] := a[next].(key := a[leaf].key);
      root', leaf' := root, leaf + 1;
    }
  }

  method TakeSecond(a: array<SymFreq>, root: nat, leaf: nat, next: nat) returns (root': nat, leaf': nat)
    requires root <= next < a.Length <= 65536
    modifies a
    ensures Pairing(a[..], root', leaf', next + 1) == Second(Pairing(old(a[..]), root, leaf, next))
  {
    if leaf >= a.Length || (root < next && a[root].key < a[leaf].key) {
      a[next] := a[next].(key := (a[next].key + a[root].key) % 65536);
      a[root] := a[root].(key := next);
      root', leaf' := root + 1, leaf;
    } else {
      a[next] := a[next].(key := (a[next].key + a[leaf].key) % 65536);
      root', leaf' := root, leaf + 1;
    }
  }

  method PairUp(a: array<SymFreq>)
    requires 2 <= a.Length <= 65536
    modifies a
    ensures a[..] == Paired(old(a[..]), a.Length - 1).a
  {
    hide Shape, First, Second;
    ghost var orig := a[..];
    a[0] := a[0].(key := (a[0].key + a[1].key) % 65536);
    assert a[..] == Start(orig).a by { assert a[..] == orig[0 := a[0]]; }
    var root, leaf, next := 0, 2, 1;
    while next < a.Length - 1
      invariant 1 <= next <= a.Length - 1
      invariant Pairing(a[..], root, leaf, next) == Paired(orig, next)
    {
      PairedBounds(orig, next);
      root, leaf := TakeFirst(a, root, leaf, next);
      root, leaf := TakeSecond(a, root, leaf, next);
      next := next + 1;
    }
  }

  // ---------------------------------------------------------------- phase two: depths

  /** A parent array as phase one leaves it: n - 2 pointers towards the root n - 2. */
  ghost predicate Tree(par: seq<SymFreq>) {
    |par| >= 2 && Parents(par, |par| - 2, |par| - 1)
  }

  function Depth(par: seq<SymFreq>, k: nat): (d: nat)
    requires Tree(par) && k <= |par| - 2
    ensures d <= |par| - 2 - k
    decreases |par| - k
  {
    if k == |par| - 2 then 0 else 1 + Depth(par, par[k].key)
  }

  lemma TreeStep(par: seq<SymFreq>, k: nat)
    requires Tree(par) && k < |par| - 2
    ensures k < par[k].key <= |par| - 2
    ensures Depth(par, k) == 1 + Depth(par, par[k].key)
  {
  }

  method FindDepths(a: array<SymFreq>)
    requires 2 <= a.Length <= 65536 && Tree(a[..])
    modifies a
    ensures forall k :: 0 <= k <= a.Length - 2 ==> a[k].key == Depth(old(a[..]), k)
    ensures SameSyms(a[..], old(a[..]))
    ensures a[a.Length - 1] == old(a[a.Length - 1])
  {
    hide Tree, Parents;
    ghost var par := a[..];
    var n := a.Length;
    a[n - 2] := a[n - 2].(key := 0);
    var next := n - 3;
    while next >= 0
      invariant -1 <= next <= n - 3
      invariant forall k :: 0 <= k <= next ==> a[k] == par[k]
      invariant forall k :: next < k <= n - 2 ==> a[k].key == Depth(par, k)
      invariant forall k :: 0 <= k < n ==> a[k].sym == par[k].sym
      invariant a[n - 1] == par[n - 1]
    {
      TreeStep(par, next);
      a[next] := a[next].(key := a[a[next].key].key + 1);
      next := next - 1;
    }
  }

  lemma {:induction false} DepthFallsSlowly(par: seq<SymFreq>, i: nat, j: nat)
    requires Tree(par) && i <= j <= |par| - 2
    ensures Depth(par, i) >= Depth(par, j)
    ensures j <= i + 1 ==> Depth(par, i) <= Depth(par, j) + 1
    decreases |par| - i
  {
    if i < j < |par| - 2 {
      DepthFallsSlowly(par, par[i].key, par[j].key);
      if j == i + 1 { DepthFallsSlowly(par, j, par[i].key); }
    } else if i < j {
      if j == i + 1 { assert par[i].key == j; }
    }
  }

  lemma {:induction false} ParentsSpread(par: seq<SymFreq>, i: nat, m: nat)
    requires Tree(par) && i + 2 * m < |par| - 2
    ensures par[i + 2 * m].key >= par[i].key + m
  {
    if m > 0 {
      ParentsSpread(par, i, m - 1);
      var k, l := i + 2 * (m - 1), i + 2 * m;
      assert par[k].key < par[l].key;
    }
  }

  /** Nodes (low, mid] one level below nodes (mid, top]: each parent has at most two of them. */
  lemma LevelDoubles(par: seq<SymFreq>, low: int, mid: int, top: int)
    requires Tree(par) && -1 <= low <= mid < top <= |par| - 2
    requires forall k :: low < k <= mid ==> mid < par[k].key <= top
    ensures mid - low <= 2 * (top - mid)
  {
    if mid > low {
      var m := (mid - low - 1) / 2;
      ParentsSpread(par, low + 1, m);
      assert par[low + 1].key > mid;
      assert par[low + 1 + 2 * m].key <= top;
    }
  }
}
