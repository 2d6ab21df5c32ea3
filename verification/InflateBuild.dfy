/** Building the inflate decoding table in place, and decoding with it
    (tinfl_decompress, table build and symbol decode). */
module InflateBuild {
  import opened Bits
  import opened Windows
  import opened Canonical
  import opened InflateTable

  // ---------------------------------------------------------------- the tree never outgrows its array

  /** Prefixes of d bits that are no code and follow all codes of up to d bits. */
  function Inner(sizes: seq<nat>, d: nat): (r: int) {
    Pow2(d) - (NextCode(sizes, d) + Num(sizes, d))
  }

  function Values(d: nat, lo: nat, hi: nat): (r: set<Label>)
    requires lo <= hi
    ensures |r| <= hi - lo
    ensures forall l: Label :: l in r <==> l.depth == d && lo <= l.value < hi
    decreases hi - lo
  {
    if lo == hi then {} else Values(d, lo, hi - 1) + {Label(d, hi - 1)}
  }

  lemma InnerDoubles(sizes: seq<nat>, d: nat)
    requires d >= 1
    ensures Inner(sizes, d + 1) == 2 * Inner(sizes, d) - Num(sizes, d + 1)
  {
  }

  lemma {:induction false} CountsSum(sizes: seq<nat>, n: nat)
    requires n <= |sizes|
    ensures CountSize(sizes, 11, n) + CountSize(sizes, 12, n) + CountSize(sizes, 13, n)
          + CountSize(sizes, 14, n) + CountSize(sizes, 15, n) <= n
  {
    if n > 0 { CountsSum(sizes, n - 1); }
  }

  lemma InnerTotal(sizes: seq<nat>)
    requires Complete(sizes)
    ensures forall d :: 10 <= d <= 14 ==> Inner(sizes, d) >= 0
    ensures Inner(sizes, 10) + Inner(sizes, 11) + Inner(sizes, 12) + Inner(sizes, 13) + Inner(sizes, 14) <= |sizes|
  {
    CountsSum(sizes, |sizes|);
    Pow2Values();
    forall d | 10 <= d <= 14
      ensures Inner(sizes, d) >= 0
    {
      CodesFit(sizes, d);
    }
    InnerDoubles(sizes, 10);
    InnerDoubles(sizes, 11);
    InnerDoubles(sizes, 12);
    InnerDoubles(sizes, 13);
    InnerDoubles(sizes, 14);
    assert NextCode(sizes, 16) == 2 * (NextCode(sizes, 15) + Num(sizes, 15));
    assert Inner(sizes, 10) >= 0;
  }

  ghost predicate AllPrefixes(ls: set<Label>, sizes: seq<nat>) {
    forall l :: l in ls ==> exists s :: 0 <= s < |sizes| && IsPrefix(l, sizes, s)
  }

  lemma PrefixInner(sizes: seq<nat>, l: Label, s: nat)
    requires Fits(sizes) && IsPrefix(l, sizes, s)
    ensures FAST_BITS <= l.depth <= 14
    ensures NextCode(sizes, l.depth) + Num(sizes, l.depth) <= l.value < Pow2(l.depth)
  {
    StoredReads(sizes, s, l.depth);
    PrefixBeyond(sizes, l.depth, s);
    PrefixBound(Stored(sizes, s), l.depth);
  }

  function InnerSet(sizes: seq<nat>, d: nat): (r: set<Label>)
    requires Inner(sizes, d) >= 0
    ensures |r| <= Inner(sizes, d)
  {
    Values(d, NextCode(sizes, d) + Num(sizes, d), Pow2(d))
  }

  lemma UnionSize<T>(a: set<T>, b: set<T>)
    ensures |a + b| <= |a| + |b|
  {
    assert a + b == a + (b - a);
  }

  lemma SubsetSize<T>(a: set<T>, b: set<T>)
    requires a <= b
    ensures |a| <= |b|
  {
    assert b == a + (b - a);
  }

  function AllInner(sizes: seq<nat>): (r: set<Label>)
    requires forall d :: 10 <= d <= 14 ==> Inner(sizes, d) >= 0
    ensures |r| <= Inner(sizes, 10) + Inner(sizes, 11) + Inner(sizes, 12) + Inner(sizes, 13) + Inner(sizes, 14)
  {
    var a, b, c, d, e := InnerSet(sizes, 10), InnerSet(sizes, 11), InnerSet(sizes, 12), InnerSet(sizes, 13), InnerSet(sizes, 14);
    UnionSize(a, b);
    UnionSize(a + b, c);
    UnionSize(a + b + c, d);
    UnionSize(a + b + c + d, e);
    a + b + c + d + e
  }

  lemma InAllInner(sizes: seq<nat>, l: Label)
    requires forall d :: 10 <= d <= 14 ==> Inner(sizes, d) >= 0
    requires 10 <= l.depth <= 14 && NextCode(sizes, l.depth) + Num(sizes, l.depth) <= l.value < Pow2(l.depth)
    ensures l in AllInner(sizes)
  {
    hide NextCode, Num, Pow2, Values;
    assert l in InnerSet(sizes, l.depth);
  }

  lemma CompleteCapacity(ls: set<Label>, sizes: seq<nat>)
    requires Complete(sizes) && AllPrefixes(ls, sizes)
    ensures |ls| <= |sizes|
  {
    InnerTotal(sizes);
    hide Inner, NextCode, Num, AllInner, IsPrefix;
    forall l | l in ls
      ensures l in AllInner(sizes)
    {
      var s :| 0 <= s < |sizes| && IsPrefix(l, sizes, s);
      PrefixInner(sizes, l, s);
      InAllInner(sizes, l);
    }
    SubsetSize(ls, AllInner(sizes));
  }

  /** At most one symbol is used. */
  ghost predicate Lone(sizes: seq<nat>) {
    Sizes(sizes) && Used(sizes, 15) <= 1
  }

  lemma {:induction false} CountTwo(sizes: seq<nat>, l: nat, s: nat, n: nat)
    requires s < n <= |sizes| && sizes[s] == l
    ensures CountSize(sizes, l, n) >= 1
    ensures forall t :: s < t < n && sizes[t] == l ==> CountSize(sizes, l, n) >= 2
  {
    if s < n - 1 { CountTwo(sizes, l, s, n - 1); }
  }

  lemma {:induction false} UsedAtLeast(sizes: seq<nat>, a: nat, l: nat)
    requires 1 <= a <= l
    ensures Used(sizes, l) >= Num(sizes, a)
    ensures forall b :: a < b <= l ==> Used(sizes, l) >= Num(sizes, a) + Num(sizes, b)
  {
    if a < l { UsedAtLeast(sizes, a, l - 1); }
  }

  lemma LoneIsUnique(sizes: seq<nat>, s: nat, t: nat)
    requires Lone(sizes) && Uses(sizes, s) && Uses(sizes, t)
    ensures s == t
  {
    CountTwo(sizes, sizes[s], s, |sizes|);
    CountTwo(sizes, sizes[t], t, |sizes|);
    UsedAtLeast(sizes, sizes[s], 15);
    UsedAtLeast(sizes, sizes[t], 15);
  }

  lemma {:induction false} NextCodeOfFew(sizes: seq<nat>, l: nat)
    requires l >= 1
    ensures NextCode(sizes, l) <= Used(sizes, l - 1) * Pow2(l - 1)
  {
    if l > 1 {
      NextCodeOfFew(sizes, l - 1);
      MulDouble(Pow2(l - 2), Used(sizes, l - 1));
      MulStep(Used(sizes, l - 2), Num(sizes, l - 1), Pow2(l - 2));
    }
  }

  lemma MulStep(u: nat, c: nat, p: nat)
    requires p >= 1
    ensures u * p + c <= (u + c) * p
  {
    assert (u + c) * p == u * p + c * p;
    assert c * p >= c;
  }

  lemma LoneFits(sizes: seq<nat>)
    requires Lone(sizes)
    ensures Fits(sizes)
  {
    NextCodeOfFew(sizes, 16);
    Pow2Values();
    assert Used(sizes, 15) * Pow2(15) <= 1 * Pow2(15);
  }

  lemma LoneCapacity(ls: set<Label>, sizes: seq<nat>)
    requires Lone(sizes) && AllPrefixes(ls, sizes)
    ensures |ls| <= 5
  {
    LoneFits(sizes);
    if ls != {} {
      var l0 :| l0 in ls;
      var s :| 0 <= s < |sizes| && IsPrefix(l0, sizes, s);
      var w := Stored(sizes, s);
      hide Prefix, Stored, Lone, Fits;
      var all := {Label(10, Prefix(w, 10)), Label(11, Prefix(w, 11)), Label(12, Prefix(w, 12)),
                  Label(13, Prefix(w, 13)), Label(14, Prefix(w, 14))};
      forall l | l in ls
        ensures l in all
      {
        var u :| 0 <= u < |sizes| && IsPrefix(l, sizes, u);
        LoneIsUnique(sizes, s, u);
      }
      SubsetSize(ls, all);
      FiveLabels(all, w);
    }
  }

  lemma FiveLabels(all: set<Label>, w: nat)
    requires all == {Label(10, Prefix(w, 10)), Label(11, Prefix(w, 11)), Label(12, Prefix(w, 12)),
                     Label(13, Prefix(w, 13)), Label(14, Prefix(w, 14))}
    ensures |all| <= 5
  {
    hide Prefix;
  }

  /** The decoder's own acceptance test of a set of code lengths. */
  ghost predicate Accepted(sizes: seq<nat>) {
    Complete(sizes) || Lone(sizes)
  }

  lemma AcceptedFits(sizes: seq<nat>)
    requires Accepted(sizes)
    ensures Fits(sizes)
  {
    if Lone(sizes) { LoneFits(sizes); }
  }

  /** There is always room for the next node. */
  lemma Room(t: Trie, sizes: seq<nat>, m: nat, l: Label, s: nat)
    requires Accepted(sizes) && Labels(t, sizes, m) && m <= |sizes|
    requires l !in t.node && s < m && IsPrefix(l, sizes, s)
    ensures 2 * |t.node| + 2 <= TREE_SIZE
  {
    hide IsPrefix, Complete, Lone;
    var ls := t.node.Keys + {l};
    assert AllPrefixes(ls, sizes);
    assert |ls| == |t.node| + 1;
    if Complete(sizes) { CompleteCapacity(ls, sizes); } else { LoneCapacity(ls, sizes); }
    SizesBound(sizes);
  }

  lemma SizesBound(sizes: seq<nat>)
    requires Accepted(sizes)
    ensures |sizes| <= MAX_SYMBOLS
  {
  }

  // ---------------------------------------------------------------- filling the table

  /** The loop that reverses a code. */
  method ReverseBits(code: nat, size: nat) returns (rev: nat)
    ensures rev == Prefix(code, size)
  {
    var cur, l := code, size;
    rev := 0;
    while l > 0
      invariant 0 <= l <= size && rev == Prefix(code, size - l) && cur == Shr(code, size - l)
    {
      rev := 2 * rev + cur % 2;
      ShrShr(code, size - l, 1);
      assert Shr(cur, 1) == cur / 2;
      cur := cur / 2;
      l := l - 1;
    }
  }

  lemma MultipleAt(x: nat, rev: nat, size: nat, i: nat)
    requires rev < Pow2(size)
    ensures x == rev + i * Pow2(size) <==> Low(x, size) == rev && Shr(x, size) == i
  {
    LowShr(x, size);
    Placed(rev, size, i);
    hide Low, Shr, Pow2;
    assert Pow2(size) * Shr(x, size) == Shr(x, size) * Pow2(size);
  }

  lemma MultipleBelow(x: nat, rev: nat, size: nat, i: nat)
    requires rev < Pow2(size) && Low(x, size) == rev && x < rev + i * Pow2(size)
    ensures Shr(x, size) < i
  {
    LowShr(x, size);
    var p, q := Pow2(size), Shr(x, size);
    assert p * q == q * p;
    assert q >= i ==> q * p >= i * p;
  }

  /** Every 10-bit window that begins with a short code gets its entry. */
  method FillShort(lookup: array<int>, stored: nat, size: nat, entry: int)
    requires lookup.Length == FAST_SIZE && stored < Pow2(size)
    modifies lookup
    ensures forall x :: 0 <= x < FAST_SIZE ==> lookup[x] == if Low(x, size) == stored then entry else old(lookup[x])
  {
    hide Low, Shr;
    var rev := stored;
    ghost var i := 0;
    while rev < FAST_SIZE
      invariant rev == stored + i * Pow2(size)
      invariant forall x :: 0 <= x < FAST_SIZE ==>
        lookup[x] == if Low(x, size) == stored && Shr(x, size) < i then entry else old(lookup[x])
    {
      lookup[rev] := entry;
      forall x: nat
        ensures x == rev <==> Low(x, size) == stored && Shr(x, size) == i
      {
        MultipleAt(x, stored, size, i);
      }
      assert stored + (i + 1) * Pow2(size) == rev + Pow2(size);
      rev := rev + Pow2(size);
      i := i + 1;
    }
    forall x: nat | x < FAST_SIZE && Low(x, size) == stored
      ensures Shr(x, size) < i
    {
      MultipleBelow(x, stored, size, i);
    }
  }

  lemma FillIsFilled(lookup: seq<int>, lookup': seq<int>, sizes: seq<nat>, n: nat)
    requires Fits(sizes) && Uses(sizes, n) && |lookup| == |lookup'| == FAST_SIZE
    requires forall x :: 0 <= x < FAST_SIZE ==>
      lookup'[x] == if Low(x, sizes[n]) == Stored(sizes, n) then sizes[n] * 512 + n else lookup[x]
    ensures Filled(lookup, lookup', sizes, n)
  {
    CodeFits(sizes, n);
    hide Low, Prefix, Code;
    forall x: nat | x < FAST_SIZE
      ensures Begins(sizes, n, x) <==> Low(x, sizes[n]) == Stored(sizes, n)
    {
      StartsWith(x, Code(sizes, n), sizes[n]);
    }
  }

  class HuffTable {
    const lookup: array<int>
    const tree: array<int>
    ghost var node: map<Label, nat>

    constructor ()
      ensures fresh(lookup) && fresh(tree) && Shaped()
    {
      lookup := new int[FAST_SIZE];
      tree := new int[TREE_SIZE];
      node := map[];
    }

    ghost predicate Shaped() {
      lookup.Length == FAST_SIZE && tree.Length == TREE_SIZE && lookup != tree
    }

    ghost function View(): Trie
      reads this, lookup, tree
    {
      Trie(lookup[..], tree[..], node)
    }

    /** Step to the node for the first ten bits. */
    method EnterRoot(sizes: seq<nat>, n: nat, rev: nat, next: int) returns (cur: int, next': int)
      requires Shaped() && Accepted(sizes) && Holds(View(), sizes, n, n + 1) && sizes[n] > FAST_BITS
      requires rev == Stored(sizes, n) && next == Ref(|node|)
      modifies this, lookup
      ensures Holds(View(), sizes, n, n + 1) && RootLabel(rev) in node && IsPrefix(RootLabel(rev), sizes, n)
      ensures cur == Ref(node[RootLabel(rev)]) && next' == Ref(|node|)
    {
      hide Holds, Stored, Accepted, Prefix;
      ghost var t := View();
      WindowLow(rev, 0);
      EnterFacts(t, sizes, n);
      var x := rev % FAST_SIZE;
      LowIsMod(rev);
      cur, next' := lookup[x], next;
      if cur == 0 {
        lookup[x] := next;
        node := node[RootLabel(rev) := |node|];
        assert View() == Root(t, rev);
        cur, next' := next, next - 2;
      }
    }

    /** One step down the tree: cur refers to node l, and bit is the next bit of the code. */
    method StepDown(sizes: seq<nat>, n: nat, ghost l: Label, bit: nat, cur0: int, next: int) returns (cur: int, next': int)
      requires Shaped() && Accepted(sizes) && Holds(View(), sizes, n, n + 1) && n < |sizes|
      requires l in node && IsPrefix(l, sizes, n) && l.depth + 1 < sizes[n]
      requires bit == Bit(Stored(sizes, n), l.depth) && cur0 == Ref(node[l]) && next == Ref(|node|)
      modifies this, tree
      ensures var k := Kid(l, bit);
              Holds(View(), sizes, n, n + 1) && k in node && IsPrefix(k, sizes, n) && cur == Ref(node[k])
      ensures next' == Ref(|node|)
    {
      hide Holds, Stored, Accepted, Bit, IsPrefix;
      ghost var t, k := View(), Kid(l, bit);
      StepFacts(t, sizes, n, l);
      cur, next' := cur0 - bit, next;
      if tree[-cur - 1] == 0 {
        tree[-cur - 1] := next;
        node := node[k := |node|];
        assert View() == Down(t, l, Stored(sizes, n));
        cur, next' := next, next - 2;
      } else {
        cur := tree[-cur - 1];
      }
    }

    /** Writes the leaf for a code whose last node is l. */
    method EndLeaf(sizes: seq<nat>, n: nat, ghost l: Label, bit: nat, cur: int)
      requires Shaped() && Holds(View(), sizes, n, n + 1) && n < |sizes|
      requires l in node && IsPrefix(l, sizes, n) && l.depth + 1 == sizes[n]
      requires bit == Bit(Stored(sizes, n), l.depth) && cur == Ref(node[l])
      modifies tree
      ensures Holds(View(), sizes, n + 1, n + 1)
    {
      hide Holds, Stored, Bit, IsPrefix, Nodes;
      ghost var t := View();
      LeafFacts(t, sizes, n, l);
      tree[-(cur - bit) - 1] := n;
      assert View() == SetLeaf(t, sizes, n, l);
    }

    method Clear()
      requires Shaped()
      modifies this, lookup, tree
      ensures node == map[]
      ensures forall x :: 0 <= x < FAST_SIZE ==> lookup[x] == 0
      ensures forall i :: 0 <= i < TREE_SIZE ==> tree[i] == 0
    {
      forall x | 0 <= x < FAST_SIZE { lookup[x] := 0; }
      forall i | 0 <= i < TREE_SIZE { tree[i] := 0; }
      node := map[];
    }

    /** Enters a code of more than ten bits into the tree. */
    method InsertLong(sizes: seq<nat>, n: nat, rev0: nat, next: int) returns (next': int)
      requires Shaped() && Accepted(sizes) && Holds(View(), sizes, n, n + 1) && n < |sizes|
      requires sizes[n] > FAST_BITS && rev0 == Stored(sizes, n) && next == Ref(|node|)
      modifies this, lookup, tree
      ensures Holds(View(), sizes, n + 1, n + 1) && next' == Ref(|node|)
    {
      hide Holds, Stored, Accepted, IsPrefix, Prefix;
      var cur;
      cur, next' := EnterRoot(sizes, n, rev0, next);
      ghost var l := RootLabel(rev0);
      var rev, j := Shr(rev0, FAST_BITS - 1), sizes[n];
      while j > FAST_BITS + 1
        invariant FAST_BITS + 1 <= j <= sizes[n] && l.depth == sizes[n] - j + FAST_BITS
        invariant rev == Shr(rev0, l.depth - 1)
        invariant Holds(View(), sizes, n, n + 1) && l in node && IsPrefix(l, sizes, n)
        invariant cur == Ref(node[l]) && next' == Ref(|node|)
      {
        ShrShr(rev0, l.depth - 1, 1);
        rev := Shr(rev, 1);
        cur, next' := StepDown(sizes, n, l, rev % 2, cur, next');
        l := Kid(l, rev % 2);
        j := j - 1;
      }
      ShrShr(rev0, l.depth - 1, 1);
      rev := Shr(rev, 1);
      EndLeaf(sizes, n, l, rev % 2, cur);
    }

    /** Enters a code of up to ten bits into the lookup. */
    method InsertShort(sizes: seq<nat>, n: nat, rev: nat)
      requires Shaped() && Accepted(sizes) && Holds(View(), sizes, n, n) && n < |sizes|
      requires 1 <= sizes[n] <= FAST_BITS && rev == Stored(sizes, n)
      modifies lookup
      ensures Holds(View(), sizes, n + 1, n + 1)
    {
      hide Holds, Accepted, Prefix, Low, Filled;
      ghost var t := View();
      AcceptedFits(sizes);
      CodeFits(sizes, n);
      PrefixBound(Code(sizes, n), sizes[n]);
      FillShort(lookup, rev, sizes[n], sizes[n] * 512 + n);
      FillIsFilled(t.lookup, lookup[..], sizes, n);
      ShortHolds(t, View(), sizes, n);
    }

    /** Builds the table, or refuses the code lengths. */
    method Build(sizes: seq<nat>) returns (ok: bool)
      requires Shaped() && Sizes(sizes)
      modifies this, lookup, tree
      ensures ok <==> Accepted(sizes)
      ensures ok ==> Holds(View(), sizes, |sizes|, |sizes|)
    {
      hide Holds, NextCode, Used, Sizes;
      var nextCode, total, used := NumberCodes(sizes);
      if total != 65536 && used > 1 { return false; }
      Clear();
      AcceptedFits(sizes);
      EmptyHolds(View(), sizes);
      hide Accepted;
      ok := true;
      var next, n := -1, 0;
      while n < |sizes|
        invariant 0 <= n <= |sizes| && Holds(View(), sizes, n, n) && next == Ref(|node|)
        invariant nextCode.Length == 17
        invariant forall l :: 1 <= l <= 15 ==> nextCode[l] == NextCode(sizes, l) + CountSize(sizes, l, n)
      {
        next := Insert(sizes, n, nextCode, next);
        n := n + 1;
      }
    }

    /** One pass of the symbol loop. */
    method Insert(sizes: seq<nat>, n: nat, nextCode: array<nat>, next: int) returns (next': int)
      requires Shaped() && Accepted(sizes) && Holds(View(), sizes, n, n) && n < |sizes| && next == Ref(|node|)
      requires Sizes(sizes) && nextCode.Length == 17
      requires forall l :: 1 <= l <= 15 ==> nextCode[l] == NextCode(sizes, l) + CountSize(sizes, l, n)
      modifies this, lookup, tree, nextCode
      ensures Holds(View(), sizes, n + 1, n + 1) && next' == Ref(|node|)
      ensures forall l :: 1 <= l <= 15 ==> nextCode[l] == NextCode(sizes, l) + CountSize(sizes, l, n + 1)
    {
      hide Holds, Accepted, NextCode;
      next' := next;
      var size := sizes[n];
      if size == 0 {
        Skip(View(), sizes, n);
        return;
      }
      var code := nextCode[size];
      nextCode[size] := nextCode[size] + 1;
      var rev := ReverseBits(code, size);
      if size <= FAST_BITS {
        InsertShort(sizes, n, rev);
      } else {
        Ready(View(), sizes, n);
        next' := InsertLong(sizes, n, rev, next);
      }
    }

    /** Follows the tree from the ten-bit node of a window that begins with a long code. */
    method Walk(w: nat, ref: int, ghost sizes: seq<nat>, ghost s: nat) returns (sym: int, len: nat)
      requires Shaped() && Nodes(node) && Holds(View(), sizes, |sizes|, |sizes|)
      requires Uses(sizes, s) && Begins(sizes, s, w) && sizes[s] > FAST_BITS
      requires RootLabel(w) in node && ref == Ref(node[RootLabel(w)])
      ensures sym == s && len == sizes[s]
    {
      hide Holds, Begins, Prefix, Bit, Nodes;
      sym, len := ref, FAST_BITS;
      ghost var l := RootLabel(w);
      while sym < 0
        invariant FAST_BITS <= len <= sizes[s]
        invariant sym < 0 ==> l in node && l.depth == len < sizes[s] && l.value == Prefix(w, len) && sym == Ref(node[l])
        invariant sym >= 0 ==> sym == s && len == sizes[s]
        decreases sizes[s] - len
      {
        NodeBound(node, l);
        NodesBound(node);
        CellOf(View(), sizes, s, w, l);
        assert At(View(), l, Bit(w, len)) == tree[-sym - 1 + Bit(w, len)];
        sym := tree[-sym - 1 + Bit(w, len)];
        l := Kid(l, Bit(w, len));
        len := len + 1;
      }
    }

    /** Follows the tree only as far as numBits bits of w allow, along the code of s. */
    method WalkAvailable(w: nat, ref: int, numBits: nat, ghost sizes: seq<nat>, ghost s: nat) returns (sym: int)
      requires Shaped() && Nodes(node) && Holds(View(), sizes, |sizes|, |sizes|)
      requires Uses(sizes, s) && sizes[s] > FAST_BITS && numBits > FAST_BITS
      requires forall d :: 0 <= d <= numBits && d <= sizes[s] ==> Prefix(w, d) == Prefix(Stored(sizes, s), d)
      requires RootLabel(w) in node && ref == Ref(node[RootLabel(w)])
      ensures sym >= 0 <==> numBits >= sizes[s]
    {
      hide Holds, Begins, Prefix, Bit, Nodes, Stored;
      ghost var code := Stored(sizes, s);
      sym := ref;
      var len := FAST_BITS;
      ghost var l := RootLabel(code);
      while sym < 0 && numBits >= len + 1
        invariant FAST_BITS <= len <= sizes[s] && len <= numBits
        invariant sym < 0 ==> l in node && l.depth == len < sizes[s] && l.value == Prefix(code, len) && sym == Ref(node[l])
        invariant sym >= 0 ==> len == sizes[s]
        decreases sizes[s] - len
      {
        NodesBound(node);
        NodeBound(node, l);
        SameNextBit(w, code, len);
        StoredBegins(View(), sizes, s);
        CellOf(View(), sizes, s, code, l);
        assert At(View(), l, Bit(code, len)) == tree[-sym - 1 + Bit(w, len)];
        sym := tree[-sym - 1 + Bit(w, len)];
        l := Kid(l, Bit(code, len));
        len := len + 1;
      }
    }

    /** Decodes the symbol a window begins with: the lookup, then the tree. */
    method Decode(w: nat, ghost sizes: seq<nat>, ghost s: nat) returns (sym: nat, len: nat)
      requires Shaped() && Holds(View(), sizes, |sizes|, |sizes|) && Uses(sizes, s) && Begins(sizes, s, w)
      ensures sym == s && len == sizes[s]
    {
      hide Holds, Begins, Prefix, Nodes;
      LookupOf(View(), sizes, s, w);
      SymbolBound(View(), sizes, s);
      var temp := lookup[w % FAST_SIZE];
      if temp >= 0 {
        sym, len := temp % 512, temp / 512;
      } else {
        sym, len := Walk(w, temp, sizes, s);
      }
    }
  }

  lemma SameNextBit(x: nat, y: nat, d: nat)
    requires Prefix(x, d) == Prefix(y, d) && Prefix(x, d + 1) == Prefix(y, d + 1)
    ensures Bit(x, d) == Bit(y, d)
  {
    PrefixStep(x, d);
    PrefixStep(y, d);
  }

  lemma StoredBegins(t: Trie, sizes: seq<nat>, s: nat)
    requires Holds(t, sizes, |sizes|, |sizes|) && Uses(sizes, s)
    ensures Begins(sizes, s, Stored(sizes, s))
  {
    StoredReads(sizes, s, sizes[s]);
  }

  lemma NodesBound(node: map<Label, nat>)
    requires Nodes(node)
    ensures 2 * |node| <= TREE_SIZE
  {
  }

  lemma SymbolBound(t: Trie, sizes: seq<nat>, s: nat)
    requires Holds(t, sizes, |sizes|, |sizes|) && Uses(sizes, s)
    ensures s < 288 && sizes[s] <= 15 && |t.tree| == TREE_SIZE && Nodes(t.node)
  {
  }

  lemma EmptyHolds(t: Trie, sizes: seq<nat>)
    requires Fits(sizes) && |t.lookup| == FAST_SIZE && |t.tree| == TREE_SIZE && t.node == map[]
    requires forall x :: 0 <= x < FAST_SIZE ==> t.lookup[x] == 0
    requires forall i :: 0 <= i < TREE_SIZE ==> t.tree[i] == 0
    ensures Holds(t, sizes, 0, 0)
  {
    hide Begins, Prefix, Code;
  }

  method CountLengths(sizes: seq<nat>) returns (counts: array<nat>)
    requires Sizes(sizes)
    ensures fresh(counts) && counts.Length == 16
    ensures forall l :: 0 <= l < 16 ==> counts[l] == Num(sizes, l)
  {
    counts := new nat[16](_ => 0);
    var i := 0;
    while i < |sizes|
      invariant 0 <= i <= |sizes|
      invariant forall l :: 0 <= l < 16 ==> counts[l] == CountSize(sizes, l, i)
    {
      counts[sizes[i]] := counts[sizes[i]] + 1;
      i := i + 1;
    }
  }

  lemma NumberStart(sizes: seq<nat>)
    ensures Used(sizes, 0) == 0 && NextCode(sizes, 1) == 0
  {
  }

  lemma NumberStep(sizes: seq<nat>, i: nat)
    requires i >= 1
    ensures Used(sizes, i) == Used(sizes, i - 1) + Num(sizes, i)
    ensures NextCode(sizes, i + 1) == 2 * (NextCode(sizes, i) + Num(sizes, i))
  {
  }

  /** Counts the codes of each length and finds the first code of each. */
  method NumberCodes(sizes: seq<nat>) returns (nextCode: array<nat>, total: nat, used: nat)
    requires Sizes(sizes)
    ensures fresh(nextCode) && nextCode.Length == 17
    ensures forall l :: 1 <= l <= 16 ==> nextCode[l] == NextCode(sizes, l)
    ensures total == NextCode(sizes, 16) && used == Used(sizes, 15)
  {
    hide Used, NextCode, Num, Sizes;
    var counts := CountLengths(sizes);
    nextCode := new nat[17](_ => 0);
    total, used := 0, 0;
    var i := 1;
    NumberStart(sizes);
    while i <= 15
      invariant 1 <= i <= 16 && used == Used(sizes, i - 1) && total == NextCode(sizes, i)
      invariant forall l :: 0 <= l < 16 ==> counts[l] == Num(sizes, l)
      invariant forall l :: 1 <= l <= i ==> nextCode[l] == NextCode(sizes, l)
    {
      NumberStep(sizes, i);
      used := used + counts[i];
      total := 2 * (total + counts[i]);
      nextCode[i + 1] := total;
      i := i + 1;
    }
  }

  lemma LeafFacts(t: Trie, sizes: seq<nat>, n: nat, l: Label)
    requires Holds(t, sizes, n, n + 1) && n < |sizes|
    requires l in t.node && IsPrefix(l, sizes, n) && l.depth + 1 == sizes[n]
    ensures |t.tree| == TREE_SIZE && Nodes(t.node) && t.node[l] < |t.node| && 2 * |t.node| <= TREE_SIZE
    ensures Holds(SetLeaf(t, sizes, n, l), sizes, n + 1, n + 1)
  {
    LeafHolds(t, sizes, n, l);
    hide Shorts, Lookups, Roots, Kids, Leaves, Cells, Labels, Blank, IsPrefix, Stored, SetLeaf;
    NodeBound(t.node, l);
  }

  lemma StepFacts(t: Trie, sizes: seq<nat>, n: nat, l: Label)
    requires Accepted(sizes) && Holds(t, sizes, n, n + 1) && n < |sizes|
    requires l in t.node && IsPrefix(l, sizes, n) && l.depth + 1 < sizes[n]
    ensures |t.tree| == TREE_SIZE && Nodes(t.node) && t.node[l] < |t.node| && 2 * |t.node| <= TREE_SIZE
    ensures var b := Bit(Stored(sizes, n), l.depth);
            var k, t' := Kid(l, b), Down(t, l, Stored(sizes, n));
            && Holds(t', sizes, n, n + 1) && k in t'.node && IsPrefix(k, sizes, n)
            && |t'.tree| == TREE_SIZE && Nodes(t'.node) && l in t'.node && At(t', l, b) == Ref(t'.node[k])
            && (At(t, l, b) == 0 ==> k !in t.node && |t'.node| == |t.node| + 1)
  {
    var k := Kid(l, Bit(Stored(sizes, n), l.depth));
    KidIsPrefix(sizes, l, n);
    hide Shorts, Lookups, Roots, Kids, Leaves, Cells, Labels, Blank, IsPrefix, Stored, Accepted, Bit;
    NodeBound(t.node, l);
    if k !in t.node { Room(t, sizes, n + 1, k, n); }
    DownHolds(t, sizes, n, l);
    assert Holds(Down(t, l, Stored(sizes, n)), sizes, n, n + 1);
  }

  lemma LowIsMod(v: nat)
    ensures Low(v, FAST_BITS) == v % FAST_SIZE
  {
    hide Low, Shr, Pow2;
    LowShr(v, FAST_BITS);
    var p := Pow2(FAST_BITS);
    assert p == FAST_SIZE by { Pow2Values(); }
    assert v == Low(v, FAST_BITS) + FAST_SIZE * Shr(v, FAST_BITS);
  }

  lemma EnterFacts(t: Trie, sizes: seq<nat>, n: nat)
    requires Accepted(sizes) && Holds(t, sizes, n, n + 1) && sizes[n] > FAST_BITS
    ensures var w := Stored(sizes, n);
            var t', x := Root(t, w), Low(w, FAST_BITS);
            && Holds(t', sizes, n, n + 1) && RootLabel(w) in t'.node && IsPrefix(RootLabel(w), sizes, n)
            && x < FAST_SIZE == |t.lookup| == |t'.lookup| && t'.lookup[x] == Ref(t'.node[RootLabel(w)])
            && (t.lookup[x] == 0 ==> RootLabel(w) !in t.node && |t'.node| == |t.node| + 1)
  {
    var w := Stored(sizes, n);
    WindowLow(w, 10);
    var l := RootLabel(w);
    assert IsPrefix(l, sizes, n);
    hide Nodes, Shorts, Lookups, Roots, Kids, Leaves, Cells, Labels, Blank, IsPrefix, Stored, Accepted;
    if l !in t.node { Room(t, sizes, n + 1, l, n); }
    RootHolds(t, sizes, n);
  }

  // ---------------------------------------------------------------- decoding with the table

  /** Every prefix of a long code, from ten bits on, has its node. */
  lemma {:induction false} PathNode(t: Trie, sizes: seq<nat>, s: nat, d: nat)
    requires Holds(t, sizes, |sizes|, |sizes|) && Uses(sizes, s) && FAST_BITS <= d < sizes[s]
    ensures Label(d, Prefix(Stored(sizes, s), d)) in t.node
    decreases sizes[s] - d
  {
    hide Shorts, Lookups, Roots, Cells, Labels, Blank, Prefix, Nodes, Bit;
    if d == sizes[s] - 1 {
      assert Leaf(t, sizes, s);
    } else {
      PathNode(t, sizes, s, d + 1);
      PrefixStep(Stored(sizes, s), d);
      var k := Label(d + 1, Prefix(Stored(sizes, s), d + 1));
      assert Parent(k) == Label(d, Prefix(Stored(sizes, s), d));
    }
  }

  /** A window that begins with a code reads like the stored code, as far as the code goes. */
  lemma BeginsReads(sizes: seq<nat>, s: nat, w: nat, d: nat)
    requires Fits(sizes) && Uses(sizes, s) && Begins(sizes, s, w) && d <= sizes[s]
    ensures Prefix(w, d) == Prefix(Stored(sizes, s), d)
  {
    StoredReads(sizes, s, d);
    PrefixShr(w, d, sizes[s]);
  }

  /** The lookup of a window that begins with s: the short entry, or the ten-bit node. */
  lemma LookupOf(t: Trie, sizes: seq<nat>, s: nat, w: nat)
    requires Holds(t, sizes, |sizes|, |sizes|) && Uses(sizes, s) && Begins(sizes, s, w)
    ensures w % FAST_SIZE < |t.lookup|
    ensures sizes[s] <= FAST_BITS ==> t.lookup[w % FAST_SIZE] == sizes[s] * 512 + s
    ensures sizes[s] > FAST_BITS ==>
      RootLabel(w) in t.node && t.lookup[w % FAST_SIZE] == Ref(t.node[RootLabel(w)])
  {
    var x := w % FAST_SIZE;
    LowIsMod(w);
    WindowLow(w, FAST_BITS);
    hide Lookups, Cells, Labels, Blank, Leaves, Kids, Nodes, Prefix, Code, Fits;
    if sizes[s] <= FAST_BITS {
      WindowLow(w, sizes[s]);
      assert Begins(sizes, s, x);
    } else {
      BeginsReads(sizes, s, w, FAST_BITS);
      PathNode(t, sizes, s, FAST_BITS);
    }
  }

  /** The cell one bit past node l, on the way along a window that begins with s. */
  lemma CellOf(t: Trie, sizes: seq<nat>, s: nat, w: nat, l: Label)
    requires |t.tree| == TREE_SIZE && Nodes(t.node) && l in t.node
    requires Holds(t, sizes, |sizes|, |sizes|) && Uses(sizes, s) && Begins(sizes, s, w)
    requires l.value == Prefix(w, l.depth) && FAST_BITS <= l.depth < sizes[s]
    ensures l.depth + 1 == sizes[s] ==> At(t, l, Bit(w, l.depth)) == s
    ensures l.depth + 1 < sizes[s] ==>
      Kid(l, Bit(w, l.depth)) in t.node && At(t, l, Bit(w, l.depth)) == Ref(t.node[Kid(l, Bit(w, l.depth))])
    ensures Kid(l, Bit(w, l.depth)).value == Prefix(w, l.depth + 1)
  {
    hide Lookups, Shorts, Roots, Cells, Labels, Blank, Nodes, Prefix, Bit, At, Fits, Code, Stored, Begins;
    BeginsReads(sizes, s, w, l.depth);
    PrefixStep(w, l.depth);
    var k := Kid(l, Bit(w, l.depth));
    if l.depth + 1 == sizes[s] {
      LeafReached(t, sizes, s, w, l);
    } else {
      BeginsReads(sizes, s, w, l.depth + 1);
      PathNode(t, sizes, s, l.depth + 1);
      assert Parent(k) == l && k.value % 2 == Bit(w, l.depth);
    }
  }

  lemma LeafReached(t: Trie, sizes: seq<nat>, s: nat, w: nat, l: Label)
    requires |t.tree| == TREE_SIZE && Nodes(t.node) && l in t.node && Fits(sizes)
    requires Uses(sizes, s) && Leaf(t, sizes, s) && Begins(sizes, s, w)
    requires l.value == Prefix(w, l.depth) && l.depth + 1 == sizes[s]
    ensures At(t, l, Bit(w, l.depth)) == s
  {
    hide At, Nodes, Code, Stored, Fits, Bit, Prefix;
    BeginsReads(sizes, s, w, l.depth);
    PrefixStep(w, l.depth);
  }
}
