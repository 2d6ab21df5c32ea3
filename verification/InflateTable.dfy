/** The inflate side's decoding table: a 10-bit lookup for short codes, and, for longer
    ones, a tree grown in an array of cell pairs (tinfl_decompress, table build). */
module InflateTable {
  import opened Bits
  import opened Windows
  import opened Canonical

  const FAST_BITS := 10
  const FAST_SIZE := 1024
  const TREE_SIZE := 576

  /** The code of s as it appears in the stream: first bit lowest. */
  function Stored(sizes: seq<nat>, s: nat): (w: nat)
    requires s < |sizes| && sizes[s] >= 1
  {
    Prefix(Code(sizes, s), sizes[s])
  }

  ghost predicate Uses(sizes: seq<nat>, s: nat) {
    s < |sizes| && sizes[s] >= 1
  }

  /** Window w starts with the code of s. */
  ghost predicate Begins(sizes: seq<nat>, s: nat, w: nat)
    requires Uses(sizes, s)
  {
    Prefix(w, sizes[s]) == Code(sizes, s)
  }

  /** A proper prefix, at least ten bits long, of some long code. */
  datatype Label = Label(depth: nat, value: nat)

  /** The table, with the prefix each tree node stands for.  Node k is written as the
      reference -(2k+1) and owns cells 2k and 2k+1. */
  datatype Trie = Trie(lookup: seq<int>, tree: seq<int>, node: map<Label, nat>)

  function Ref(k: nat): (r: int) { -(2 * k + 1) }

  ghost predicate IsPrefix(l: Label, sizes: seq<nat>, s: nat) {
    Uses(sizes, s) && FAST_BITS <= l.depth < sizes[s] && Prefix(Stored(sizes, s), l.depth) == l.value
  }

  // ---------------------------------------------------------------- what the table holds

  /** Short codes below n fill every lookup entry whose window starts with them. */
  ghost predicate Shorts(lookup: seq<int>, sizes: seq<nat>, n: nat)
    requires |lookup| == FAST_SIZE && n <= |sizes|
  {
    forall s, x :: 0 <= s < n && 0 <= x < FAST_SIZE && 1 <= sizes[s] <= FAST_BITS && Begins(sizes, s, x)
      ==> lookup[x] == sizes[s] * 512 + s
  }

  ghost predicate FromShort(lookup: seq<int>, sizes: seq<nat>, n: nat, x: nat)
    requires |lookup| == FAST_SIZE && n <= |sizes| && x < FAST_SIZE
  {
    exists s :: 0 <= s < n && 1 <= sizes[s] <= FAST_BITS && Begins(sizes, s, x) && lookup[x] == sizes[s] * 512 + s
  }

  /** Every other entry that is set refers to the node for its ten bits. */
  ghost predicate Lookups(t: Trie, sizes: seq<nat>, n: nat)
    requires |t.lookup| == FAST_SIZE && n <= |sizes|
  {
    forall x :: 0 <= x < FAST_SIZE && t.lookup[x] != 0 ==>
      FromShort(t.lookup, sizes, n, x)
      || (Label(FAST_BITS, Prefix(x, FAST_BITS)) in t.node
          && t.lookup[x] == Ref(t.node[Label(FAST_BITS, Prefix(x, FAST_BITS))]))
  }

  ghost predicate Roots(t: Trie)
    requires |t.lookup| == FAST_SIZE
  {
    forall x :: 0 <= x < FAST_SIZE && Label(FAST_BITS, Prefix(x, FAST_BITS)) in t.node ==>
      t.lookup[x] == Ref(t.node[Label(FAST_BITS, Prefix(x, FAST_BITS))])
  }

  ghost predicate Nodes(node: map<Label, nat>) {
    && 2 * |node| <= TREE_SIZE
    && (forall l :: l in node ==> node[l] < |node|)
    && (forall l, m :: l in node && m in node && node[l] == node[m] ==> l == m)
  }

  function Parent(l: Label): Label { Label(if l.depth == 0 then 0 else l.depth - 1, l.value / 2) }

  function Kid(l: Label, b: nat): Label { Label(l.depth + 1, 2 * l.value + b) }

  /** The cell of node l for next bit b. */
  function At(t: Trie, l: Label, b: nat): (r: int)
    requires |t.tree| == TREE_SIZE && Nodes(t.node) && l in t.node && b < 2
  {
    t.tree[2 * t.node[l] + b]
  }

  /** Each deeper node is referred to by its parent. */
  ghost predicate Kids(t: Trie)
    requires |t.tree| == TREE_SIZE && Nodes(t.node)
  {
    forall l :: l in t.node && l.depth > FAST_BITS ==>
      Parent(l) in t.node && At(t, Parent(l), l.value % 2) == Ref(t.node[l])
  }

  ghost predicate Leaf(t: Trie, sizes: seq<nat>, s: nat)
    requires |t.tree| == TREE_SIZE && Nodes(t.node) && Uses(sizes, s)
  {
    var l := Label(sizes[s] - 1, Prefix(Stored(sizes, s), sizes[s] - 1));
    l in t.node && At(t, l, Code(sizes, s) % 2) == s
  }

  /** Long codes below n end in a leaf. */
  ghost predicate Leaves(t: Trie, sizes: seq<nat>, n: nat)
    requires |t.tree| == TREE_SIZE && Nodes(t.node) && n <= |sizes|
  {
    forall s :: 0 <= s < n && sizes[s] > FAST_BITS ==> Leaf(t, sizes, s)
  }

  ghost predicate CellJustified(t: Trie, sizes: seq<nat>, n: nat, l: Label, b: nat)
    requires n <= |sizes|
  {
    || Kid(l, b) in t.node
    || exists s :: 0 <= s < n && sizes[s] == l.depth + 1 && Code(sizes, s) == Kid(l, b).value
  }

  /** A cell that is set leads to a node or holds a leaf. */
  ghost predicate Cells(t: Trie, sizes: seq<nat>, n: nat)
    requires |t.tree| == TREE_SIZE && Nodes(t.node) && n <= |sizes|
  {
    forall l, b: nat :: l in t.node && b < 2 && At(t, l, b) != 0 ==> CellJustified(t, sizes, n, l, b)
  }

  ghost predicate Labels(t: Trie, sizes: seq<nat>, m: nat) {
    forall l :: l in t.node ==> exists s :: 0 <= s < m && IsPrefix(l, sizes, s)
  }

  ghost predicate Blank(t: Trie)
    requires |t.tree| == TREE_SIZE
  {
    forall i :: 2 * |t.node| <= i < TREE_SIZE ==> t.tree[i] == 0
  }

  /** The table after n symbols, while nodes for symbols below m may exist. */
  ghost predicate Holds(t: Trie, sizes: seq<nat>, n: nat, m: nat) {
    && Fits(sizes) && n <= m <= |sizes|
    && |t.lookup| == FAST_SIZE && |t.tree| == TREE_SIZE
    && Nodes(t.node)
    && Shorts(t.lookup, sizes, n) && Lookups(t, sizes, n) && Roots(t)
    && Kids(t) && Leaves(t, sizes, n) && Cells(t, sizes, n)
    && Labels(t, sizes, m) && Blank(t)
  }

  // ---------------------------------------------------------------- codes and prefixes do not meet

  lemma StoredReads(sizes: seq<nat>, s: nat, d: nat)
    requires Fits(sizes) && Uses(sizes, s) && d <= sizes[s]
    ensures Prefix(Stored(sizes, s), sizes[s]) == Code(sizes, s)
    ensures Prefix(Stored(sizes, s), d) == Shr(Code(sizes, s), sizes[s] - d)
  {
    CodeFits(sizes, s);
    Reversal(Code(sizes, s), sizes[s]);
    LowOfSmall(Code(sizes, s), sizes[s]);
    PrefixShr(Stored(sizes, s), d, sizes[s]);
  }

  lemma CodeIsNotPrefix(sizes: seq<nat>, l: Label, s: nat, u: nat)
    requires Fits(sizes) && IsPrefix(l, sizes, s) && Uses(sizes, u) && sizes[u] <= l.depth
    ensures Shr(l.value, l.depth - sizes[u]) != Code(sizes, u)
  {
    var w := Stored(sizes, s);
    StoredReads(sizes, s, sizes[u]);
    PrefixShr(w, sizes[u], l.depth);
    PrefixFree(sizes, u, s);
  }

  /** A window over a node's ten bits starts with no short code. */
  lemma NodeWindowNotShort(sizes: seq<nat>, l: Label, s: nat, u: nat, x: nat)
    requires Fits(sizes) && IsPrefix(l, sizes, s) && Uses(sizes, u) && sizes[u] <= l.depth
    requires Prefix(x, l.depth) == l.value
    ensures !Begins(sizes, u, x)
  {
    CodeIsNotPrefix(sizes, l, s, u);
    PrefixShr(x, sizes[u], l.depth);
  }

  lemma WindowLow(w: nat, d: nat)
    requires d <= FAST_BITS
    ensures Low(w, FAST_BITS) < FAST_SIZE
    ensures Prefix(Low(w, FAST_BITS), d) == Prefix(w, d)
  {
    Pow2Values();
    PrefixLow(w, d, FAST_BITS);
  }

  lemma WindowInjective(x: nat, y: nat)
    requires x < FAST_SIZE && y < FAST_SIZE && Prefix(x, FAST_BITS) == Prefix(y, FAST_BITS)
    ensures x == y
  {
    Pow2Values();
    Reversal(x, FAST_BITS);
    Reversal(y, FAST_BITS);
    LowOfSmall(x, FAST_BITS);
    LowOfSmall(y, FAST_BITS);
  }

  // ---------------------------------------------------------------- growing the tree

  function RootLabel(w: nat): Label { Label(FAST_BITS, Prefix(w, FAST_BITS)) }

  /** Finds or makes the node for the first ten bits of w. */
  function Root(t: Trie, w: nat): (r: Trie)
    requires |t.lookup| == FAST_SIZE
  {
    WindowLow(w, 0);
    var x := Low(w, FAST_BITS);
    if t.lookup[x] == 0 then
      Trie(t.lookup[x := Ref(|t.node|)], t.tree, t.node[RootLabel(w) := |t.node|])
    else
      t
  }

  lemma NodesGrow(node: map<Label, nat>, l: Label)
    requires Nodes(node) && l !in node && 2 * |node| + 2 <= TREE_SIZE
    ensures Nodes(node[l := |node|]) && |node[l := |node|]| == |node| + 1
  {
  }

  lemma LabelsGrow(t: Trie, t': Trie, sizes: seq<nat>, m: nat, l: Label, s: nat)
    requires Labels(t, sizes, m) && s < m && IsPrefix(l, sizes, s)
    requires t'.node == t.node[l := |t.node|]
    ensures Labels(t', sizes, m)
  {
  }

  lemma BlankGrow(t: Trie, t': Trie, l: Label)
    requires |t.tree| == |t'.tree| == TREE_SIZE && Blank(t) && l !in t.node
    requires t'.node == t.node[l := |t.node|]
    requires forall i :: 2 * |t.node| <= i < TREE_SIZE ==> t'.tree[i] == t.tree[i]
    ensures Blank(t')
  {
  }

  /** Adding node l, and at most one cell that leads to it, keeps every set cell justified. */
  lemma CellsGrow(t: Trie, t': Trie, sizes: seq<nat>, n: nat, l: Label)
    requires |t.tree| == |t'.tree| == TREE_SIZE && n <= |sizes| && Nodes(t.node) && Nodes(t'.node)
    requires t'.node == t.node[l := |t.node|] && l !in t.node && Cells(t, sizes, n)
    requires At(t', l, 0) == 0 && At(t', l, 1) == 0
    requires forall m, b: nat :: m in t.node && b < 2 ==> At(t', m, b) == At(t, m, b) || Kid(m, b) == l
    ensures Cells(t', sizes, n)
  {
    hide At, Nodes, Code;
    forall m, b: nat | m in t'.node && b < 2 && At(t', m, b) != 0
      ensures CellJustified(t', sizes, n, m, b)
    {
      assert m != l;
      if Kid(m, b) != l { assert CellJustified(t, sizes, n, m, b); }
    }
  }

  lemma RootWindowNotShort(sizes: seq<nat>, n: nat, u: nat)
    requires Fits(sizes) && Uses(sizes, n) && sizes[n] > FAST_BITS && Uses(sizes, u) && sizes[u] <= FAST_BITS
    ensures !Begins(sizes, u, Low(Stored(sizes, n), FAST_BITS))
  {
    var w := Stored(sizes, n);
    WindowLow(w, FAST_BITS);
    NodeWindowNotShort(sizes, RootLabel(w), n, u, Low(w, FAST_BITS));
  }

  lemma RootShorts(t: Trie, sizes: seq<nat>, n: nat, x: nat, v: int)
    requires |t.lookup| == FAST_SIZE && n <= |sizes| && x < FAST_SIZE && Shorts(t.lookup, sizes, n)
    requires forall u :: 0 <= u < n && 1 <= sizes[u] <= FAST_BITS ==> !Begins(sizes, u, x)
    ensures Shorts(t.lookup[x := v], sizes, n)
  {
    hide Begins;
  }

  lemma FromShortKept(lookup: seq<int>, sizes: seq<nat>, n: nat, y: nat, x: nat, v: int)
    requires |lookup| == FAST_SIZE && n <= |sizes| && x < FAST_SIZE && y < FAST_SIZE && x != y
    requires FromShort(lookup, sizes, n, y)
    ensures FromShort(lookup[x := v], sizes, n, y)
  {
    hide Begins;
  }

  lemma OtherWindows(x: nat, y: nat, w: nat)
    requires x == Low(w, FAST_BITS) && x < FAST_SIZE && y < FAST_SIZE && x != y
    ensures RootLabel(y) != RootLabel(w) == RootLabel(x)
  {
    WindowLow(w, FAST_BITS);
    if RootLabel(y) == RootLabel(w) { WindowInjective(x, y); }
  }

  lemma RootLookups(t: Trie, sizes: seq<nat>, n: nat, w: nat)
    requires |t.lookup| == FAST_SIZE && n <= |sizes|
    requires Lookups(t, sizes, n) && Roots(t)
    requires Low(w, FAST_BITS) < FAST_SIZE && t.lookup[Low(w, FAST_BITS)] == 0
    ensures Lookups(Root(t, w), sizes, n) && Roots(Root(t, w))
    ensures RootLabel(w) !in t.node
  {
    hide FromShort, Prefix, Low;
    var x, t' := Low(w, FAST_BITS), Root(t, w);
    WindowLow(w, FAST_BITS);
    forall y | 0 <= y < FAST_SIZE && y != x
      ensures RootLabel(y) != RootLabel(w)
    {
      OtherWindows(x, y, w);
    }
    AddedRoot(t, t', x, |t.node|);
    forall y | 0 <= y < FAST_SIZE && t'.lookup[y] != 0
      ensures FromShort(t'.lookup, sizes, n, y)
              || (RootLabel(y) in t'.node && t'.lookup[y] == Ref(t'.node[RootLabel(y)]))
    {
      if y != x {
        if FromShort(t.lookup, sizes, n, y) { FromShortKept(t.lookup, sizes, n, y, x, Ref(|t.node|)); }
      }
    }
  }

  lemma AddedRoot(t: Trie, t': Trie, x: nat, k: nat)
    requires |t.lookup| == FAST_SIZE && Roots(t) && x < FAST_SIZE && t.lookup[x] == 0
    requires t' == Trie(t.lookup[x := Ref(k)], t.tree, t.node[RootLabel(x) := k])
    requires forall y :: 0 <= y < FAST_SIZE && y != x ==> RootLabel(y) != RootLabel(x)
    ensures Roots(t') && RootLabel(x) !in t.node
  {
    hide Prefix;
    assert RootLabel(x) !in t.node;
    forall y | 0 <= y < FAST_SIZE && Label(FAST_BITS, Prefix(y, FAST_BITS)) in t'.node
      ensures t'.lookup[y] == Ref(t'.node[Label(FAST_BITS, Prefix(y, FAST_BITS))])
    {
      assert y != x ==> RootLabel(y) != RootLabel(x);
    }
  }

  /** How t' may differ from t when node l joins: only in the cell that leads to l. */
  ghost predicate Joins(t: Trie, t': Trie, l: Label)
    requires |t.tree| == |t'.tree| == TREE_SIZE && Nodes(t.node) && Nodes(t'.node)
  {
    && l !in t.node && t'.node == t.node[l := |t.node|]
    && At(t', l, 0) == 0 && At(t', l, 1) == 0
    && (l.depth > FAST_BITS ==> Parent(l) in t.node && At(t', Parent(l), l.value % 2) == Ref(|t.node|))
    && (forall m, b: nat :: m in t.node && b < 2 ==> At(t', m, b) == At(t, m, b) || Kid(m, b) == l)
  }

  lemma KidsGrow(t: Trie, t': Trie, l: Label)
    requires |t.tree| == |t'.tree| == TREE_SIZE && Nodes(t.node) && Nodes(t'.node)
    requires Joins(t, t', l) && Kids(t)
    ensures Kids(t')
  {
    forall m | m in t'.node && m.depth > FAST_BITS
      ensures Parent(m) in t'.node && At(t', Parent(m), m.value % 2) == Ref(t'.node[m])
    {
      if m != l {
        assert Kid(Parent(m), m.value % 2) == m;
        assert At(t', Parent(m), m.value % 2) == At(t, Parent(m), m.value % 2);
      }
    }
  }

  lemma LeavesGrow(t: Trie, t': Trie, sizes: seq<nat>, n: nat, l: Label)
    requires |t.tree| == |t'.tree| == TREE_SIZE && Nodes(t.node) && Nodes(t'.node) && n <= |sizes|
    requires Joins(t, t', l) && Leaves(t, sizes, n) && Fits(sizes)
    requires forall u :: 0 <= u < n && 1 <= sizes[u] == l.depth ==> Code(sizes, u) != l.value
    ensures Leaves(t', sizes, n)
  {
    hide Code, Fits;
    forall u | 0 <= u < n && sizes[u] > FAST_BITS
      ensures Leaf(t', sizes, u)
    {
      assert Leaf(t, sizes, u);
      LeafCell(sizes, u);
    }
  }

  /** The leaf cell of u stands for exactly the code of u. */
  lemma LeafCell(sizes: seq<nat>, u: nat)
    requires Fits(sizes) && Uses(sizes, u)
    ensures Kid(Label(sizes[u] - 1, Prefix(Stored(sizes, u), sizes[u] - 1)), Code(sizes, u) % 2)
         == Label(sizes[u], Code(sizes, u))
  {
    hide Code, Stored, Fits, Bit, Prefix;
    StoredReads(sizes, u, sizes[u]);
    PrefixStep(Stored(sizes, u), sizes[u] - 1);
  }

  lemma PrefixLabelsApart(sizes: seq<nat>, l: Label, s: nat, n: nat)
    requires Fits(sizes) && IsPrefix(l, sizes, s) && n <= |sizes|
    ensures forall u :: 0 <= u < n && 1 <= sizes[u] == l.depth ==> Code(sizes, u) != l.value
  {
    forall u | 0 <= u < n && 1 <= sizes[u] == l.depth
      ensures Code(sizes, u) != l.value
    {
      CodeIsNotPrefix(sizes, l, s, u);
    }
  }

  /** Everything but the lookup, when node l joins for symbol s. */
  lemma JoinHolds(t: Trie, t': Trie, sizes: seq<nat>, n: nat, m: nat, l: Label, s: nat)
    requires Holds(t, sizes, n, m) && 2 * |t.node| + 2 <= TREE_SIZE
    requires |t'.tree| == TREE_SIZE && l !in t.node && t'.node == t.node[l := |t.node|]
    requires Nodes(t'.node) && Joins(t, t', l)
    requires forall i :: 2 * |t.node| <= i < TREE_SIZE ==> t'.tree[i] == t.tree[i]
    requires s < m && IsPrefix(l, sizes, s)
    ensures Kids(t') && Leaves(t', sizes, n) && Cells(t', sizes, n) && Labels(t', sizes, m) && Blank(t')
  {
    hide Nodes, Shorts, Lookups, Roots, IsPrefix, At, Kids, Leaves, Cells, Labels, Blank;
    KidsGrow(t, t', l);
    PrefixLabelsApart(sizes, l, s, n);
    LeavesGrow(t, t', sizes, n, l);
    CellsGrow(t, t', sizes, n, l);
    LabelsGrow(t, t', sizes, m, l, s);
    BlankGrow(t, t', l);
  }

  lemma RootHolds(t: Trie, sizes: seq<nat>, n: nat)
    requires Holds(t, sizes, n, n + 1) && sizes[n] > FAST_BITS
    requires RootLabel(Stored(sizes, n)) !in t.node ==> 2 * |t.node| + 2 <= TREE_SIZE
    ensures var w := Stored(sizes, n);
            var t' := Root(t, w);
            && Holds(t', sizes, n, n + 1) && RootLabel(w) in t'.node
            && Low(w, FAST_BITS) < FAST_SIZE && t'.lookup[Low(w, FAST_BITS)] == Ref(t'.node[RootLabel(w)])
            && (t.lookup[Low(w, FAST_BITS)] == 0 ==> RootLabel(w) !in t.node)
  {
    var w := Stored(sizes, n);
    var t', x, l := Root(t, w), Low(w, FAST_BITS), RootLabel(w);
    WindowLow(w, FAST_BITS);
    forall u | 0 <= u < |sizes| && 1 <= sizes[u] <= FAST_BITS
      ensures !Begins(sizes, u, x)
    {
      RootWindowNotShort(sizes, n, u);
    }
    hide Begins, Code, Fits, Stored, Nodes, Kids, Leaves, Cells, Labels, Blank;
    if t.lookup[x] == 0 {
      RootLookups(t, sizes, n, w);
      RootShorts(t, sizes, n, x, Ref(|t.node|));
      NodesGrow(t.node, l);
      RootJoins(t, w);
      JoinHolds(t, t', sizes, n, n + 1, l, n);
    } else {
      assert !FromShort(t.lookup, sizes, n, x);
    }
  }

  lemma RootJoins(t: Trie, w: nat)
    requires |t.lookup| == FAST_SIZE && |t.tree| == TREE_SIZE && Blank(t) && 2 * |t.node| + 2 <= TREE_SIZE
    requires Low(w, FAST_BITS) < FAST_SIZE && t.lookup[Low(w, FAST_BITS)] == 0 && RootLabel(w) !in t.node
    requires Nodes(t.node) && Nodes(Root(t, w).node)
    ensures Joins(t, Root(t, w), RootLabel(w))
  {
  }

  function SetCell(t: Trie, l: Label, b: nat, v: int): (r: Trie)
    requires |t.tree| == TREE_SIZE && Nodes(t.node) && l in t.node && b < 2
    ensures r.lookup == t.lookup && r.node == t.node && |r.tree| == TREE_SIZE
  {
    t.(tree := t.tree[2 * t.node[l] + b := v])
  }

  /** A cell belongs to one node and one bit. */
  lemma CellsApart(t: Trie, l: Label, b: nat, v: int)
    requires |t.tree| == TREE_SIZE && Nodes(t.node) && l in t.node && b < 2
    ensures At(SetCell(t, l, b, v), l, b) == v
    ensures forall m, c: nat :: m in t.node && c < 2 && (m != l || c != b) ==>
              At(SetCell(t, l, b, v), m, c) == At(t, m, c)
    ensures Blank(t) ==> Blank(SetCell(t, l, b, v))
    ensures forall i :: 2 * |t.node| <= i < TREE_SIZE ==> SetCell(t, l, b, v).tree[i] == t.tree[i]
  {
    NodeBound(t.node, l);
  }

  lemma NodeBound(node: map<Label, nat>, l: Label)
    requires Nodes(node) && l in node
    ensures node[l] < |node|
  {
  }

  /** Naming one more node does not touch any cell. */
  function AddNode(t: Trie, l: Label): Trie {
    t.(node := t.node[l := |t.node|])
  }

  lemma AddNodeAt(t: Trie, l: Label)
    requires |t.tree| == TREE_SIZE && Nodes(t.node) && l !in t.node && 2 * |t.node| + 2 <= TREE_SIZE && Blank(t)
    ensures Nodes(AddNode(t, l).node) && |AddNode(t, l).node| == |t.node| + 1
    ensures forall m, c: nat :: m in t.node && c < 2 ==> At(AddNode(t, l), m, c) == At(t, m, c)
    ensures At(AddNode(t, l), l, 0) == 0 && At(AddNode(t, l), l, 1) == 0
  {
    NodesGrow(t.node, l);
  }

  /** From node l one bit further along w, finding or making the next node. */
  function Down(t: Trie, l: Label, w: nat): (r: Trie)
    requires |t.tree| == TREE_SIZE && Nodes(t.node) && l in t.node
  {
    var b := Bit(w, l.depth);
    if At(t, l, b) == 0 then AddNode(SetCell(t, l, b, Ref(|t.node|)), Kid(l, b)) else t
  }

  lemma DownJoins(t: Trie, l: Label, w: nat)
    requires |t.tree| == TREE_SIZE && Nodes(t.node) && l in t.node && Kids(t) && Blank(t)
    requires 2 * |t.node| + 2 <= TREE_SIZE && At(t, l, Bit(w, l.depth)) == 0 && l.depth >= FAST_BITS
    ensures var k := Kid(l, Bit(w, l.depth));
            k !in t.node && Nodes(Down(t, l, w).node) && Joins(t, Down(t, l, w), k)
    ensures forall i :: 2 * |t.node| <= i < TREE_SIZE ==> Down(t, l, w).tree[i] == t.tree[i]
  {
    var b := Bit(w, l.depth);
    var k, u := Kid(l, b), SetCell(t, l, b, Ref(|t.node|));
    assert Parent(k) == l && k.value % 2 == b;
    assert k !in t.node;
    assert u.node == t.node;
    hide Nodes, Bit, Kids, Blank, At;
    CellsApart(t, l, b, Ref(|t.node|));
    AddNodeAt(u, k);
  }

  lemma LookupsDeep(t: Trie, t': Trie, sizes: seq<nat>, n: nat, k: Label)
    requires |t.lookup| == FAST_SIZE && n <= |sizes| && Lookups(t, sizes, n) && Roots(t)
    requires t'.lookup == t.lookup && t'.node == t.node[k := |t.node|] && k.depth > FAST_BITS
    ensures Lookups(t', sizes, n) && Roots(t')
  {
    hide FromShort, Prefix;
  }

  /** A set cell on the way to a longer code leads to a node, never to a leaf. */
  lemma CellOnPath(t: Trie, sizes: seq<nat>, n: nat, m: nat, l: Label, s: nat)
    requires Holds(t, sizes, n, m) && l in t.node && Uses(sizes, s) && FAST_BITS <= l.depth
    requires IsPrefix(Kid(l, Bit(Stored(sizes, s), l.depth)), sizes, s)
    requires At(t, l, Bit(Stored(sizes, s), l.depth)) != 0
    ensures Kid(l, Bit(Stored(sizes, s), l.depth)) in t.node
  {
    var b := Bit(Stored(sizes, s), l.depth);
    var k := Kid(l, b);
    hide Nodes, Shorts, Lookups, Roots, IsPrefix, Kids, Leaves, Labels, Blank, Stored, Code, Fits;
    assert CellJustified(t, sizes, n, l, b);
    PrefixLabelsApart(sizes, k, s, n);
  }

  lemma KidIsPrefix(sizes: seq<nat>, l: Label, s: nat)
    requires IsPrefix(l, sizes, s) && l.depth + 1 < sizes[s]
    ensures IsPrefix(Kid(l, Bit(Stored(sizes, s), l.depth)), sizes, s)
  {
  }

  lemma DownHolds(t: Trie, sizes: seq<nat>, n: nat, l: Label)
    requires Holds(t, sizes, n, n + 1) && n < |sizes|
    requires l in t.node && IsPrefix(l, sizes, n) && l.depth + 1 < sizes[n]
    requires Kid(l, Bit(Stored(sizes, n), l.depth)) !in t.node ==> 2 * |t.node| + 2 <= TREE_SIZE
    ensures var w := Stored(sizes, n);
            var b := Bit(w, l.depth);
            var k, t' := Kid(l, b), Down(t, l, w);
            && Holds(t', sizes, n, n + 1) && k in t'.node && IsPrefix(k, sizes, n) && l in t'.node
            && At(t', l, b) == Ref(t'.node[k])
            && (At(t, l, b) == 0 ==> k !in t.node)
  {
    KidIsPrefix(sizes, l, n);
    var w := Stored(sizes, n);
    var b := Bit(w, l.depth);
    var k, t' := Kid(l, b), Down(t, l, w);
    assert l.depth >= FAST_BITS;
    assert Parent(k) == l && k.value % 2 == b;
    hide Shorts, Lookups, Roots, IsPrefix, Leaves, Cells, Labels, Blank, Stored, Code, Fits, Nodes, Bit, Joins;
    if At(t, l, b) == 0 {
      DownJoins(t, l, w);
      JoinHolds(t, t', sizes, n, n + 1, k, n);
      LookupsDeep(t, t', sizes, n, k);
    } else {
      CellOnPath(t, sizes, n, n + 1, l, n);
    }
  }

  /** Writes the leaf of a long code at its last node. */
  function SetLeaf(t: Trie, sizes: seq<nat>, s: nat, l: Label): (r: Trie)
    requires |t.tree| == TREE_SIZE && Nodes(t.node) && l in t.node && Uses(sizes, s)
  {
    SetCell(t, l, Bit(Stored(sizes, s), l.depth), s)
  }

  lemma LeafKids(t: Trie, sizes: seq<nat>, n: nat, m: nat, l: Label)
    requires Holds(t, sizes, n, m) && n < m && l in t.node && IsPrefix(l, sizes, n) && l.depth + 1 == sizes[n]
    ensures Kids(SetLeaf(t, sizes, n, l)) && Blank(SetLeaf(t, sizes, n, l))
  {
    var t', b := SetLeaf(t, sizes, n, l), Bit(Stored(sizes, n), l.depth);
    LeafLabel(sizes, l, n);
    hide Shorts, Lookups, Roots, Leaves, Cells, Stored, Code, Fits, Nodes, Bit, Labels, SetCell, At;
    CellsApart(t, l, b, n);
    forall c | c in t'.node && c.depth > FAST_BITS
      ensures At(t', Parent(c), c.value % 2) == At(t, Parent(c), c.value % 2)
    {
      if Parent(c) == l && c.value % 2 == b {
        assert c == Kid(l, b);
        LabelNotCode(t, sizes, m, c, n);
        assert false;
      }
    }
  }

  lemma LabelNotCode(t: Trie, sizes: seq<nat>, m: nat, c: Label, u: nat)
    requires Labels(t, sizes, m) && Fits(sizes) && c in t.node && Uses(sizes, u)
    ensures c != Label(sizes[u], Code(sizes, u))
  {
    var s :| 0 <= s < m && IsPrefix(c, sizes, s);
    PrefixLabelsApart(sizes, c, s, |sizes|);
  }

  lemma LeafLabel(sizes: seq<nat>, l: Label, s: nat)
    requires Fits(sizes) && IsPrefix(l, sizes, s) && l.depth + 1 == sizes[s]
    ensures Kid(l, Bit(Stored(sizes, s), l.depth)) == Label(sizes[s], Code(sizes, s))
    ensures Bit(Stored(sizes, s), l.depth) == Code(sizes, s) % 2
  {
    hide Code, Stored, Fits, Bit, Prefix;
    StoredReads(sizes, s, sizes[s]);
    PrefixStep(Stored(sizes, s), l.depth);
  }

  lemma PrefixStep(w: nat, d: nat)
    ensures Prefix(w, d + 1) == 2 * Prefix(w, d) + Bit(w, d)
  {
  }

  lemma LeafCells(t: Trie, sizes: seq<nat>, n: nat, m: nat, l: Label)
    requires Holds(t, sizes, n, m) && n < m && l in t.node && IsPrefix(l, sizes, n) && l.depth + 1 == sizes[n]
    ensures Cells(SetLeaf(t, sizes, n, l), sizes, n + 1)
  {
    var t', b := SetLeaf(t, sizes, n, l), Bit(Stored(sizes, n), l.depth);
    LeafLabel(sizes, l, n);
    hide Shorts, Lookups, Roots, Leaves, Kids, Labels, Blank, Stored, Code, Fits, Nodes, Bit, SetCell, At;
    CellsApart(t, l, b, n);
    forall c, d: nat | c in t'.node && d < 2 && At(t', c, d) != 0
      ensures CellJustified(t', sizes, n + 1, c, d)
    {
      if c == l && d == b {
        assert sizes[n] == c.depth + 1 && Code(sizes, n) == Kid(c, d).value;
      } else {
        assert At(t', c, d) == At(t, c, d);
        assert CellJustified(t, sizes, n, c, d);
      }
    }
  }

  lemma LeafNew(t: Trie, sizes: seq<nat>, n: nat, l: Label)
    requires |t.tree| == TREE_SIZE && Nodes(t.node) && Fits(sizes)
    requires l in t.node && IsPrefix(l, sizes, n) && l.depth + 1 == sizes[n]
    ensures Leaf(SetLeaf(t, sizes, n, l), sizes, n)
  {
    LeafLabel(sizes, l, n);
    hide Nodes, Bit, SetCell, At, Code, Stored, Fits, Prefix;
    CellsApart(t, l, Bit(Stored(sizes, n), l.depth), n);
  }

  lemma LeafOld(t: Trie, sizes: seq<nat>, n: nat, l: Label, u: nat)
    requires |t.tree| == TREE_SIZE && Nodes(t.node) && Fits(sizes)
    requires l in t.node && IsPrefix(l, sizes, n) && l.depth + 1 == sizes[n]
    requires Uses(sizes, u) && u != n && Leaf(t, sizes, u)
    ensures Leaf(SetLeaf(t, sizes, n, l), sizes, u)
  {
    LeafLabel(sizes, l, n);
    LeafCell(sizes, u);
    if sizes[u] == sizes[n] { CodesDiffer(sizes, u, n); }
    hide Nodes, Bit, SetCell, At, Code, Stored, Fits, Prefix;
    CellsApart(t, l, Bit(Stored(sizes, n), l.depth), n);
  }

  lemma LeafLeaves(t: Trie, sizes: seq<nat>, n: nat, m: nat, l: Label)
    requires Holds(t, sizes, n, m) && n < m && l in t.node && IsPrefix(l, sizes, n) && l.depth + 1 == sizes[n]
    ensures Leaves(SetLeaf(t, sizes, n, l), sizes, n + 1)
  {
    hide Shorts, Lookups, Roots, Cells, Kids, Labels, Blank, IsPrefix, Nodes, Leaf, SetLeaf, Fits;
    var t', j := SetLeaf(t, sizes, n, l), n + 1;
    LeafNew(t, sizes, n, l);
    SetLeafShape(t, sizes, n, l);
    forall u | 0 <= u < j && sizes[u] > FAST_BITS
      ensures Leaf(t', sizes, u)
    {
      if u < n { LeafOld(t, sizes, n, l, u); }
    }
  }

  lemma SetLeafShape(t: Trie, sizes: seq<nat>, n: nat, l: Label)
    requires |t.tree| == TREE_SIZE && Nodes(t.node) && l in t.node && Uses(sizes, n)
    ensures var t' := SetLeaf(t, sizes, n, l);
            t'.lookup == t.lookup && t'.node == t.node && |t'.tree| == TREE_SIZE
  {
  }

  lemma CodesDiffer(sizes: seq<nat>, s: nat, t: nat)
    requires Uses(sizes, s) && Uses(sizes, t) && s != t && sizes[s] == sizes[t]
    ensures Code(sizes, s) != Code(sizes, t)
  {
    PrefixFree(sizes, s, t);
  }

  // ---------------------------------------------------------------- one symbol at a time

  lemma LookupsLater(t: Trie, sizes: seq<nat>, n: nat)
    requires |t.lookup| == FAST_SIZE && n < |sizes| && Lookups(t, sizes, n)
    ensures Lookups(t, sizes, n + 1)
  {
    hide Begins, Prefix;
    var j := n + 1;
    forall x | 0 <= x < FAST_SIZE && FromShort(t.lookup, sizes, n, x)
      ensures FromShort(t.lookup, sizes, j, x)
    {
    }
  }

  lemma CellsLater(t: Trie, sizes: seq<nat>, n: nat)
    requires |t.tree| == TREE_SIZE && Nodes(t.node) && n < |sizes| && Cells(t, sizes, n)
    ensures Cells(t, sizes, n + 1)
  {
    hide At, Nodes, Code;
    var j := n + 1;
    forall l, b: nat | l in t.node && b < 2 && At(t, l, b) != 0
      ensures CellJustified(t, sizes, j, l, b)
    {
      assert CellJustified(t, sizes, n, l, b);
    }
  }

  lemma LabelsLater(t: Trie, sizes: seq<nat>, m: nat)
    requires Labels(t, sizes, m)
    ensures Labels(t, sizes, m + 1)
  {
    hide IsPrefix;
    var j := m + 1;
    forall l | l in t.node
      ensures exists s :: 0 <= s < j && IsPrefix(l, sizes, s)
    {
      var s :| 0 <= s < m && IsPrefix(l, sizes, s);
    }
  }

  lemma Ready(t: Trie, sizes: seq<nat>, n: nat)
    requires Holds(t, sizes, n, n) && n < |sizes|
    ensures Holds(t, sizes, n, n + 1)
  {
    hide Nodes, Shorts, Lookups, Roots, Kids, Leaves, Cells, Labels, Blank;
    LabelsLater(t, sizes, n);
  }

  /** Unused symbols leave the table alone. */
  lemma Skip(t: Trie, sizes: seq<nat>, n: nat)
    requires Holds(t, sizes, n, n) && n < |sizes| && sizes[n] == 0
    ensures Holds(t, sizes, n + 1, n + 1)
  {
    hide Nodes, Shorts, Lookups, Roots, Kids, Leaves, Cells, Labels, Blank;
    LabelsLater(t, sizes, n);
    CellsLater(t, sizes, n);
    LookupsLater(t, sizes, n);
    ShortsLater(t.lookup, sizes, n);
    LeavesLater(t, sizes, n);
  }

  lemma ShortsLater(lookup: seq<int>, sizes: seq<nat>, n: nat)
    requires |lookup| == FAST_SIZE && n < |sizes| && Shorts(lookup, sizes, n)
    requires sizes[n] == 0 || sizes[n] > FAST_BITS
    ensures Shorts(lookup, sizes, n + 1)
  {
    hide Begins;
  }

  lemma LeavesLater(t: Trie, sizes: seq<nat>, n: nat)
    requires |t.tree| == TREE_SIZE && Nodes(t.node) && n < |sizes| && Leaves(t, sizes, n)
    requires sizes[n] <= FAST_BITS
    ensures Leaves(t, sizes, n + 1)
  {
    hide Leaf, Nodes;
  }

  lemma SameLookups(t: Trie, t': Trie, sizes: seq<nat>, n: nat, m: nat)
    requires |t.lookup| == FAST_SIZE && n <= |sizes| && Lookups(t, sizes, n) && Roots(t) && Labels(t, sizes, m)
    requires t'.lookup == t.lookup && t'.node == t.node
    ensures Lookups(t', sizes, n) && Roots(t') && Labels(t', sizes, m)
  {
    hide FromShort, Prefix, IsPrefix;
  }

  lemma SameTree(t: Trie, t': Trie, sizes: seq<nat>, n: nat)
    requires |t.tree| == TREE_SIZE && Nodes(t.node) && n <= |sizes|
    requires Kids(t) && Cells(t, sizes, n) && Blank(t)
    requires t'.tree == t.tree && t'.node == t.node
    ensures Kids(t') && Cells(t', sizes, n) && Blank(t')
  {
    hide Nodes, Code;
    forall l, b: nat | l in t'.node && b < 2 && At(t', l, b) != 0
      ensures CellJustified(t', sizes, n, l, b)
    {
      assert At(t, l, b) == At(t', l, b);
      assert CellJustified(t, sizes, n, l, b);
    }
    forall l | l in t'.node && l.depth > FAST_BITS
      ensures Parent(l) in t'.node && At(t', Parent(l), l.value % 2) == Ref(t'.node[l])
    {
      assert At(t, Parent(l), l.value % 2) == Ref(t.node[l]);
    }
  }

  lemma SameLeaves(t: Trie, t': Trie, sizes: seq<nat>, n: nat)
    requires |t.tree| == TREE_SIZE && Nodes(t.node) && n <= |sizes| && Leaves(t, sizes, n)
    requires t'.tree == t.tree && t'.node == t.node
    ensures Leaves(t', sizes, n)
  {
    hide Nodes, Code, Stored, Prefix;
    forall s | 0 <= s < n && sizes[s] > FAST_BITS
      ensures Leaf(t', sizes, s)
    {
      assert Leaf(t, sizes, s);
    }
  }

  lemma LeafHolds(t: Trie, sizes: seq<nat>, n: nat, l: Label)
    requires Holds(t, sizes, n, n + 1) && n < |sizes|
    requires l in t.node && IsPrefix(l, sizes, n) && l.depth + 1 == sizes[n]
    ensures Holds(SetLeaf(t, sizes, n, l), sizes, n + 1, n + 1)
  {
    assert sizes[n] > FAST_BITS;
    hide Nodes, Shorts, Lookups, Roots, Kids, Leaves, Cells, Labels, Blank, SetLeaf, IsPrefix, Fits;
    LeafKids(t, sizes, n, n + 1, l);
    LeafCells(t, sizes, n, n + 1, l);
    LeafLeaves(t, sizes, n, n + 1, l);
    SetLeafShape(t, sizes, n, l);
    ShortsLater(t.lookup, sizes, n);
    LookupsLater(t, sizes, n);
    SameLookups(t, SetLeaf(t, sizes, n, l), sizes, n + 1, n + 1);
  }

  /** Two codes never begin the same window. */
  lemma BeginsOnce(sizes: seq<nat>, s: nat, u: nat, x: nat)
    requires Uses(sizes, s) && Uses(sizes, u) && Begins(sizes, s, x) && Begins(sizes, u, x)
    ensures s == u
  {
    var a, b := if sizes[s] <= sizes[u] then s else u, if sizes[s] <= sizes[u] then u else s;
    PrefixShr(x, sizes[a], sizes[b]);
    if a != b { PrefixFree(sizes, a, b); }
  }

  /** The lookup with every window that begins with symbol n set. */
  ghost predicate Filled(lookup: seq<int>, lookup': seq<int>, sizes: seq<nat>, n: nat)
    requires Uses(sizes, n)
  {
    |lookup| == |lookup'| == FAST_SIZE
    && forall x :: 0 <= x < FAST_SIZE ==>
         lookup'[x] == if Begins(sizes, n, x) then sizes[n] * 512 + n else lookup[x]
  }

  lemma ShortLookups(t: Trie, t': Trie, sizes: seq<nat>, n: nat)
    requires |t.lookup| == FAST_SIZE && Uses(sizes, n) && sizes[n] <= FAST_BITS
    requires Shorts(t.lookup, sizes, n) && Lookups(t, sizes, n) && Filled(t.lookup, t'.lookup, sizes, n)
    requires t'.node == t.node
    ensures Shorts(t'.lookup, sizes, n + 1) && Lookups(t', sizes, n + 1)
  {
    hide Begins, Prefix;
    var j := n + 1;
    forall s, x | 0 <= s < j && 0 <= x < FAST_SIZE && 1 <= sizes[s] <= FAST_BITS && Begins(sizes, s, x)
      ensures t'.lookup[x] == sizes[s] * 512 + s
    {
      if s < n && Begins(sizes, n, x) { BeginsOnce(sizes, s, n, x); }
    }
    forall x | 0 <= x < FAST_SIZE && (Begins(sizes, n, x) || FromShort(t.lookup, sizes, n, x))
      ensures FromShort(t'.lookup, sizes, j, x)
    {
      if !Begins(sizes, n, x) {
        var s :| 0 <= s < n && 1 <= sizes[s] <= FAST_BITS && Begins(sizes, s, x) && t.lookup[x] == sizes[s] * 512 + s;
        assert t'.lookup[x] == sizes[s] * 512 + s;
      }
    }
  }

  lemma ShortRoots(t: Trie, t': Trie, sizes: seq<nat>, n: nat, m: nat)
    requires |t.lookup| == FAST_SIZE && Fits(sizes) && Uses(sizes, n) && sizes[n] <= FAST_BITS
    requires Roots(t) && Labels(t, sizes, m) && Filled(t.lookup, t'.lookup, sizes, n)
    requires t'.node == t.node
    ensures Roots(t')
  {
    hide Begins, Prefix, Code;
    forall x | 0 <= x < FAST_SIZE && Label(FAST_BITS, Prefix(x, FAST_BITS)) in t.node
      ensures !Begins(sizes, n, x)
    {
      var l := Label(FAST_BITS, Prefix(x, FAST_BITS));
      var s :| 0 <= s < m && IsPrefix(l, sizes, s);
      NodeWindowNotShort(sizes, l, s, n, x);
    }
  }

  lemma ShortHolds(t: Trie, t': Trie, sizes: seq<nat>, n: nat)
    requires Holds(t, sizes, n, n) && n < |sizes| && 1 <= sizes[n] <= FAST_BITS
    requires t'.tree == t.tree && t'.node == t.node && Filled(t.lookup, t'.lookup, sizes, n)
    ensures Holds(t', sizes, n + 1, n + 1)
  {
    hide Nodes, Shorts, Lookups, Roots, Kids, Leaves, Cells, Labels, Blank, Fits, Begins;
    ShortLookups(t, t', sizes, n);
    ShortRoots(t, t', sizes, n, n);
    CellsLater(t, sizes, n);
    LabelsLater(t, sizes, n);
    LeavesLater(t, sizes, n);
    SameTree(t, t', sizes, n + 1);
    SameLeaves(t, t', sizes, n + 1);
    SameLabels(t, t', sizes, n + 1);
  }

  lemma SameLabels(t: Trie, t': Trie, sizes: seq<nat>, m: nat)
    requires Labels(t, sizes, m) && t'.node == t.node
    ensures Labels(t', sizes, m)
  {
    hide IsPrefix;
  }
}
