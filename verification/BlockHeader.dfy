/** The header of a dynamic block (section 3.2.7 of RFC 1951): written by
    tdefl_start_dynamic_block, read by tinfl_decompress. */
module BlockHeader {
  import opened Bits
  import opened Symbols
  import opened Canonical
  import opened InflateTable
  import opened InflateBuild
  import opened EncoderTable
  import opened BitIO
  import opened Tokens
  import opened SizePacking
  import opened TokenCoding
  import HuffmanOptimal
  import UsedSymbols

  /** s_tdefl_packed_code_size_syms_swizzle */
  const SWIZZLE: seq<nat> := [16, 17, 18, 0, 8, 7, 9, 6, 10, 5, 11, 4, 12, 3, 13, 2, 14, 1, 15]

  /** The order in which code lengths' own code lengths are sent (section 3.2.7 of RFC 1951): the runs,
      nought, and then outwards from eight and seven. */
  function CodeSent(i: nat): (c: nat)
    requires i < 19
    ensures c < 19
  {
    if i < 3 then 16 + i else if i == 3 then 0 else if i % 2 == 0 then 8 + (i - 4) / 2 else 7 - (i - 5) / 2
  }

  /** Where a code is sent. */
  function SentAt(c: nat): (i: nat)
    requires c < 19
    ensures i < 19 && CodeSent(i) == c
  {
    if c >= 16 then c - 16 else if c == 0 then 3 else if c >= 8 then 4 + 2 * (c - 8) else 5 + 2 * (7 - c)
  }

  lemma SentOnce(i: nat, j: nat)
    requires i < j < 19
    ensures CodeSent(i) != CodeSent(j)
  {
  }

  lemma EncoderOrder(i: nat)
    requires i < 19
    ensures |SWIZZLE| == 19 && SWIZZLE[i] == CodeSent(i)
  {
    assert i == 0 || i == 1 || i == 2 || i == 3 || i == 4 || i == 5 || i == 6 || i == 7 || i == 8 || i == 9
           || i == 10 || i == 11 || i == 12 || i == 13 || i == 14 || i == 15 || i == 16 || i == 17 || i == 18;
  }

  // ---------------------------------------------------------------- the header as bits

  /** The first k code-length code lengths, in their transmission order. */
  function MetaBits(cs: seq<nat>, k: nat): (r: seq<bool>)
    requires |cs| == 19 && k <= 19
    ensures |r| == 3 * k
  {
    if k == 0 then [] else MetaBits(cs, k - 1) + LowBits(cs[CodeSent(k - 1)], 3)
  }

  ghost predicate ItemsCoded(items: seq<Item>, cs: seq<nat>) {
    |cs| == 19 && AllItems(items) && forall i :: 0 <= i < |items| ==> Uses(cs, items[i].code)
  }

  function ItemBits(x: Item, cs: seq<nat>): (r: seq<bool>)
    requires |cs| == 19 && Uses(cs, x.code)
  {
    SymBits(cs, x.code) + LowBits(x.extra, ExtraBits(x.code))
  }

  function ItemsBits(items: seq<Item>, cs: seq<nat>): (r: seq<bool>)
    requires ItemsCoded(items, cs)
  {
    if items == [] then [] else ItemBits(items[0], cs) + ItemsBits(items[1..], cs)
  }

  /** A consistent header: lengths ls and ds, sent as items under lengths cs, of which h are sent. */
  ghost predicate Header(ls: seq<nat>, ds: seq<nat>, cs: seq<nat>, h: nat, items: seq<Item>) {
    && 257 <= |ls| <= 286 && 1 <= |ds| <= 30 && 4 <= h <= 19
    && ItemsCoded(items, cs) && Unpacks([], items, ls + ds)
    && (forall i :: 0 <= i < 19 ==> cs[i] < 8) && (forall i :: h <= i < 19 ==> cs[CodeSent(i)] == 0)
    && Accepted(cs)
  }

  /** How often the lengths' codes are used. */
  function UsesOf(items: seq<Item>): (counts: seq<u16>)
    requires |items| <= MAX_SIZES
    ensures |counts| == 19
  {
    seq(19, (c: nat) => CodeUses(items, c))
  }

  /** No header of more parts than needed: no run is missed, and no unused length is sent at an end; and up to
      33 items of at least two kinds are coded as short as a prefix code can. */
  ghost predicate Tight(ls: seq<nat>, ds: seq<nat>, cs: seq<nat>, h: nat, items: seq<Item>)
    requires Header(ls, ds, cs, h, items)
  {
    && Neat(items) && (|ls| > 257 ==> ls[|ls| - 1] != 0) && (|ds| > 1 ==> ds[|ds| - 1] != 0)
    && (h > 4 ==> cs[CodeSent(h - 1)] != 0)
    && (|items| < 34 && |UsedSymbols.Used(UsesOf(items), 19)| >= 2 ==> Best(UsesOf(items), cs))
  }

  function HeaderBits(ls: seq<nat>, ds: seq<nat>, cs: seq<nat>, h: nat, items: seq<Item>): (r: seq<bool>)
    requires Header(ls, ds, cs, h, items)
  {
    LowBits(|ls| - 257, 5) + LowBits(|ds| - 1, 5) + LowBits(h - 4, 4) + MetaBits(cs, h) + ItemsBits(items, cs)
  }

  // ---------------------------------------------------------------- writing it

  lemma {:induction false} ItemsBitsAppend(items: seq<Item>, x: Item, cs: seq<nat>)
    requires ItemsCoded(items, cs) && ValidItem(x) && Uses(cs, x.code)
    ensures ItemsCoded(items + [x], cs) && ItemsBits(items + [x], cs) == ItemsBits(items, cs) + ItemBits(x, cs)
  {
    hide ItemBits;
    if items == [] {
      assert [] + [x] == [x] && [x][1..] == [];
      assert items + [x] == [x];
    } else {
      assert (items + [x])[1..] == items[1..] + [x];
      ItemsBitsAppend(items[1..], x, cs);
    }
  }

  lemma BytesNext(items: seq<Item>, k: nat)
    requires AllItems(items) && k < |items|
    ensures Bytes(items[..k + 1]) == Bytes(items[..k]) + ItemBytes(items[k])
  {
    assert items[..k + 1][..k] == items[..k];
  }

  lemma {:induction false} BytesGrow(items: seq<Item>, k: nat)
    requires AllItems(items) && k <= |items|
    ensures Bytes(items[..k]) <= Bytes(items)
    decreases |items| - k
  {
    hide Bytes, ItemBytes;
    if k < |items| {
      BytesNext(items, k);
      BytesGrow(items, k + 1);
    } else {
      assert items[..k] == items;
    }
  }

  lemma BytesPrefix(items: seq<Item>, k: nat)
    requires AllItems(items) && k < |items|
    ensures |Bytes(items[..k + 1])| == |Bytes(items[..k])| + |ItemBytes(items[k])| <= |Bytes(items)|
    ensures Bytes(items)[|Bytes(items[..k])|..|Bytes(items[..k])| + |ItemBytes(items[k])|] == ItemBytes(items[k])
    ensures |ItemBytes(items[k])| >= 1
  {
    ItemNotEmpty(items[k]);
    hide Bytes, ItemBytes;
    BytesNext(items, k);
    BytesGrow(items, k + 1);
    Slice(Bytes(items[..k]), ItemBytes(items[k]), Bytes(items));
  }

  lemma Slice(a: seq<byte>, b: seq<byte>, s: seq<byte>)
    requires a + b <= s
    ensures s[|a|..|a| + |b|] == b
  {
  }

  lemma NoItems(cs: seq<nat>)
    requires |cs| == 19
    ensures Bytes([]) == [] && ItemsBits([], cs) == []
  {
  }

  lemma ItemsUpTo(items: seq<Item>, k: nat, cs: seq<nat>)
    requires ItemsCoded(items, cs) && k < |items|
    ensures ItemsCoded(items[..k], cs) && ValidItem(items[k]) && Uses(cs, items[k].code) && ItemsCoded(items[..k + 1], cs)
    ensures ItemsBits(items[..k + 1], cs) == ItemsBits(items[..k], cs) + ItemBits(items[k], cs)
  {
    hide ItemBits, ItemsBits, ValidItem, InflateTable.Uses;
    ItemsBitsAppend(items[..k], items[k], cs);
    assert items[..k] + [items[k]] == items[..k + 1];
  }

  /** One packed code, and its extra bits. */
  method WriteItem(w: BitWriter, packed: seq<byte>, p0: nat, codes: seq<nat>, cs: seq<nat>, ghost x: Item) returns (p: nat)
    requires w.Valid() && CodeTable(codes, cs) && |cs| == 19 && ValidItem(x) && Uses(cs, x.code)
    requires p0 + |ItemBytes(x)| <= |packed| && packed[p0..p0 + |ItemBytes(x)|] == ItemBytes(x)
    modifies w, w.out
    ensures w.Valid() && p == p0 + |ItemBytes(x)| && w.bits == old(w.bits) + ItemBits(x, cs)
  {
    hide BitWriter.Valid, LowBits, SymBits, CodeTable, Pow2;
    ghost var b := packed[p0..p0 + |ItemBytes(x)|];
    var code := packed[p0];
    assert code == b[0];
    p := p0 + 1;
    PutSymbol(w, codes, cs, code);
    if code >= 16 {
      assert packed[p] == b[1];
      w.PutBits(packed[p], ExtraBits(code));
      p := p + 1;
    } else {
      NoExtraBits(x.extra);
    }
  }

  lemma NoExtraBits(v: nat)
    ensures LowBits(v, 0) == []
  {
  }

  method WriteItems(w: BitWriter, packed: seq<byte>, codes: seq<nat>, cs: seq<nat>, ghost items: seq<Item>)
    requires w.Valid() && CodeTable(codes, cs) && ItemsCoded(items, cs) && packed == Bytes(items)
    modifies w, w.out
    ensures w.Valid() && w.bits == old(w.bits) + ItemsBits(items, cs)
  {
    hide BitWriter.Valid, CodeTable, Bytes, ItemBytes, ItemBits, ItemsBits, ValidItem, InflateTable.Uses;
    var p := 0;
    ghost var k: nat, start := 0, w.bits;
    NoItems(cs);
    assert items[..0] == [];
    while p < |packed|
      invariant k <= |items| && p == |Bytes(items[..k])| <= |packed|
      invariant w.Valid() && w.bits == start + ItemsBits(items[..k], cs)
      decreases |packed| - p
    {
      WholeBytes(items, k);
      BytesPrefix(items, k);
      ItemsUpTo(items, k, cs);
      p := WriteItem(w, packed, p, codes, cs, items[k]);
      assert (start + ItemsBits(items[..k], cs)) + ItemBits(items[k], cs) == start + ItemsBits(items[..k + 1], cs);
      k := k + 1;
    }
    if k < |items| { BytesPrefix(items, k); }
    assert items[..k] == items;
  }

  lemma ItemNotEmpty(x: Item)
    requires ValidItem(x)
    ensures |ItemBytes(x)| >= 1
  {
  }

  lemma WholeBytes(items: seq<Item>, k: nat)
    requires AllItems(items) && k <= |items| && |Bytes(items[..k])| < |Bytes(items)|
    ensures k < |items|
  {
    assert items[..|items|] == items;
  }

  /** How many of the lengths to send: up to the last that is used, between min and max. */
  method TrimLength(sizes: seq<nat>, min: nat, max: nat) returns (n: nat)
    requires 1 <= min <= max <= |sizes|
    ensures min <= n <= max && (forall i :: n <= i < max ==> sizes[i] == 0) && (n > min ==> sizes[n - 1] != 0)
  {
    n := max;
    while n > min && sizes[n - 1] == 0
      invariant min <= n <= max && forall i :: n <= i < max ==> sizes[i] == 0
    {
      n := n - 1;
    }
  }

  /** How many code-length code lengths to send. */
  method MetaLength(cs: seq<nat>) returns (h: nat)
    requires |cs| == 19
    ensures 4 <= h <= 19 && (forall i :: h <= i < 19 ==> cs[CodeSent(i)] == 0) && (h > 4 ==> cs[CodeSent(h - 1)] != 0)
  {
    h := 19;
    forall i: nat | i < 19
      ensures |SWIZZLE| == 19 && SWIZZLE[i] == CodeSent(i)
    {
      EncoderOrder(i);
    }
    hide SWIZZLE, CodeSent;
    while h > 0 && cs[SWIZZLE[h - 1]] == 0
      invariant 0 <= h <= 19 && forall i :: h <= i < 19 ==> cs[CodeSent(i)] == 0
    {
      h := h - 1;
    }
    if h < 4 { h := 4; }
  }

  method WriteMeta(w: BitWriter, cs: seq<nat>, h: nat)
    requires w.Valid() && |cs| == 19 && h <= 19 && forall i :: 0 <= i < 19 ==> cs[i] < 8
    modifies w, w.out
    ensures w.Valid() && w.bits == old(w.bits) + MetaBits(cs, h)
  {
    hide BitWriter.Valid, LowBits, SWIZZLE, CodeSent;
    var i := 0;
    ghost var start := w.bits;
    while i < h
      invariant 0 <= i <= h && w.Valid() && w.bits == start + MetaBits(cs, i)
    {
      Pow2Values();
      EncoderOrder(i);
      w.PutBits(cs[SWIZZLE[i]], 3);
      i := i + 1;
    }
  }

  /** The lengths' own codes: every packed code gets one. */
  method MetaTable(p: SizePacker) returns (codes: seq<nat>, cs: seq<nat>)
    requires p.Packed()
    ensures CodeTable(codes, cs) && ItemsCoded(p.items, cs) && Accepted(cs)
    ensures |cs| == 19 && forall i :: 0 <= i < 19 ==> cs[i] < 8
    ensures |p.items| < 34 && |UsedSymbols.Used(UsesOf(p.items), 19)| >= 2 ==> Best(UsesOf(p.items), cs)
  {
    hide Unpacks, CodeUses, UsedSymbols.Used, UsedSymbols.KeySum, CodeTable, Accepted, Pow2, Best, HuffmanOptimal.Growth;
    ghost var items := p.items;
    assert p.counts[..] == UsesOf(items);
    GrowthOfSeven();
    UsesSumAll(items);
    CountsTotal(p.counts[..], items, NUM_CODES);
    UsedSymbols.KeySumIsTotal(p.counts[..], NUM_CODES);
    SevenBits();
    codes, cs := Optimize(p.counts[..], 7);
    forall i | 0 <= i < |items|
      ensures Uses(cs, items[i].code)
    {
      UsedIn(items, i);
    }
  }

  lemma GrowthOfSeven()
    ensures HuffmanOptimal.Growth(7) == 34
  {
  }

  lemma SevenBits()
    ensures Pow2(7) == 128
  {
  }

  /** tdefl_start_dynamic_block, once the two tables are made. */
  method WriteHeader(w: BitWriter, ls: seq<nat>, ds: seq<nat>)
    returns (nl: nat, nd: nat, ghost cs: seq<nat>, ghost h: nat, ghost items: seq<Item>)
    requires w.Valid() && |ls| == 288 && |ds| == 32 && Sizes(ls) && Sizes(ds)
    modifies w, w.out
    ensures 257 <= nl <= 286 && 1 <= nd <= 30
    ensures (forall i :: nl <= i < 286 ==> ls[i] == 0) && (forall i :: nd <= i < 30 ==> ds[i] == 0)
    ensures Header(ls[..nl], ds[..nd], cs, h, items) && |Bytes(items)| <= MAX_SIZES
    ensures Tight(ls[..nl], ds[..nd], cs, h, items)
    ensures w.Valid() && w.bits == old(w.bits) + LowBits(2, 2) + HeaderBits(ls[..nl], ds[..nd], cs, h, items)
  {
    hide BitWriter.Valid, Accepted, CodeTable, ItemsCoded, Unpacks, HeaderBits, Bytes, LowBits, Neat, Best, UsedSymbols.Used;
    nl := TrimLength(ls, 257, 286);
    nd := TrimLength(ds, 1, 30);
    var p := Pack(ls[..nl] + ds[..nd]);
    items := p.items;
    var codes, cs' := MetaTable(p);
    cs := cs';
    var h' := MetaLength(cs');
    h := h';
    PutHeader(w, ls[..nl], ds[..nd], codes, cs', h', p.packed[..p.num], items);
  }

  method PutHeader(w: BitWriter, ls: seq<nat>, ds: seq<nat>, codes: seq<nat>, cs: seq<nat>, h: nat, packed: seq<byte>,
                   ghost items: seq<Item>)
    requires w.Valid() && CodeTable(codes, cs) && |cs| == 19 && Header(ls, ds, cs, h, items) && packed == Bytes(items)
    modifies w, w.out
    ensures w.Valid() && w.bits == old(w.bits) + LowBits(2, 2) + HeaderBits(ls, ds, cs, h, items)
  {
    hide BitWriter.Valid, LowBits, Accepted, CodeTable, ItemsCoded, Unpacks, MetaBits, ItemsBits, Bytes, Pow2;
    ghost var start := w.bits;
    Pow2Values();
    w.PutBits(2, 2);
    w.PutBits(|ls| - 257, 5);
    w.PutBits(|ds| - 1, 5);
    w.PutBits(h - 4, 4);
    WriteMeta(w, cs, h);
    WriteItems(w, packed, codes, cs, items);
    JoinHeader(start, LowBits(2, 2), LowBits(|ls| - 257, 5), LowBits(|ds| - 1, 5), LowBits(h - 4, 4), MetaBits(cs, h),
               ItemsBits(items, cs));
  }

  // ---------------------------------------------------------------- its size

  const HEADER_BITS := 2311

  lemma ItemSize(x: Item, cs: seq<nat>)
    requires |cs| == 19 && Uses(cs, x.code) && cs[x.code] < 8 && ValidItem(x)
    ensures |ItemBits(x, cs)| <= 7 * |ItemBytes(x)|
  {
    hide LowBits, Stored;
  }

  lemma ItemKnown(items: seq<Item>, cs: seq<nat>, i: nat)
    requires ItemsCoded(items, cs) && i < |items|
    ensures |cs| == 19 && Uses(cs, items[i].code) && ValidItem(items[i])
  {
  }

  lemma {:induction false} ItemsSize(items: seq<Item>, cs: seq<nat>)
    requires ItemsCoded(items, cs) && forall i :: 0 <= i < 19 ==> cs[i] < 8
    ensures |ItemsBits(items, cs)| <= 7 * |Bytes(items)|
  {
    if items != [] {
      var n := |items| - 1;
      ItemsUpTo(items, n, cs);
      assert items[..n + 1] == items;
      ItemKnown(items, cs, n);
      ItemSize(items[n], cs);
      hide ItemBits, ItemsBits, ItemBytes;
      ItemsSize(items[..n], cs);
    }
  }

  /** A code length takes at most seven bits for each byte of its packed form. */
  lemma HeaderFits(ls: seq<nat>, ds: seq<nat>, cs: seq<nat>, h: nat, items: seq<Item>)
    requires Header(ls, ds, cs, h, items) && |Bytes(items)| <= MAX_SIZES
    ensures |HeaderBits(ls, ds, cs, h, items)| <= HEADER_BITS
  {
    hide ItemsBits, Bytes, ItemsCoded, Accepted, MetaBits, LowBits, Unpacks;
    ItemsSize(items, cs);
  }

  lemma JoinHeader(s: seq<bool>, a: seq<bool>, b: seq<bool>, c: seq<bool>, d: seq<bool>, e: seq<bool>, f: seq<bool>)
    ensures (((((s + a) + b) + c) + d) + e) + f == s + a + (b + c + d + e + f)
  {
  }
}
