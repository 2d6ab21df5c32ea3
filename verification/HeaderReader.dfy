/** Reading a dynamic block's header (tinfl_decompress, lines 1498 to 1553). */
module HeaderReader {
  import opened Bits
  import opened Canonical
  import opened InflateTable
  import opened InflateBuild
  import opened BitIO
  import opened Tokens
  import opened SizePacking
  import opened BlockHeader

  const MAX_LENS := 457  // TINFL_MAX_HUFF_SYMBOLS_0 + TINFL_MAX_HUFF_SYMBOLS_1 + 137

  /** s_length_dezigzag */
  const DEZIGZAG: seq<nat> := [16, 17, 18, 0, 8, 7, 9, 6, 10, 5, 11, 4, 12, 3, 13, 2, 14, 1, 15]

  lemma DecoderOrder(i: nat)
    requires i < 19
    ensures |DEZIGZAG| == 19 && DEZIGZAG[i] == CodeSent(i)
  {
    assert i == 0 || i == 1 || i == 2 || i == 3 || i == 4 || i == 5 || i == 6 || i == 7 || i == 8 || i == 9
           || i == 10 || i == 11 || i == 12 || i == 13 || i == 14 || i == 15 || i == 16 || i == 17 || i == 18;
  }

  /** A field of n bits. */
  method Field(r: BitReader, n: nat, ghost v: nat, ghost more: seq<bool>) returns (b: nat)
    requires r.Valid() && n <= 16 && v < Pow2(n) && r.Rest() == LowBits(v, n) + more
    modifies r
    ensures r.Valid() && b == v && r.Rest() == more
  {
    hide LowBits, Pow2;
    b := r.GetBits(n);
    SameField(b, v, n);
  }

  lemma SameField(b: nat, v: nat, n: nat)
    requires b < Pow2(n) && v < Pow2(n) && LowBits(b, n) == LowBits(v, n)
    ensures b == v
  {
    SameLow(b, v, n);
    LowOfSmall(b, n);
    LowOfSmall(v, n);
  }

  lemma {:induction false} MetaAt(cs: seq<nat>, h: nat, i: nat)
    requires |cs| == 19 && i < h <= 19
    ensures MetaBits(cs, h)[3 * i..] == LowBits(cs[CodeSent(i)], 3) + MetaBits(cs, h)[3 * i + 3..]
    decreases h
  {
    hide LowBits, CodeSent;
    if i < h - 1 { MetaAt(cs, h - 1, i); }
  }

  /** The first four places are those of 16, 17, 18 and 0; then those of 8 + j and of 7 - j take turns. */
  lemma MetaInOrder(cs: seq<nat>, h: nat, i: nat)
    requires |cs| == 19 && i < h <= 19
    ensures MetaBits(cs, h)[3 * i..3 * i + 3]
         == LowBits(cs[if i < 4 then [16, 17, 18, 0][i] else if i % 2 == 0 then 8 + (i - 4) / 2 else 7 - (i - 5) / 2], 3)
  {
    hide LowBits;
    MetaAt(cs, h, i);
    var all, a := MetaBits(cs, h), LowBits(cs[CodeSent(i)], 3);
    assert all[3 * i..3 * i + 3] == all[3 * i..][..3] == a;
  }

  /** The code-length code lengths, each to its place; those not sent stay zero. */
  method ReadMeta(r: BitReader, h: nat, ghost cs: seq<nat>, ghost more: seq<bool>) returns (sizes: array<nat>)
    requires r.Valid() && |cs| == 19 && h <= 19 && (forall i :: 0 <= i < 19 ==> cs[i] < 8)
    requires forall i :: h <= i < 19 ==> cs[CodeSent(i)] == 0
    requires r.Rest() == MetaBits(cs, h) + more
    modifies r
    ensures r.Valid() && r.Rest() == more && fresh(sizes) && sizes[..] == cs
  {
    hide LowBits, DEZIGZAG, CodeSent, SentAt, MetaBits;
    sizes := new nat[19](_ => 0);
    var i := 0;
    ghost var all := MetaBits(cs, h);
    assert all[0..] == all;
    while i < h
      invariant 0 <= i <= h && r.Valid() && r.Rest() == all[3 * i..] + more
      invariant forall k :: 0 <= k < i ==> sizes[CodeSent(k)] == cs[CodeSent(k)]
      invariant forall k :: i <= k < 19 ==> sizes[CodeSent(k)] == 0
    {
      MetaAt(cs, h, i);
      Pow2Values();
      assert r.Rest() == LowBits(cs[CodeSent(i)], 3) + (all[3 * i + 3..] + more);
      var s := Field(r, 3, cs[CodeSent(i)], all[3 * i + 3..] + more);
      DecoderOrder(i);
      sizes[DEZIGZAG[i]] := s;
      forall k: nat | k < 19 && k != i ensures CodeSent(k) != CodeSent(i) { SentOnce(if k < i then k else i, if k < i then i else k); }
      i := i + 1;
    }
    forall c: nat | c < 19
      ensures sizes[c] == cs[c]
    {
      assert sizes[CodeSent(SentAt(c))] == cs[CodeSent(SentAt(c))];
    }
  }

  // ---------------------------------------------------------------- the lengths themselves

  lemma {:induction false} UnpacksGrows(from: seq<nat>, items: seq<Item>, to: seq<nat>)
    requires Unpacks(from, items, to)
    ensures from <= to && (items != [] ==> |from| < |to|)
    decreases |items|
  {
    hide Repeat;
    if items != [] { UnpacksGrows(from + Adds(from, items[0]), items[1..], to); }
  }

  /** The stream still to come: items, then whatever follows. */
  ghost predicate ItemStream(rest: seq<bool>, us: seq<Item>, cs: seq<nat>, tail: seq<bool>) {
    ItemsCoded(us, cs) && rest == ItemsBits(us, cs) + tail
  }

  lemma ItemHead(rest: seq<bool>, us: seq<Item>, cs: seq<nat>, tail: seq<bool>)
    requires ItemStream(rest, us, cs, tail) && us != []
    ensures |cs| == 19 && ValidItem(us[0]) && Uses(cs, us[0].code)
    ensures ItemsCoded(us[1..], cs)
    ensures var x := us[0];
            var more := LowBits(x.extra, ExtraBits(x.code)) + (ItemsBits(us[1..], cs) + tail);
            rest == SymBits(cs, x.code) + more
  {
    hide LowBits, SymBits, ValidItem, ExtraBits;
    var x := us[0];
    var a, b, c := SymBits(cs, x.code), LowBits(x.extra, ExtraBits(x.code)), ItemsBits(us[1..], cs);
    assert ((a + b) + c) + tail == a + (b + (c + tail));
  }

  /** One item: a length, or a run. */
  method ReadItem(r: BitReader, t2: HuffTable, lens: array<nat>, counter0: nat, ghost us: seq<Item>, ghost cs: seq<nat>,
                  ghost all: seq<nat>, ghost tail: seq<bool>) returns (counter: nat)
    requires r.Valid() && t2.Shaped() && Sizes(cs) && Holds(t2.View(), cs, |cs|, |cs|)
    requires ItemStream(r.Rest(), us, cs, tail) && us != []
    requires counter0 <= lens.Length && |all| <= lens.Length && Unpacks(lens[..counter0], us, all)
    modifies r, lens
    ensures r.Valid() && ItemStream(r.Rest(), us[1..], cs, tail)
    ensures counter0 < counter <= |all| && Unpacks(lens[..counter], us[1..], all)
  {
    hide Holds, Stored, LowBits, ItemsBits, ItemsCoded, Pow2, Repeat, Uses;
    ItemHead(r.Rest(), us, cs, tail);
    ghost var x := us[0];
    UnpacksStep(lens[..counter0], us, all);
    CodeAtHead(r.Rest(), cs, x, ItemsBits(us[1..], cs) + tail);
    var dist := r.HuffDecode(t2, cs, x.code);
    if dist < 16 {
      NoExtra(x.extra, ItemsBits(us[1..], cs) + tail);
      lens[counter0] := dist;
      counter := counter0 + 1;
      assert lens[..counter] == old(lens[..counter0]) + [dist];
    } else {
      var s := Field(r, ExtraBits(dist), x.extra, ItemsBits(us[1..], cs) + tail);
      var v := if dist == 16 then lens[counter0 - 1] else 0;
      counter := FillRun(lens, counter0, v, s + RunBase(dist));
    }
  }

  lemma UnpacksStep(from: seq<nat>, us: seq<Item>, all: seq<nat>)
    requires Unpacks(from, us, all) && us != []
    ensures us[0].code == 16 ==> from != []
    ensures Unpacks(from + Adds(from, us[0]), us[1..], all)
    ensures |from| < |from + Adds(from, us[0])| <= |all|
  {
    UnpacksGrows(from + Adds(from, us[0]), us[1..], all);
  }

  lemma CodeAtHead(rest: seq<bool>, cs: seq<nat>, x: Item, more: seq<bool>)
    requires Sizes(cs) && Uses(cs, x.code) && rest == SymBits(cs, x.code) + (LowBits(x.extra, ExtraBits(x.code)) + more)
    ensures cs[x.code] <= 15 && LowBits(Stored(cs, x.code), cs[x.code]) <= rest
    ensures rest[cs[x.code]..] == LowBits(x.extra, ExtraBits(x.code)) + more
  {
    hide Stored;
  }

  lemma NoExtra(v: nat, more: seq<bool>)
    ensures LowBits(v, 0) + more == more
  {
  }

  /** memset over a run. */
  method FillRun(lens: array<nat>, from: nat, v: nat, n: nat) returns (to: nat)
    requires from + n <= lens.Length
    modifies lens
    ensures to == from + n && lens[..to] == old(lens[..from]) + Repeat(v, n)
  {
    var k := 0;
    while k < n
      invariant 0 <= k <= n && lens[..from + k] == old(lens[..from]) + Repeat(v, k)
    {
      lens[from + k] := v;
      assert lens[..from + k + 1] == lens[..from + k] + [v];
      k := k + 1;
    }
    to := from + n;
  }

  /** All lengths, until as many as both tables hold. */
  method ReadLengths(r: BitReader, t2: HuffTable, total: nat, ghost items: seq<Item>, ghost cs: seq<nat>, ghost all: seq<nat>,
                     ghost tail: seq<bool>) returns (lens: array<nat>)
    requires r.Valid() && t2.Shaped() && Sizes(cs) && Holds(t2.View(), cs, |cs|, |cs|)
    requires ItemStream(r.Rest(), items, cs, tail) && Unpacks([], items, all) && total == |all| <= MAX_SIZES
    modifies r
    ensures r.Valid() && r.Rest() == tail
    ensures fresh(lens) && lens.Length == MAX_LENS && lens[..total] == all
  {
    hide Holds, ItemStream, Unpacks;
    lens := new nat[MAX_LENS];
    var counter := 0;
    ghost var us := items;
    assert lens[..0] == [];
    LengthsLeft([], us, all);
    while counter < total
      invariant r.Valid() && t2.Shaped() && Holds(t2.View(), cs, |cs|, |cs|)
      invariant ItemStream(r.Rest(), us, cs, tail) && counter <= total && Unpacks(lens[..counter], us, all)
      invariant counter < total ==> us != []
      decreases total - counter
    {
      counter := ReadItem(r, t2, lens, counter, us, cs, all, tail);
      us := us[1..];
      LengthsLeft(lens[..counter], us, all);
    }
    LengthsEnd(r.Rest(), lens[..counter], us, cs, all, tail);
  }

  lemma LengthsLeft(from: seq<nat>, us: seq<Item>, all: seq<nat>)
    requires Unpacks(from, us, all)
    ensures |from| < |all| ==> us != []
  {
  }

  lemma LengthsEnd(rest: seq<bool>, from: seq<nat>, us: seq<Item>, cs: seq<nat>, all: seq<nat>, tail: seq<bool>)
    requires Unpacks(from, us, all) && |from| == |all| && ItemStream(rest, us, cs, tail)
    ensures from == all && rest == tail
  {
    UnpacksGrows(from, us, all);
  }

  lemma HeaderFields(ls: seq<nat>, ds: seq<nat>, cs: seq<nat>, h: nat, items: seq<Item>, tail: seq<bool>)
    requires Header(ls, ds, cs, h, items)
    ensures |cs| == 19 && Sizes(cs) && Accepted(cs) && ItemStream(ItemsBits(items, cs) + tail, items, cs, tail)
    ensures |ls| - 257 < Pow2(5) && |ds| - 1 < Pow2(5) && h - 4 < Pow2(4)
    ensures HeaderBits(ls, ds, cs, h, items) + tail
         == LowBits(|ls| - 257, 5) + (LowBits(|ds| - 1, 5) + (LowBits(h - 4, 4) + (MetaBits(cs, h) + (ItemsBits(items, cs) + tail))))
  {
    hide LowBits, MetaBits, ItemsBits, Accepted, Unpacks;
    Pow2Values();
    assert forall i :: 0 <= i < 19 ==> cs[i] < 8;
    SplitHeader(LowBits(|ls| - 257, 5), LowBits(|ds| - 1, 5), LowBits(h - 4, 4), MetaBits(cs, h), ItemsBits(items, cs), tail);
  }

  lemma SplitHeader(b: seq<bool>, c: seq<bool>, d: seq<bool>, e: seq<bool>, f: seq<bool>, g: seq<bool>)
    ensures (b + c + d + e + f) + g == b + (c + (d + (e + (f + g))))
  {
  }

  /** Reads the header: the two tables' sizes, and their lengths, one after the other. */
  method ReadHeader(r: BitReader, t2: HuffTable, ghost ls: seq<nat>, ghost ds: seq<nat>, ghost cs: seq<nat>, ghost h: nat,
                    ghost items: seq<Item>, ghost tail: seq<bool>) returns (nl: nat, nd: nat, lens: array<nat>)
    requires r.Valid() && t2.Shaped() && Header(ls, ds, cs, h, items)
    requires r.Rest() == HeaderBits(ls, ds, cs, h, items) + tail
    modifies r, t2, t2.lookup, t2.tree
    ensures r.Valid() && r.Rest() == tail && nl == |ls| && nd == |ds|
    ensures fresh(lens) && lens.Length == MAX_LENS && nl + nd <= MAX_SIZES && lens[..nl + nd] == ls + ds
  {
    hide LowBits, MetaBits, ItemsBits, Unpacks, ItemStream, Holds, HeaderBits, Accepted, Pow2, ItemsCoded;
    HeaderFields(ls, ds, cs, h, items, tail);
    ghost var rest := ItemsBits(items, cs) + tail;
    nl := Field(r, 5, |ls| - 257, LowBits(|ds| - 1, 5) + (LowBits(h - 4, 4) + (MetaBits(cs, h) + rest)));
    nl := nl + 257;
    nd := Field(r, 5, |ds| - 1, LowBits(h - 4, 4) + (MetaBits(cs, h) + rest));
    nd := nd + 1;
    var hl := Field(r, 4, h - 4, MetaBits(cs, h) + rest);
    var sizes := ReadMeta(r, hl + 4, cs, rest);
    var ok := t2.Build(sizes[..]);
    assert ok;
    lens := ReadLengths(r, t2, nl + nd, items, cs, ls + ds, tail);
  }
}
