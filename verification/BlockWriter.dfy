/** Writing one coded block: tdefl_start_static_block, tdefl_start_dynamic_block and
    tdefl_compress_block. */
module BlockWriter {
  import opened Bits
  import opened Symbols
  import opened Canonical
  import opened InflateTable
  import opened InflateBuild
  import opened EncoderTable
  import opened BitIO
  import opened Tokens
  import opened CodeBuffer
  import opened TokenCoding
  import opened BlockSize
  import opened SizePacking
  import opened BlockHeader
  import opened Blocks
  import UsedSymbols

  // ---------------------------------------------------------------- unused lengths at the end

  ghost predicate Trimmed(sizes: seq<nat>, n: nat) {
    n <= |sizes| && forall i :: n <= i < |sizes| ==> sizes[i] == 0
  }

  lemma {:induction false} CountPrefix(sizes: seq<nat>, n: nat, l: nat, k: nat)
    requires k <= n <= |sizes|
    ensures CountSize(sizes[..n], l, k) == CountSize(sizes, l, k)
  {
    if k > 0 { CountPrefix(sizes, n, l, k - 1); }
  }

  lemma {:induction false} CountTail(sizes: seq<nat>, n: nat, l: nat, k: nat)
    requires Trimmed(sizes, n) && n <= k <= |sizes| && l >= 1
    ensures CountSize(sizes, l, k) == CountSize(sizes, l, n)
  {
    if k > n { CountTail(sizes, n, l, k - 1); }
  }

  lemma NumTrimmed(sizes: seq<nat>, n: nat, l: nat)
    requires Trimmed(sizes, n) && l >= 1
    ensures Num(sizes[..n], l) == Num(sizes, l)
  {
    CountPrefix(sizes, n, l, n);
    CountTail(sizes, n, l, |sizes|);
  }

  lemma {:induction false} NextTrimmed(sizes: seq<nat>, n: nat, l: nat)
    requires Trimmed(sizes, n)
    ensures NextCode(sizes[..n], l) == NextCode(sizes, l)
  {
    if l > 1 {
      NextTrimmed(sizes, n, l - 1);
      NumTrimmed(sizes, n, l - 1);
    }
  }

  lemma {:induction false} UsedTrimmed(sizes: seq<nat>, n: nat, l: nat)
    requires Trimmed(sizes, n)
    ensures Canonical.Used(sizes[..n], l) == Canonical.Used(sizes, l)
  {
    if l > 0 {
      UsedTrimmed(sizes, n, l - 1);
      NumTrimmed(sizes, n, l);
    }
  }

  lemma AcceptedTrimmed(sizes: seq<nat>, n: nat)
    requires Trimmed(sizes, n) && Sizes(sizes)
    ensures Sizes(sizes[..n]) && (Accepted(sizes) ==> Accepted(sizes[..n]))
  {
    NextTrimmed(sizes, n, 16);
    UsedTrimmed(sizes, n, 15);
  }

  lemma CodeTrimmed(sizes: seq<nat>, n: nat, s: nat)
    requires Trimmed(sizes, n) && Uses(sizes, s)
    ensures Uses(sizes[..n], s) && SymBits(sizes[..n], s) == SymBits(sizes, s)
  {
    NextTrimmed(sizes, n, sizes[s]);
    CountPrefix(sizes, n, sizes[s], s);
  }

  lemma TokenTrimmed(t: Token, ls: seq<nat>, nl: nat, ds: seq<nat>, nd: nat)
    requires Trimmed(ls, nl) && Trimmed(ds, nd) && HasCodes(t, ls, ds)
    ensures HasCodes(t, ls[..nl], ds[..nd]) && TokenBits(t, ls[..nl], ds[..nd]) == TokenBits(t, ls, ds)
  {
    hide SymBits, LowBits, Low;
    if t.Literal? {
      CodeTrimmed(ls, nl, t.lit);
    } else {
      CodeTrimmed(ls, nl, LenSym(t.len - MIN_MATCH));
      CodeTrimmed(ds, nd, DistSym(t.dist - 1));
    }
  }

  lemma {:induction false} TokensTrimmed(ts: seq<Token>, ls: seq<nat>, nl: nat, ds: seq<nat>, nd: nat)
    requires Trimmed(ls, nl) && Trimmed(ds, nd) && AllHaveCodes(ts, ls, ds)
    ensures AllHaveCodes(ts, ls[..nl], ds[..nd]) && TokensBits(ts, ls[..nl], ds[..nd]) == TokensBits(ts, ls, ds)
  {
    hide HasCodes, TokenBits;
    if ts != [] {
      TokenTrimmed(ts[0], ls, nl, ds, nd);
      TokensTrimmed(ts[1..], ls, nl, ds, nd);
      forall i | 0 <= i < |ts|
        ensures HasCodes(ts[i], ls[..nl], ds[..nd])
      {
        if i > 0 { assert ts[i] == ts[1..][i - 1]; }
      }
    }
  }

  // ---------------------------------------------------------------- every token gets its codes

  lemma {:induction false} LitUsed(ts: seq<Token>, i: nat)
    requires AllValid(ts) && i < |ts|
    ensures LitUses(ts, LitSym(ts[i])) >= 1
    ensures ts[i].Match? ==> DistUses(ts, DistSym(ts[i].dist - 1)) >= 1
  {
    if i < |ts| - 1 { LitUsed(ts[..|ts| - 1], i); }
  }

  /** Counts of the symbols of ts, and one end-of-block. */
  lemma CountedHaveCodes(lits: seq<u16>, dists: seq<u16>, ts: seq<Token>, ls: seq<nat>, ds: seq<nat>)
    requires CountsOf(lits, dists, ts) && Suits(ls, lits, 15) && Suits(ds, dists, 15)
    ensures AllHaveCodes(ts, ls, ds) && Uses(ls, END_OF_BLOCK)
    ensures Trimmed(ls, 286) && Trimmed(ds, 30)
  {
    hide LenSym, DistSym;
    forall i | 0 <= i < |ts|
      ensures HasCodes(ts[i], ls, ds)
    {
      LitUsed(ts, i);
      assert ValidToken(ts[i]);
    }
    forall s | 286 <= s < 288
      ensures LitUses(ts, s) == 0
    {
      NoLitUses(ts, s);
    }
    forall s | 30 <= s < 32
      ensures DistUses(ts, s) == 0
    {
      NoDistUses(ts, s);
    }
  }

  lemma {:induction false} NoDistUses(ts: seq<Token>, s: nat)
    requires AllValid(ts) && s >= 30
    ensures DistUses(ts, s) == 0
  {
    if ts != [] { NoDistUses(ts[..|ts| - 1], s); }
  }

  // ---------------------------------------------------------------- the block's bits

  method CountStatic(sizes: seq<nat>) returns (counts: array<int>)
    requires Sizes(sizes)
    ensures fresh(counts) && counts.Length == 33
    ensures forall l :: 1 <= l <= 15 ==> counts[l] == Num(sizes, l)
  {
    counts := new int[33](_ => 0);
    var i := 0;
    while i < |sizes|
      invariant 0 <= i <= |sizes|
      invariant forall l :: 0 <= l <= 15 ==> counts[l] == CountSize(sizes, l, i)
    {
      counts[sizes[i]] := counts[sizes[i]] + 1;
      i := i + 1;
    }
  }

  lemma FixedTables(ts: seq<Token>)
    requires AllValid(ts)
    ensures Sizes(FixedLits()) && Sizes(FixedDists()) && Good(Fixed(ts))
    ensures AllHaveCodes(ts, FixedLits(), FixedDists()) && Uses(FixedLits(), END_OF_BLOCK)
  {
    hide LenSym, DistSym, FixedLits, FixedDists;
    forall i | 0 <= i < |ts|
      ensures HasCodes(ts[i], FixedLits(), FixedDists())
    {
      assert ValidToken(ts[i]);
    }
  }

  lemma FixedBits(ts: seq<Token>, start: seq<bool>)
    requires Good(Fixed(ts))
    ensures AllHaveCodes(ts, FixedLits(), FixedDists()) && Uses(FixedLits(), END_OF_BLOCK)
    ensures start + LowBits(1, 2) + TokensBits(ts, FixedLits(), FixedDists()) + SymBits(FixedLits(), END_OF_BLOCK)
         == start + (LowBits(1, 2) + BodyBits(Fixed(ts), 0))
  {
    hide FixedLits, FixedDists, TokensBits, SymBits, LowBits, AllHaveCodes;
    FixedEnd();
    Regroup(start, LowBits(1, 2), TokensBits(ts, FixedLits(), FixedDists()), SymBits(FixedLits(), END_OF_BLOCK));
  }

  lemma Regroup(s: seq<bool>, a: seq<bool>, b: seq<bool>, c: seq<bool>)
    ensures s + a + b + c == s + (a + (b + c))
  {
  }

  /** tdefl_compress_block with the fixed codes. */
  method CompressStatic(w: BitWriter, bytes: seq<byte>, ghost ts: seq<Token>) returns (ok: bool)
    requires w.Valid() && AllValid(ts) && bytes == Packed(ts)
    modifies w, w.out
    ensures w.Valid() && Good(Fixed(ts)) && w.bits == old(w.bits) + (LowBits(1, 2) + BodyBits(Fixed(ts), 0))
    ensures ok <==> w.pos < w.limit
  {
    hide BitWriter.Valid, FixedLits, FixedDists, TokensBits, SymBits, LowBits, AllHaveCodes, Sizes, CodeTable, Pow2, Good,
         AllValid, Packed;
    FixedTables(ts);
    FixedBits(ts, w.bits);
    var ls, ds := FixedLits(), FixedDists();
    var nl := CountStatic(ls);
    SizesSmall(ls);
    var lc := AssignCodes(nl, 15, ls);
    var nd := CountStatic(ds);
    SizesSmall(ds);
    var dc := AssignCodes(nd, 15, ds);
    Pow2Values();
    w.PutBits(1, 2);
    ok := CompressLzCodes(bytes, lc, ls, dc, ds, w, ts);
  }

  lemma SizesSmall(sizes: seq<nat>)
    requires Sizes(sizes)
    ensures forall s :: 0 <= s < |sizes| ==> sizes[s] <= 15
  {
  }

  /** The tables of a dynamic block: the counts' own codes. */
  method DynamicTables(lits: seq<u16>, dists: seq<u16>, ghost ts: seq<Token>)
    returns (lc: seq<nat>, ls: seq<nat>, dc: seq<nat>, ds: seq<nat>)
    requires CountsOf(lits, dists, ts) && |ts| < 65535
    ensures CodeTable(lc, ls) && CodeTable(dc, ds) && |ls| == 288 && |ds| == 32 && Accepted(ls) && Accepted(ds)
    ensures AllHaveCodes(ts, ls, ds) && Uses(ls, END_OF_BLOCK) && Trimmed(ls, 286) && Trimmed(ds, 30)
    ensures NearlyBest(lits, ls) && NearlyBest(dists, ds)
  {
    hide UsedSymbols.Used, UsedSymbols.KeySum, CodeTable, Accepted, Suits, Pow2, NearlyBest;
    CountsAreSmall(lits, dists, ts);
    FifteenBits();
    lc, ls := Optimize(lits, 15);
    dc, ds := Optimize(dists, 15);
    SuitsLength(ls, lits, 15);
    SuitsLength(ds, dists, 15);
    CountedHaveCodes(lits, dists, ts, ls, ds);
  }

  lemma SuitsLength(sizes: seq<nat>, counts: seq<u16>, limit: nat)
    requires Suits(sizes, counts, limit)
    ensures |sizes| == |counts|
  {
  }

  lemma FifteenBits()
    ensures Pow2(15) == 32768
  {
    Pow2Values();
  }

  lemma TrimMore(sizes: seq<nat>, n: nat, m: nat)
    requires Trimmed(sizes, m) && n <= m && forall i :: n <= i < m ==> sizes[i] == 0
    ensures Trimmed(sizes, n)
  {
  }

  lemma DynamicBits(ts: seq<Token>, ls: seq<nat>, nl: nat, ds: seq<nat>, nd: nat, cs: seq<nat>, h: nat, items: seq<Item>,
                    start: seq<bool>) returns (b: Block)
    requires AllHaveCodes(ts, ls, ds) && Uses(ls, END_OF_BLOCK) && Trimmed(ls, nl) && Trimmed(ds, nd)
    requires nl <= |ls| && nd <= |ds|
    requires Sizes(ls) && Sizes(ds) && Accepted(ls) && Accepted(ds) && Header(ls[..nl], ds[..nd], cs, h, items)
    ensures b == Dynamic(ts, ls[..nl], ds[..nd], cs, h, items) && Good(b)
    ensures start + LowBits(2, 2) + HeaderBits(ls[..nl], ds[..nd], cs, h, items)
            + TokensBits(ts, ls, ds) + SymBits(ls, END_OF_BLOCK)
         == start + (LowBits(2, 2) + BodyBits(b, 0))
  {
    hide TokensBits, SymBits, LowBits, AllHaveCodes, Accepted, Header, HeaderBits, Trimmed, Sizes, Uses;
    b := Dynamic(ts, ls[..nl], ds[..nd], cs, h, items);
    TokensTrimmed(ts, ls, nl, ds, nd);
    AcceptedTrimmed(ls, nl);
    AcceptedTrimmed(ds, nd);
    CodeTrimmed(ls, nl, END_OF_BLOCK);
    DynamicBody(b);
    Regroup5(start, LowBits(2, 2), HeaderBits(b.ls, b.ds, cs, h, items), TokensBits(ts, ls, ds), SymBits(ls, END_OF_BLOCK));
  }

  lemma DynamicBody(b: Block)
    requires Good(b) && b.Dynamic?
    ensures Header(b.ls, b.ds, b.cs, b.h, b.items) && AllHaveCodes(b.toks, b.ls, b.ds) && Uses(b.ls, END_OF_BLOCK)
    ensures BodyBits(b, 0) == HeaderBits(b.ls, b.ds, b.cs, b.h, b.items)
                              + (TokensBits(b.toks, b.ls, b.ds) + SymBits(b.ls, END_OF_BLOCK))
  {
    hide TokensBits, SymBits, HeaderBits, AllHaveCodes, Accepted, Header;
  }

  lemma Regroup5(s: seq<bool>, a: seq<bool>, b: seq<bool>, c: seq<bool>, d: seq<bool>)
    ensures s + a + b + c + d == s + (a + (b + (c + d)))
  {
  }

  /** tdefl_compress_block with the tokens' own codes; the end-of-block symbol is counted first. */
  /** The lengths of all symbols, with the unused ones at the end again. */
  function Filled(sizes: seq<nat>, n: nat): (all: seq<nat>)
    requires |sizes| <= n
  {
    sizes + Repeat(0, n - |sizes|)
  }

  /** A block's own codes: of its symbols, no prefix code would save more than a bit a use; and its header is tight. */
  ghost predicate WellChosen(b: Block) {
    b.Dynamic? && Header(b.ls, b.ds, b.cs, b.h, b.items) ==>
      && Tight(b.ls, b.ds, b.cs, b.h, b.items)
      && forall lits, dists :: CountsOf(lits, dists, b.toks) ==> NearlyBest(lits, Filled(b.ls, 288)) && NearlyBest(dists, Filled(b.ds, 32))
  }

  lemma NoOwnCodes(b: Block)
    requires !b.Dynamic?
    ensures WellChosen(b)
  {
  }

  lemma FilledIs(sizes: seq<nat>, n: nat)
    requires Trimmed(sizes, n)
    ensures Filled(sizes[..n], |sizes|) == sizes
  {
  }

  /** The counts of tokens are what they are. */
  lemma SameCounts(lits: seq<u16>, dists: seq<u16>, lits': seq<u16>, dists': seq<u16>, ts: seq<Token>)
    requires CountsOf(lits, dists, ts) && CountsOf(lits', dists', ts)
    ensures lits == lits' && dists == dists'
  {
    hide LitUses, DistUses, AllValid;
  }

  lemma ChosenWell(b: Block, ls: seq<nat>, ds: seq<nat>, lits: seq<u16>, dists: seq<u16>)
    requires b.Dynamic? && Header(b.ls, b.ds, b.cs, b.h, b.items) && Tight(b.ls, b.ds, b.cs, b.h, b.items)
    requires |ls| == 288 && |ds| == 32 && |b.ls| <= 288 && |b.ds| <= 32 && Trimmed(ls, |b.ls|) && Trimmed(ds, |b.ds|)
    requires b.ls == ls[..|b.ls|] && b.ds == ds[..|b.ds|]
    requires CountsOf(lits, dists, b.toks) && NearlyBest(lits, ls) && NearlyBest(dists, ds)
    ensures WellChosen(b)
  {
    hide Header, Tight, NearlyBest, CountsOf;
    FilledIs(ls, |b.ls|);
    FilledIs(ds, |b.ds|);
    forall lits', dists' | CountsOf(lits', dists', b.toks)
      ensures NearlyBest(lits', Filled(b.ls, 288)) && NearlyBest(dists', Filled(b.ds, 32))
    {
      SameCounts(lits, dists, lits', dists', b.toks);
    }
  }

  method CompressDynamic(w: BitWriter, bytes: seq<byte>, litCount: array<u16>, distCount: array<u16>, ghost ts: seq<Token>)
    returns (ok: bool, ghost b: Block)
    requires w.Valid() && AllValid(ts) && bytes == Packed(ts) && |bytes| <= CODE_BUF_SIZE && |ts| < 65535
    requires litCount.Length == 288 && distCount.Length == 32 && litCount != distCount
    requires forall s :: 0 <= s < 288 && s != END_OF_BLOCK ==> litCount[s] == LitUses(ts, s)
    requires forall s :: 0 <= s < 32 ==> distCount[s] == DistUses(ts, s)
    modifies w, w.out, litCount
    ensures w.Valid() && b.Dynamic? && b.toks == ts && Good(b) && WellChosen(b)
    ensures w.bits == old(w.bits) + (LowBits(2, 2) + BodyBits(b, 0))
    ensures |w.bits| <= |old(w.bits)| + 2 + HEADER_BITS + SYMBOL_BITS
    ensures ok <==> w.pos < w.limit
  {
    hide NearlyBest, BitWriter.Valid, TokensBits, SymBits, LowBits, AllHaveCodes, Accepted, CodeTable, Header, HeaderBits, Good, AllValid,
         Packed, LitUses, DistUses, Trimmed, Uses, Tight, WellChosen;
    litCount[END_OF_BLOCK] := 1;
    var lc, ls, dc, ds := DynamicTables(litCount[..], distCount[..], ts);
    TableSizes(lc, ls);
    TableSizes(dc, ds);
    SymbolsFit(litCount[..], distCount[..], ts, ls, ds);
    ghost var start := w.bits;
    var nl, nd;
    ghost var cs, h, items;
    nl, nd, cs, h, items := WriteHeader(w, ls, ds);
    HeaderFits(ls[..nl], ds[..nd], cs, h, items);
    TrimMore(ls, nl, 286);
    TrimMore(ds, nd, 30);
    b := DynamicBits(ts, ls, nl, ds, nd, cs, h, items, start);
    ChosenWell(b, ls, ds, litCount[..], distCount[..]);
    ok := CompressLzCodes(bytes, lc, ls, dc, ds, w, ts);
  }

  lemma TableSizes(codes: seq<nat>, sizes: seq<nat>)
    requires CodeTable(codes, sizes)
    ensures Sizes(sizes)
  {
  }
}
