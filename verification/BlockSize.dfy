/** How many bits a coded block takes, and that none takes more than the output buffer holds: with the
    fixed codes or with its own. */
module BlockSize {
  import opened Bits
  import opened Symbols
  import opened Tokens
  import opened CodeBuffer
  import opened Canonical
  import opened InflateTable
  import opened EncoderTable
  import UsedSymbols

  ghost predicate CountsOf(lits: seq<u16>, dists: seq<u16>, ts: seq<Token>) {
    && |lits| == 288 && |dists| == 32 && AllValid(ts)
    && (forall s :: 0 <= s < 288 ==> lits[s] == if s == END_OF_BLOCK then 1 else LitUses(ts, s))
    && (forall s :: 0 <= s < 32 ==> dists[s] == DistUses(ts, s))
  }

  lemma {:induction false} NoLitUses(ts: seq<Token>, s: nat)
    requires AllValid(ts) && (s >= 286 || s == END_OF_BLOCK)
    ensures LitUses(ts, s) == 0
  {
    if ts != [] { NoLitUses(ts[..|ts| - 1], s); }
  }

  // ---------------------------------------------------------------- the bits of the symbols

  /** The bits of all literal and length symbols with lengths o. */
  function LitBits(ts: seq<Token>, o: seq<nat>): (n: nat)
    requires AllValid(ts)
  {
    if ts == [] then 0 else LitBits(ts[..|ts| - 1], o) + LenIn(o, LitSym(ts[|ts| - 1]))
  }

  function DistBits(ts: seq<Token>, o: seq<nat>): (n: nat)
    requires AllValid(ts)
  {
    if ts == [] then 0 else
      var t := ts[|ts| - 1];
      DistBits(ts[..|ts| - 1], o) + if t.Match? then LenIn(o, DistSym(t.dist - 1)) else 0
  }

  function ExtraBitsOf(ts: seq<Token>): (n: nat)
    requires AllValid(ts)
  {
    if ts == [] then 0 else
      var t := ts[|ts| - 1];
      ExtraBitsOf(ts[..|ts| - 1]) + if t.Match? then LenExtra(t.len - MIN_MATCH) + DistExtra(t.dist - 1) else 0
  }

  lemma TokenSize(t: Token, ls: seq<nat>, ds: seq<nat>)
    requires HasCodes(t, ls, ds)
    ensures |TokenBits(t, ls, ds)| == LenIn(ls, LitSym(t))
                                      + if t.Match? then LenIn(ds, DistSym(t.dist - 1)) + LenExtra(t.len - MIN_MATCH) + DistExtra(t.dist - 1)
                                        else 0
  {
    hide LowBits, Low, LenSym, DistSym, LenExtra, DistExtra;
  }

  lemma {:induction false} TokensSize(ts: seq<Token>, ls: seq<nat>, ds: seq<nat>)
    requires AllValid(ts) && AllHaveCodes(ts, ls, ds)
    ensures |TokensBits(ts, ls, ds)| == LitBits(ts, ls) + DistBits(ts, ds) + ExtraBitsOf(ts)
  {
    hide LenSym, DistSym, TokenBits, LenExtra, DistExtra, HasCodes, ValidToken;
    if ts != [] {
      var n := |ts| - 1;
      TokensSize(ts[..n], ls, ds);
      TokensBitsSplit(ts, n, ls, ds);
      assert ts[n..] == [ts[n]] && [ts[n]][1..] == [];
      TokenSize(ts[n], ls, ds);
    }
  }

  // ---------------------------------------------------------------- the same by counts

  function LitWeight(ts: seq<Token>, o: seq<nat>, n: nat): (w: nat)
    requires AllValid(ts)
  {
    if n == 0 then 0 else LitWeight(ts, o, n - 1) + LitUses(ts, n - 1) * LenIn(o, n - 1)
  }

  function DistWeight(ts: seq<Token>, o: seq<nat>, n: nat): (w: nat)
    requires AllValid(ts)
  {
    if n == 0 then 0 else DistWeight(ts, o, n - 1) + DistUses(ts, n - 1) * LenIn(o, n - 1)
  }

  lemma OneMoreUse(n: nat, l: nat)
    ensures (n + 1) * l == n * l + l
  {
  }

  lemma {:induction false} LitWeightLast(ts: seq<Token>, o: seq<nat>, n: nat)
    requires AllValid(ts) && ts != []
    ensures LitWeight(ts, o, n) == LitWeight(ts[..|ts| - 1], o, n)
                                   + if LitSym(ts[|ts| - 1]) < n then LenIn(o, LitSym(ts[|ts| - 1])) else 0
  {
    hide LenSym, LenIn;
    if n > 0 {
      LitWeightLast(ts, o, n - 1);
      OneMoreUse(LitUses(ts[..|ts| - 1], n - 1), LenIn(o, n - 1));
    }
  }

  lemma {:induction false} DistWeightLast(ts: seq<Token>, o: seq<nat>, n: nat)
    requires AllValid(ts) && ts != []
    ensures var t := ts[|ts| - 1];
            DistWeight(ts, o, n) == DistWeight(ts[..|ts| - 1], o, n)
                                    + if t.Match? && DistSym(t.dist - 1) < n then LenIn(o, DistSym(t.dist - 1)) else 0
  {
    hide DistSym, LenIn;
    if n > 0 {
      DistWeightLast(ts, o, n - 1);
      OneMoreUse(DistUses(ts[..|ts| - 1], n - 1), LenIn(o, n - 1));
    }
  }

  lemma {:induction false} NoWeight(o: seq<nat>, n: nat)
    ensures LitWeight([], o, n) == 0 && DistWeight([], o, n) == 0
  {
    if n > 0 { NoWeight(o, n - 1); }
  }

  lemma {:induction false} WeightsAreBits(ts: seq<Token>, o: seq<nat>)
    requires AllValid(ts)
    ensures LitWeight(ts, o, 288) == LitBits(ts, o) && DistWeight(ts, o, 32) == DistBits(ts, o)
  {
    hide LitWeight, DistWeight, LenIn;
    if ts == [] {
      NoWeight(o, 288);
      NoWeight(o, 32);
    } else {
      WeightsAreBits(ts[..|ts| - 1], o);
      LitWeightLast(ts, o, 288);
      DistWeightLast(ts, o, 32);
      SymbolsInRange(ts[|ts| - 1]);
    }
  }

  lemma SymbolsInRange(t: Token)
    requires ValidToken(t)
    ensures LitSym(t) < 288 && (t.Match? ==> DistSym(t.dist - 1) < 32)
  {
  }

  lemma {:induction false} LitSumIs(lits: seq<u16>, dists: seq<u16>, ts: seq<Token>, o: seq<nat>, n: nat)
    requires CountsOf(lits, dists, ts) && n <= 288
    ensures UsedSymbols.SumOver(lits, UseCost(o), n) == LitWeight(ts, o, n) + if n > END_OF_BLOCK then LenIn(o, END_OF_BLOCK) else 0
  {
    hide LenSym, LenIn;
    if n > 0 {
      LitSumIs(lits, dists, ts, o, n - 1);
      if n - 1 == END_OF_BLOCK { NoLitUses(ts, END_OF_BLOCK); }
    }
  }

  lemma {:induction false} DistSumIs(lits: seq<u16>, dists: seq<u16>, ts: seq<Token>, o: seq<nat>, n: nat)
    requires CountsOf(lits, dists, ts) && n <= 32
    ensures UsedSymbols.SumOver(dists, UseCost(o), n) == DistWeight(ts, o, n)
  {
    hide DistSym, LenIn;
    if n > 0 { DistSumIs(lits, dists, ts, o, n - 1); }
  }

  /** The bits of a block's symbols are the cost of its counts. */
  lemma BitsAreCost(lits: seq<u16>, dists: seq<u16>, ts: seq<Token>, ls: seq<nat>, ds: seq<nat>)
    requires CountsOf(lits, dists, ts)
    ensures UsedSymbols.SumOver(lits, UseCost(ls), 288) == LitBits(ts, ls) + LenIn(ls, END_OF_BLOCK)
    ensures UsedSymbols.SumOver(dists, UseCost(ds), 32) == DistBits(ts, ds)
  {
    hide LitWeight, DistWeight, LenIn, UsedSymbols.SumOver, UseCost, CountsOf;
    CountsValid(lits, dists, ts);
    LitSumIs(lits, dists, ts, ls, 288);
    DistSumIs(lits, dists, ts, ds, 32);
    WeightsAreBits(ts, ls);
    WeightsAreBits(ts, ds);
  }

  lemma CountsValid(lits: seq<u16>, dists: seq<u16>, ts: seq<Token>)
    requires CountsOf(lits, dists, ts)
    ensures |lits| == 288 && |dists| == 32 && AllValid(ts)
  {
  }

  // ---------------------------------------------------------------- how large the counts are

  function LitSum(ts: seq<Token>, n: nat): (t: nat)
    requires AllValid(ts)
  {
    if n == 0 then 0 else LitSum(ts, n - 1) + LitUses(ts, n - 1)
  }

  function DistSum(ts: seq<Token>, n: nat): (t: nat)
    requires AllValid(ts)
  {
    if n == 0 then 0 else DistSum(ts, n - 1) + DistUses(ts, n - 1)
  }

  lemma {:induction false} SumsLast(ts: seq<Token>, n: nat)
    requires AllValid(ts) && ts != []
    ensures LitSum(ts, n) <= LitSum(ts[..|ts| - 1], n) + 1
    ensures n <= LitSym(ts[|ts| - 1]) ==> LitSum(ts, n) == LitSum(ts[..|ts| - 1], n)
    ensures DistSum(ts, n) <= DistSum(ts[..|ts| - 1], n) + 1
    ensures ts[|ts| - 1].Match? && n <= DistSym(ts[|ts| - 1].dist - 1) ==> DistSum(ts, n) == DistSum(ts[..|ts| - 1], n)
  {
    if n > 0 { SumsLast(ts, n - 1); }
  }

  lemma {:induction false} SumsNone(n: nat)
    ensures LitSum([], n) == 0 && DistSum([], n) == 0
  {
    if n > 0 { SumsNone(n - 1); }
  }

  lemma {:induction false} SumsBound(ts: seq<Token>, n: nat)
    requires AllValid(ts)
    ensures LitSum(ts, n) <= |ts| && DistSum(ts, n) <= |ts|
  {
    if ts == [] { SumsNone(n); } else {
      SumsLast(ts, n);
      SumsBound(ts[..|ts| - 1], n);
    }
  }

  lemma {:induction false} TotalsAre(lits: seq<u16>, dists: seq<u16>, ts: seq<Token>, n: nat)
    requires CountsOf(lits, dists, ts)
    ensures n <= 288 ==> UsedSymbols.Total(lits, n) <= LitSum(ts, n) + 1
    ensures n <= END_OF_BLOCK ==> UsedSymbols.Total(lits, n) <= LitSum(ts, n)
    ensures n <= 32 ==> UsedSymbols.Total(dists, n) == DistSum(ts, n)
  {
    hide LenSym, DistSym;
    if 0 < n <= 288 { TotalsAre(lits, dists, ts, n - 1); }
  }

  /** So few tokens fit the buffer that no 16-bit sum of counts can wrap. */
  lemma CountsAreSmall(lits: seq<u16>, dists: seq<u16>, ts: seq<Token>)
    requires CountsOf(lits, dists, ts) && |ts| < 65535
    ensures UsedSymbols.KeySum(UsedSymbols.Used(lits, |lits|)) < 65536
    ensures UsedSymbols.KeySum(UsedSymbols.Used(dists, |dists|)) < 65536
  {
    UsedSymbols.KeySumIsTotal(lits, 288);
    UsedSymbols.KeySumIsTotal(dists, 32);
    TotalsAre(lits, dists, ts, 288);
    TotalsAre(lits, dists, ts, 32);
    SumsBound(ts, 288);
    SumsBound(ts, 32);
  }

  // ---------------------------------------------------------------- codes of one length

  /** Nine bits for a literal, six for anything else. */
  function PlainLits(): (o: seq<nat>)
    ensures |o| == 288 && forall s :: 0 <= s < 288 ==> o[s] == if s < 256 then 9 else 6
  {
    seq(288, s => if s < 256 then 9 else 6)
  }

  function PlainDists(): (o: seq<nat>)
    ensures |o| == 32 && forall s :: 0 <= s < 32 ==> o[s] == 5
  {
    seq(32, s => 5)
  }

  lemma {:induction false} PlainSpace(counts: seq<u16>, o: seq<nat>, unit: nat, n: nat)
    requires n <= |counts| == |o|
    requires (o == PlainLits() && unit == 9) || (o == PlainDists() && unit == 5)
    ensures UsedSymbols.SumOver(counts, UseSpace(o, unit), n) <= n + if unit == 9 && n > 256 then 7 * (n - 256) else 0
  {
    if n > 0 {
      PlainSpace(counts, o, unit, n - 1);
      OneSpace(counts[n - 1], n - 1, o, unit);
    }
  }

  lemma OneSpace(key: u16, s: nat, o: seq<nat>, unit: nat)
    requires (o == PlainLits() && unit == 9 && s < 288) || (o == PlainDists() && unit == 5 && s < 32)
    ensures UseSpace(o, unit)(SymFreq(key, s)) == if unit == 9 && s >= 256 then 8 else 1
  {
    assert Pow2(0) == 1 && Pow2(1) == 2 && Pow2(2) == 4 && Pow2(3) == 8;
  }

  lemma PlainCodes(lits: seq<u16>, dists: seq<u16>)
    requires |lits| == 288 && |dists| == 32
    ensures CodesFor(lits, PlainLits(), 9) && CodesFor(dists, PlainDists(), 5)
  {
    hide UsedSymbols.SumOver, UseSpace, Pow2;
    PlainSpace(lits, PlainLits(), 9, 288);
    PlainSpace(dists, PlainDists(), 5, 32);
    Pow2Values();
  }

  function Matched(ts: seq<Token>): (n: nat)
    ensures n <= |ts|
  {
    if ts == [] then 0 else Matched(ts[..|ts| - 1]) + if ts[|ts| - 1].Match? then 1 else 0
  }

  lemma {:induction false} PlainBits(ts: seq<Token>)
    requires AllValid(ts)
    ensures LitBits(ts, PlainLits()) + 3 * Matched(ts) == 9 * |ts|
    ensures DistBits(ts, PlainDists()) == 5 * Matched(ts)
    ensures ExtraBitsOf(ts) <= 18 * Matched(ts)
  {
    hide LenSym, DistSym, LenExtra, DistExtra;
    if ts != [] {
      PlainBits(ts[..|ts| - 1]);
      SymbolsInRange(ts[|ts| - 1]);
      LiteralBelow(ts[|ts| - 1]);
    }
  }

  lemma LiteralBelow(t: Token)
    requires ValidToken(t)
    ensures LitSym(t) < 256 <==> t.Literal?
  {
  }

  // ---------------------------------------------------------------- the code buffer's size

  lemma {:induction false} PayloadsSize(ts: seq<Token>)
    requires AllValid(ts)
    ensures |Payloads(ts)| == |ts| + 2 * Matched(ts)
  {
    if ts != [] {
      var n := |ts| - 1;
      PayloadsSize(ts[..n]);
      PayloadsAppend(ts[..n], [ts[n]]);
      PayloadsOne(ts[n]);
      assert ts[..n] + [ts[n]] == ts;
    }
  }

  lemma GroupSizes(g: seq<Token>)
    requires AllValid(g) && |g| <= 8
    ensures |Group(g)| == 1 + |Payloads(g)|
  {
    hide FromBits, Payloads;
  }

  lemma {:induction false} PackedSize(ts: seq<Token>)
    requires AllValid(ts)
    ensures 8 * |Packed(ts)| >= 8 * |Payloads(ts)| + |ts|
  {
    hide Group, Payloads, ValidToken;
    if 0 < |ts| <= 8 {
      GroupSizes(ts);
    } else if |ts| > 8 {
      PackedSize(ts[8..]);
      PayloadsAppend(ts[..8], ts[8..]);
      GroupSizes(ts[..8]);
      assert ts[..8] + ts[8..] == ts;
    }
  }

  // ---------------------------------------------------------------- together

  const SYMBOL_BITS := 655367

  /** Whatever the tokens in a full code buffer, their own codes keep to this many bits. */
  lemma SymbolsFit(lits: seq<u16>, dists: seq<u16>, ts: seq<Token>, ls: seq<nat>, ds: seq<nat>)
    requires CountsOf(lits, dists, ts) && NearlyBest(lits, ls) && NearlyBest(dists, ds)
    requires AllHaveCodes(ts, ls, ds) && Uses(ls, END_OF_BLOCK) && |Packed(ts)| <= CODE_BUF_SIZE
    ensures |TokensBits(ts, ls, ds)| + |SymBits(ls, END_OF_BLOCK)| <= SYMBOL_BITS
  {
    hide CountsOf, LitBits, DistBits, ExtraBitsOf, UsedSymbols.SumOver, UsedSymbols.Total, UseCost, CodesFor, AllHaveCodes, Packed,
         TokensBits, Matched, LitSum, DistSum, LowBits, Stored, Payloads, AllValid;
    CountsValid(lits, dists, ts);
    PlainCodes(lits, dists);
    BitsAreCost(lits, dists, ts, ls, ds);
    BitsAreCost(lits, dists, ts, PlainLits(), PlainDists());
    TokensSize(ts, ls, ds);
    PlainBits(ts);
    TotalsAre(lits, dists, ts, 288);
    TotalsAre(lits, dists, ts, 32);
    SumsBound(ts, 288);
    SumsBound(ts, 32);
    PayloadsSize(ts);
    PackedSize(ts);
  }
}
