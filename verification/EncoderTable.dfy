/** The encoder's code tables (tdefl_optimize_huffman_table): from symbol counts to code lengths
    and stored codes, or from given lengths to codes. */
module EncoderTable {
  import opened Bits
  import opened Symbols
  import opened Windows
  import opened Canonical
  import opened InflateTable
  import InflateBuild
  import UsedSymbols
  import RadixSort
  import PrefixCost
  import HuffmanOptimal
  import CodeLengths
  import CodeLimit
  import LimitSpread
  import LimitCost

  // ---------------------------------------------------------------- counting the lengths

  /** The Kraft sum of the keys from k on, in units of 2^-32. */
  function Units(a: seq<SymFreq>): (u: nat)
    requires forall k :: 0 <= k < |a| ==> a[k].key <= 32
  {
    if a == [] then 0 else Pow2(32 - a[0].key) + Units(a[1..])
  }

  lemma {:induction false} UnitsAreKraft(a: seq<SymFreq>)
    requires forall k :: 0 <= k < |a| ==> a[k].key <= 32
    ensures CodeLengths.Kraft(a) * Pow2(32) as real == Units(a) as real
  {
    hide Pow2, CodeLengths.HalfPow;
    if a != [] {
      UnitsAreKraft(a[1..]);
      HalfPowIsUnit(a[0].key, 32);
      SumScaled(CodeLengths.HalfPow(a[0].key), CodeLengths.Kraft(a[1..]), Pow2(32) as real);
    }
  }

  lemma SumScaled(x: real, y: real, p: real)
    ensures (x + y) * p == x * p + y * p
  {
  }

  lemma {:induction false} HalfPowIsUnit(d: nat, n: nat)
    requires d <= n
    ensures CodeLengths.HalfPow(d) * Pow2(n) as real == Pow2(n - d) as real
  {
    if d > 0 {
      HalfPowIsUnit(d - 1, n);
      assert Pow2(n - (d - 1)) == 2 * Pow2(n - d);
      HalfScaled(CodeLengths.HalfPow(d - 1), Pow2(n) as real);
    }
  }

  lemma HalfScaled(x: real, p: real)
    ensures (x / 2.0) * p == (x * p) / 2.0
  {
  }

  lemma {:induction false} NoCodes(s: seq<int>, m: nat)
    requires |s| == 33 && m <= 32 && forall i :: 0 <= i < |s| ==> s[i] == 0
    ensures CodeLimit.Total(s, m) == 0 && CodeLimit.KraftSum(s, m, 32) == 0
  {
    if m > 0 { NoCodes(s, m - 1); }
  }

  /** num_codes: how many symbols have each length. */
  method CountKeys(a: array<SymFreq>) returns (counts: array<int>)
    requires forall k :: 0 <= k < a.Length ==> 1 <= a[k].key <= 32
    ensures fresh(counts) && CodeLimit.Counts(counts[..])
    ensures CodeLimit.Total(counts[..], 32) == a.Length
    ensures CodeLimit.KraftSum(counts[..], 32, 32) == Units(a[..])
    ensures counts[0] == 0
    ensures (forall k :: 0 <= k < a.Length ==> a[k].key == 1) ==> forall l :: 1 < l < 33 ==> counts[l] == 0
    ensures forall l :: 1 <= l <= 32 ==> counts[l] == LimitSpread.CountOf(HuffmanOptimal.Keys(a[..], 0, a.Length), l)
  {
    hide CodeLimit.Total, CodeLimit.KraftSum, Pow2, Units, LimitSpread.CountOf, HuffmanOptimal.Keys;
    counts := new int[33](_ => 0);
    NoCodes(counts[..], 32);
    NoKeys(a[..]);
    var i := 0;
    assert a[0..] == a[..];
    while i < a.Length
      invariant 0 <= i <= a.Length && CodeLimit.Counts(counts[..]) && counts[0] == 0
      invariant CodeLimit.Total(counts[..], 32) == i
      invariant (forall k :: 0 <= k < i ==> a[k].key == 1) ==> forall l :: 1 < l < 33 ==> counts[l] == 0
      invariant CodeLimit.KraftSum(counts[..], 32, 32) + Units(a[i..]) == Units(a[..])
      invariant forall l :: 1 <= l <= 32 ==> counts[l] == LimitSpread.CountOf(HuffmanOptimal.Keys(a[..], 0, i), l)
    {
      var key := a[i].key;
      NextKey(a[..], i);
      ghost var before := counts[..];
      CodeLimit.TotalUpdate(before, key, before[key] + 1, 32);
      CodeLimit.KraftUpdate(before, key, before[key] + 1, 32, 32);
      UnitsNext(a[i..]);
      assert a[i..][1..] == a[i + 1..];
      counts[key] := counts[key] + 1;
      assert counts[..] == before[key := before[key] + 1];
      i := i + 1;
    }
    UnitsNone(a[i..]);
  }

  lemma NoKeys(a: seq<SymFreq>)
    ensures forall l :: LimitSpread.CountOf(HuffmanOptimal.Keys(a, 0, 0), l) == 0
  {
  }

  lemma NextKey(a: seq<SymFreq>, i: nat)
    requires i < |a|
    ensures forall l :: LimitSpread.CountOf(HuffmanOptimal.Keys(a, 0, i + 1), l)
                     == LimitSpread.CountOf(HuffmanOptimal.Keys(a, 0, i), l) + if a[i].key == l then 1 else 0
  {
    var k, k' := HuffmanOptimal.Keys(a, 0, i), HuffmanOptimal.Keys(a, 0, i + 1);
    assert k'[..|k'| - 1] == k;
  }

  lemma UnitsNext(a: seq<SymFreq>)
    requires a != [] && forall k :: 0 <= k < |a| ==> a[k].key <= 32
    ensures Units(a) == Pow2(32 - a[0].key) + Units(a[1..])
  {
  }

  lemma UnitsNone(a: seq<SymFreq>)
    requires a == []
    ensures Units(a) == 0
  {
  }

  // ---------------------------------------------------------------- giving lengths to symbols

  lemma {:induction false} CountSizeUpdate(sizes: seq<nat>, s: nat, v: nat, l: nat, n: nat)
    requires s < |sizes| && n <= |sizes|
    ensures CountSize(sizes[s := v], l, n)
         == CountSize(sizes, l, n) + (if s < n && v == l then 1 else 0) - (if s < n && sizes[s] == l then 1 else 0)
  {
    if n > 0 { CountSizeUpdate(sizes, s, v, l, n - 1); }
  }

  lemma {:induction false} NoSizes(sizes: seq<nat>, l: nat, n: nat)
    requires n <= |sizes| && l >= 1 && forall i :: 0 <= i < |sizes| ==> sizes[i] == 0
    ensures CountSize(sizes, l, n) == 0
  {
    if n > 0 { NoSizes(sizes, l, n - 1); }
  }

  /** The symbols of t from j on have a length, and no others. */
  ghost predicate Assigned(sizes: seq<nat>, t: seq<SymFreq>, j: nat) {
    && (forall k :: 0 <= k < |t| ==> t[k].sym < |sizes|)
    && (forall k :: 0 <= k < |t| ==> (sizes[t[k].sym] >= 1 <==> j <= k))
    && (forall s :: 0 <= s < |sizes| && sizes[s] >= 1 ==> exists k :: j <= k < |t| && t[k].sym == s)
  }

  /** Lengths fall along t, from j on, and reach no further than top. */
  ghost predicate FallingFrom(sizes: seq<nat>, t: seq<SymFreq>, j: nat, top: nat) {
    && (forall k :: 0 <= k < |t| ==> t[k].sym < |sizes|)
    && (forall k :: j <= k < |t| ==> sizes[t[k].sym] <= top)
    && (forall k, l :: j <= k <= l < |t| ==> sizes[t[k].sym] >= sizes[t[l].sym])
  }

  lemma AssignOne(sizes: seq<nat>, t: seq<SymFreq>, j: nat, i: nat)
    requires UsedSymbols.Distinct(t) && 1 <= j <= |t| && i >= 1
    requires Assigned(sizes, t, j) && FallingFrom(sizes, t, j, i)
    ensures var r := sizes[t[j - 1].sym := i];
            Assigned(r, t, j - 1) && FallingFrom(r, t, j - 1, i) && sizes[t[j - 1].sym] == 0
  {
    var s, r := t[j - 1].sym, sizes[t[j - 1].sym := i];
    assert forall k :: 0 <= k < |t| && k != j - 1 ==> t[k].sym != s;
  }

  /** How many of each length are given out: all of those below i, and all but left of length i. */
  ghost predicate Given(sizes: seq<nat>, counts: seq<int>, limit: nat, i: nat, left: int)
    requires |counts| == 33 && limit <= 15
  {
    forall l :: 1 <= l <= 15 ==>
      Num(sizes, l) == if l < i && l <= limit then counts[l] else if l == i && l <= limit then counts[l] - left else 0
  }

  lemma GivenOne(sizes: seq<nat>, counts: seq<int>, limit: nat, i: nat, left: int, s: nat)
    requires |counts| == 33 && 1 <= i <= limit <= 15 && s < |sizes| && sizes[s] == 0
    requires Given(sizes, counts, limit, i, left)
    ensures Given(sizes[s := i], counts, limit, i, left - 1)
  {
    var r := sizes[s := i];
    forall l | 1 <= l <= 15
      ensures Num(r, l) == if l < i && l <= limit then counts[l] else if l == i && l <= limit then counts[l] - (left - 1) else 0
    {
      CountSizeUpdate(sizes, s, i, l, |sizes|);
      assert Num(r, l) == Num(sizes, l) + if l == i then 1 else 0;
    }
  }

  lemma TotalStep(counts: seq<int>, i: nat)
    requires 1 <= i < |counts|
    ensures CodeLimit.Total(counts, i) == CodeLimit.Total(counts, i - 1) + counts[i]
  {
  }

  lemma {:induction false} TotalMono(counts: seq<int>, i: nat, m: nat)
    requires CodeLimit.Counts(counts) && i <= m < |counts|
    ensures CodeLimit.Total(counts, i) <= CodeLimit.Total(counts, m)
  {
    if i < m { TotalMono(counts, i, m - 1); }
  }

  /** What holds before lengths i are given out, with j symbols waiting. */
  ghost predicate Assigning(sizes: seq<nat>, t: seq<SymFreq>, counts: seq<int>, limit: nat, i: nat, left: int, j: int)
    requires |counts| == 33 && limit <= 15
  {
    && 0 <= j <= |t| && Assigned(sizes, t, j) && FallingFrom(sizes, t, j, if i <= limit then i else limit)
    && Given(sizes, counts, limit, i, left)
  }

  /** Symbols from j on have the lengths r. */
  ghost predicate GivenLens(sizes: seq<nat>, t: seq<SymFreq>, r: seq<nat>, j: nat) {
    |r| == |t| && forall k :: j <= k < |t| ==> t[k].sym < |sizes| && sizes[t[k].sym] == r[k]
  }

  lemma GiveOne(sizes: seq<nat>, t: seq<SymFreq>, r: seq<nat>, j: nat, i: nat)
    requires UsedSymbols.Distinct(t) && 1 <= j <= |t| && GivenLens(sizes, t, r, j)
    requires t[j - 1].sym < |sizes| && r[j - 1] == i
    ensures GivenLens(sizes[t[j - 1].sym := i], t, r, j - 1)
  {
  }

  /** The symbols of one length. */
  method AssignLength(sizes: array<nat>, t: array<SymFreq>, ghost n: nat, counts: array<int>, limit: nat, i: nat, j0: int,
                      ghost r: seq<nat>)
    returns (j: int)
    requires UsedSymbols.Distinct(t[..]) && counts.Length == 33 && 1 <= i <= limit <= 15 && counts[i] >= 0
    requires Assigning(sizes[..], t[..], counts[..], limit, i, counts[i], j0) && counts[i] <= j0
    requires LimitSpread.Matches(r, counts[..], limit) && GivenLens(sizes[..], t[..], r, j0)
    requires j0 == t.Length - CodeLimit.Total(counts[..], i - 1)
    modifies sizes
    ensures j == j0 - counts[i] && Assigning(sizes[..], t[..], counts[..], limit, i, 0, j) && GivenLens(sizes[..], t[..], r, j)
  {
    hide Assigned, FallingFrom, Given, UsedSymbols.Distinct, GivenLens, LimitSpread.Matches, CodeLimit.Total;
    LensShape(sizes[..], t[..], r, j0);
    TotalStep(counts[..], i);
    j := j0;
    var l := counts[i];
    while l > 0
      invariant 0 <= l <= counts[i] && j == j0 - (counts[i] - l)
      invariant Assigning(sizes[..], t[..], counts[..], limit, i, l, j) && GivenLens(sizes[..], t[..], r, j)
    {
      ghost var before := sizes[..];
      CodeLimit.LengthAt(r, counts[..], limit, i, j - 1);
      AssignOne(before, t[..], j, i);
      SymBound(before, t[..], j);
      GivenOne(before, counts[..], limit, i, l, t[j - 1].sym);
      GiveOne(before, t[..], r, j, i);
      j := j - 1;
      sizes[t[j].sym] := i;
      assert sizes[..] == before[t[j].sym := i];
      l := l - 1;
    }
  }

  lemma LensShape(sizes: seq<nat>, t: seq<SymFreq>, r: seq<nat>, j: nat)
    requires GivenLens(sizes, t, r, j)
    ensures |r| == |t|
  {
  }

  lemma SymBound(sizes: seq<nat>, t: seq<SymFreq>, j: nat)
    requires Assigned(sizes, t, j)
    ensures forall k :: 0 <= k < |t| ==> t[k].sym < |sizes|
  {
  }

  lemma NextLength(sizes: seq<nat>, t: seq<SymFreq>, counts: seq<int>, limit: nat, i: nat, j: int)
    requires |counts| == 33 && 1 <= i <= limit <= 15 && Assigning(sizes, t, counts, limit, i, 0, j)
    ensures Assigning(sizes, t, counts, limit, i + 1, if i + 1 <= limit then counts[i + 1] else 0, j)
  {
    hide Assigned;
  }

  lemma FirstLength(sizes: seq<nat>, t: seq<SymFreq>, counts: seq<int>, limit: nat)
    requires |counts| == 33 && 1 <= limit <= 15 && forall s :: 0 <= s < |sizes| ==> sizes[s] == 0
    requires forall k :: 0 <= k < |t| ==> t[k].sym < |sizes|
    ensures Assigning(sizes, t, counts, limit, 1, counts[1], |t|)
  {
    forall l | 1 <= l <= 15
      ensures Num(sizes, l) == 0
    {
      NoSizes(sizes, l, |sizes|);
    }
  }

  /** Lengths for all symbols of t, longest for the rarest. */
  method AssignLengths(t: array<SymFreq>, counts: array<int>, limit: nat, tableLen: nat, ghost r: seq<nat>) returns (sizes: array<nat>)
    requires UsedSymbols.Distinct(t[..]) && (forall k :: 0 <= k < t.Length ==> t[k].sym < tableLen)
    requires 1 <= limit <= 15 && CodeLimit.Counts(counts[..]) && CodeLimit.Total(counts[..], limit) == t.Length
    requires |r| == t.Length && LimitSpread.Matches(r, counts[..], limit)
    ensures fresh(sizes) && sizes.Length == tableLen && GivenLens(sizes[..], t[..], r, 0)
    ensures Assigned(sizes[..], t[..], 0) && FallingFrom(sizes[..], t[..], 0, limit)
    ensures forall l :: 1 <= l <= 15 ==> Num(sizes[..], l) == if l <= limit then counts[l] else 0
  {
    hide Assigned, FallingFrom, UsedSymbols.Distinct, CodeLimit.Total, CodeLimit.Counts, Num, LimitSpread.Matches;
    sizes := new nat[tableLen](_ => 0);
    var j: int := t.Length;
    CountsShape(counts[..]);
    FirstLength(sizes[..], t[..], counts[..], limit);
    var i := 1;
    TotalNone(counts[..]);
    while i <= limit
      invariant 1 <= i <= limit + 1 && j == t.Length - CodeLimit.Total(counts[..], i - 1)
      invariant Assigning(sizes[..], t[..], counts[..], limit, i, if i <= limit then counts[i] else 0, j)
      invariant GivenLens(sizes[..], t[..], r, j)
    {
      TotalStep(counts[..], i);
      TotalMono(counts[..], i, limit);
      j := AssignLength(sizes, t, t.Length, counts, limit, i, j, r);
      NextLength(sizes[..], t[..], counts[..], limit, i, j);
      i := i + 1;
    }
  }

  lemma CountsShape(counts: seq<int>)
    requires CodeLimit.Counts(counts)
    ensures |counts| == 33 && forall i :: 0 <= i < 33 ==> counts[i] >= 0
  {
  }

  lemma TotalNone(counts: seq<int>)
    requires |counts| > 0
    ensures CodeLimit.Total(counts, 0) == 0
  {
  }

  // ---------------------------------------------------------------- the lengths make a complete code

  ghost predicate Counted(sizes: seq<nat>, counts: seq<int>, limit: nat)
    requires |counts| == 33 && limit <= 15
  {
    forall l :: 1 <= l <= 15 ==> Num(sizes, l) == if l <= limit then counts[l] else 0
  }

  lemma {:induction false} NextFromCounts(sizes: seq<nat>, counts: seq<int>, limit: nat, m: nat)
    requires |counts| == 33 && m <= limit <= 15 && Counted(sizes, counts, limit)
    ensures NextCode(sizes, m + 1) == 2 * CodeLimit.KraftSum(counts, m, m)
  {
    if m > 0 {
      NextFromCounts(sizes, counts, limit, m - 1);
      CodeLimit.KraftScale(counts, m - 1, m - 1, 1);
      assert Pow2(1) == 2 && Pow2(0) == 1;
    }
  }

  lemma {:induction false} NextBeyond(sizes: seq<nat>, counts: seq<int>, limit: nat, m: nat)
    requires |counts| == 33 && limit <= m <= 15 && Counted(sizes, counts, limit)
    ensures NextCode(sizes, m + 1) == NextCode(sizes, limit + 1) * Pow2(m - limit)
  {
    if m > limit {
      NextBeyond(sizes, counts, limit, m - 1);
      MulDouble(Pow2(m - 1 - limit), NextCode(sizes, limit + 1));
    }
  }

  lemma CountsComplete(sizes: seq<nat>, counts: seq<int>, limit: nat)
    requires |counts| == 33 && 1 <= limit <= 15 && Counted(sizes, counts, limit) && Sizes(sizes)
    requires CodeLimit.KraftSum(counts, limit, limit) == Pow2(limit)
    ensures Canonical.Complete(sizes)
  {
    hide NextCode, CodeLimit.KraftSum, Counted;
    NextFromCounts(sizes, counts, limit, limit);
    NextBeyond(sizes, counts, limit, 15);
    Pow2Add(limit, 15 - limit);
    Pow2Values();
    hide Pow2;
    assert (2 * Pow2(limit)) * Pow2(15 - limit) == 2 * (Pow2(limit) * Pow2(15 - limit)) by {
      MulDouble(Pow2(limit), Pow2(15 - limit));
    }
  }

  lemma {:induction false} UsedIsTotal(sizes: seq<nat>, counts: seq<int>, limit: nat, m: nat)
    requires |counts| == 33 && limit <= 15 && m <= 15 && Counted(sizes, counts, limit)
    ensures Used(sizes, m) == CodeLimit.Total(counts, if m <= limit then m else limit)
  {
    if m > 0 { UsedIsTotal(sizes, counts, limit, m - 1); }
  }

  // ---------------------------------------------------------------- codes for the lengths

  /** A code table as the compressor keeps it: code lengths and stored codes. */
  ghost predicate CodeTable(codes: seq<nat>, sizes: seq<nat>) {
    && |codes| == |sizes| && Sizes(sizes)
    && forall s :: 0 <= s < |sizes| && sizes[s] >= 1 ==> codes[s] == Stored(sizes, s)
  }

  /** next_code: the first code of each length up to the limit. */
  method FirstCodes(counts: array<int>, limit: nat, ghost sizes: seq<nat>) returns (next: array<nat>)
    requires counts.Length == 33 && 1 <= limit <= 15
    requires forall l :: 1 <= l <= limit ==> counts[l] == Num(sizes, l)
    ensures fresh(next) && next.Length == 33
    ensures forall l :: 1 <= l <= limit ==> next[l] == NextCode(sizes, l)
  {
    hide NextCode, Num;
    next := new nat[33](_ => 0);
    var j, i := 0, 2;
    InflateBuild.NumberStart(sizes);
    while i <= limit
      invariant 2 <= i <= limit + 1 || (i == 2 && limit == 1)
      invariant j == NextCode(sizes, i - 1)
      invariant forall l :: 1 <= l < i ==> next[l] == NextCode(sizes, l)
    {
      InflateBuild.NumberStep(sizes, i - 1);
      j := 2 * (j + counts[i - 1]);
      next[i] := j;
      i := i + 1;
    }
  }

  /** The stored code of every symbol that has a length. */
  method AssignCodes(counts: array<int>, limit: nat, sizes: seq<nat>) returns (codes: seq<nat>)
    requires counts.Length == 33 && 1 <= limit <= 15 && Sizes(sizes)
    requires forall l :: 1 <= l <= limit ==> counts[l] == Num(sizes, l)
    requires forall s :: 0 <= s < |sizes| ==> sizes[s] <= limit
    ensures CodeTable(codes, sizes)
  {
    hide NextCode, Num, Prefix;
    var next := FirstCodes(counts, limit, sizes);
    codes := [];
    var i := 0;
    while i < |sizes|
      invariant 0 <= i <= |sizes| && |codes| == i && next.Length == 33
      invariant forall l :: 1 <= l <= limit ==> next[l] == NextCode(sizes, l) + CountSize(sizes, l, i)
      invariant forall s :: 0 <= s < i && sizes[s] >= 1 ==> codes[s] == Stored(sizes, s)
    {
      var size := sizes[i];
      if size == 0 {
        codes := codes + [0];
      } else {
        var code := next[size];
        next[size] := next[size] + 1;
        var rev := InflateBuild.ReverseBits(code, size);
        codes := codes + [rev];
      }
      i := i + 1;
    }
  }

  // ---------------------------------------------------------------- the whole table

  /** num_used_syms: gathers the symbols in use. */
  method Gather(counts: seq<u16>) returns (used: seq<SymFreq>)
    ensures used == UsedSymbols.Used(counts, |counts|)
  {
    used := [];
    var i := 0;
    while i < |counts|
      invariant 0 <= i <= |counts| && used == UsedSymbols.Used(counts, i)
    {
      if counts[i] > 0 { used := used + [SymFreq(counts[i], i)]; }
      i := i + 1;
    }
  }

  lemma {:induction false} KeySumIsSum(t: seq<SymFreq>, n: nat)
    requires n <= |t|
    ensures HuffmanOptimal.Sum(HuffmanOptimal.Keys(t, 0, n)) == UsedSymbols.KeySum(t[..n])
  {
    if n > 0 {
      KeySumIsSum(t, n - 1);
      HuffmanOptimal.SumAppend(HuffmanOptimal.Keys(t, 0, n - 1), t[n - 1].key);
      assert t[..n][..n - 1] == t[..n - 1];
    }
  }

  lemma ListIsWeights(t: seq<SymFreq>, counts: seq<u16>)
    requires UsedSymbols.Lists(t, counts) && RadixSort.SortedByKey(t) && 2 <= |t| <= 65536 && UsedSymbols.KeySum(t) < 65536
    ensures HuffmanOptimal.Weights(t)
  {
    hide UsedSymbols.KeySum, HuffmanOptimal.Keys, HuffmanOptimal.Sum, UsedSymbols.Distinct;
    KeySumIsSum(t, |t|);
    assert t[..|t|] == t;
  }

  lemma {:induction false} TotalFlat(counts: seq<int>, i: nat, m: nat)
    requires i <= m < |counts| && forall l :: i < l <= m ==> counts[l] == 0
    ensures CodeLimit.Total(counts, m) == CodeLimit.Total(counts, i)
  {
    if i < m { TotalFlat(counts, i, m - 1); }
  }

  method SortSymbols(counts: seq<u16>) returns (t: array<SymFreq>)
    ensures fresh(t) && t[..] == RadixSort.Sorted(UsedSymbols.Used(counts, |counts|))
  {
    var used := Gather(counts);
    var syms0 := new SymFreq[|used|](i requires 0 <= i < |used| => used[i]);
    var syms1 := new SymFreq[|used|];
    assert syms0[..|used|] == used;
    t := RadixSort.Sort(syms0, syms1, |used|);
    SortedLength(counts);
    assert t[..|used|] == t[..];
  }

  lemma SortedLength(counts: seq<u16>)
    ensures |RadixSort.Sorted(UsedSymbols.Used(counts, |counts|))| == |UsedSymbols.Used(counts, |counts|)|
  {
    hide RadixSort.Sorted;
    UsedSymbols.SortedLists(counts);
  }

  /** How many codes of each length, within the limit: a complete code if there are two symbols. */
  ghost predicate FullCounts(counts: seq<int>, limit: nat, n: nat)
    requires 1 <= limit <= 15
  {
    && CodeLimit.Counts(counts) && CodeLimit.Total(counts, limit) == n
    && (n >= 2 ==> CodeLimit.KraftSum(counts, limit, limit) == Pow2(limit))
  }

  /** No prefix code for these weights is cheaper by more than a bit for each use. */
  ghost predicate NearBest(ws: seq<nat>, r: seq<nat>) {
    |r| == |ws| && forall ls: seq<nat> :: |ls| == |ws| && PrefixCost.Codes(ls) ==>
                     PrefixCost.Cost(ws, r) <= PrefixCost.Cost(ws, ls) + HuffmanOptimal.Sum(ws)
  }

  /** No prefix code costs less. */
  ghost predicate NoneCheaper(ws: seq<nat>, r: seq<nat>) {
    |r| == |ws| && PrefixCost.LowerBound(ws, PrefixCost.Cost(ws, r))
  }

  /** Weights so small that no length goes beyond the limit. */
  lemma LightFits(a: seq<SymFreq>, b: seq<SymFreq>, limit: nat)
    requires CodeLengths.Light(a, b) && (forall k :: 0 <= k < |a| ==> a[k].key >= 1)
    requires (forall k :: 0 <= k < |b| ==> 1 <= b[k].key)
    requires HuffmanOptimal.Sum(HuffmanOptimal.Keys(a, 0, |a|)) < HuffmanOptimal.Growth(limit)
    ensures LimitSpread.Between(HuffmanOptimal.Keys(b, 0, |b|), limit)
  {
    hide HuffmanOptimal.Growth, HuffmanOptimal.Sum, HuffmanOptimal.Keys, CodeLengths.Light;
    forall k | 0 <= k < |b|
      ensures b[k].key <= limit
    {
      LightAt(a, b, k);
      if b[k].key > limit {
        HuffmanOptimal.GrowthRises(limit, b[k].key - 1);
        AtLeastOnce(a[k].key, HuffmanOptimal.Growth(b[k].key - 1));
      }
    }
  }

  lemma LightAt(a: seq<SymFreq>, b: seq<SymFreq>, k: nat)
    requires CodeLengths.Light(a, b) && k < |b|
    ensures |a| == |b| && b[k].key >= 1
    ensures a[k].key * HuffmanOptimal.Growth(b[k].key - 1) <= HuffmanOptimal.Sum(HuffmanOptimal.Keys(a, 0, |a|))
  {
  }

  lemma AtLeastOnce(n: nat, g: nat)
    requires n >= 1
    ensures n * g >= g
  {
  }

  lemma WeightsUsed(a: seq<SymFreq>)
    requires HuffmanOptimal.Weights(a)
    ensures forall k :: 0 <= k < |a| ==> a[k].key >= 1
  {
    var ws := HuffmanOptimal.Keys(a, 0, |a|);
    forall k | 0 <= k < |a|
      ensures a[k].key >= 1
    {
      assert ws[0] <= ws[k];
    }
  }

  lemma KeysShape(a: seq<SymFreq>, max: nat)
    requires (forall k :: 0 <= k < |a| ==> 1 <= a[k].key <= max) && CodeLengths.Falling(a)
    ensures LimitSpread.Between(HuffmanOptimal.Keys(a, 0, |a|), max) && LimitSpread.Falls(HuffmanOptimal.Keys(a, 0, |a|))
  {
  }

  lemma KeysMatch(a: seq<SymFreq>, counts: seq<int>)
    requires (forall k :: 0 <= k < |a| ==> 1 <= a[k].key <= 32) && CodeLengths.Falling(a) && |counts| == 33
    requires forall l :: 1 <= l <= 32 ==> counts[l] == LimitSpread.CountOf(HuffmanOptimal.Keys(a, 0, |a|), l)
    ensures LimitSpread.Matches(HuffmanOptimal.Keys(a, 0, |a|), counts, 32)
  {
    hide HuffmanOptimal.Keys, LimitSpread.CountOf;
    KeysShape(a, 32);
  }

  lemma OneKey(ls: seq<nat>, counts: seq<int>, limit: nat)
    requires LimitSpread.Matches(ls, counts, 32) && 1 <= limit <= 15 && forall i :: 0 <= i < |ls| ==> ls[i] == 1
    ensures LimitSpread.Matches(ls, counts, limit)
  {
  }

  /** Limiting to fifteen bits keeps near the best code. */
  lemma LimitedNearBest(a: seq<SymFreq>, b: seq<SymFreq>, counts: seq<int>, r: seq<nat>)
    requires HuffmanOptimal.Weights(a) && |b| == |a| <= 288 && CodeLengths.Optimal(a, b) && CodeLengths.Light(a, b)
    requires (forall k :: 0 <= k < |b| ==> 1 <= b[k].key <= 32) && CodeLengths.Falling(b)
    requires LimitSpread.Matches(HuffmanOptimal.Keys(b, 0, |b|), counts, 32) && CodeLimit.Complete(counts)
    requires LimitSpread.Limited(LimitSpread.Clamp(HuffmanOptimal.Keys(b, 0, |b|), 15), r, 15)
    ensures NearBest(HuffmanOptimal.Keys(a, 0, |a|), r)
  {
    hide HuffmanOptimal.Keys, HuffmanOptimal.Sum, PrefixCost.Cost, PrefixCost.Codes, LimitSpread.Space, LimitSpread.Clamp,
         LimitSpread.Limited, HuffmanOptimal.Weights, HuffmanOptimal.Growth, Pow2, CodeLimit.KraftSum, CodeLimit.Total;
    var ws, ls := HuffmanOptimal.Keys(a, 0, |a|), HuffmanOptimal.Keys(b, 0, |b|);
    KeysShape(b, 32);
    CodeLimit.CountsAre(ls, counts, 32);
    LimitSpread.FoldedSpace(ls, 15, 32);
    LightAfterClamp(a, b, ls);
    LimitCost.LimitedIsCheap(ws, LimitSpread.Clamp(ls, 15), r, HuffmanOptimal.Sum(ws));
    LimitCost.ClampCost(ws, ls, 15);
  }

  lemma LightAfterClamp(a: seq<SymFreq>, b: seq<SymFreq>, ls: seq<nat>)
    requires CodeLengths.Light(a, b) && ls == HuffmanOptimal.Keys(b, 0, |b|)
    ensures LimitCost.LightBelow(HuffmanOptimal.Keys(a, 0, |a|), LimitSpread.Clamp(ls, 15),
                                 HuffmanOptimal.Sum(HuffmanOptimal.Keys(a, 0, |a|)))
  {
    hide HuffmanOptimal.Keys, HuffmanOptimal.Sum, HuffmanOptimal.Growth, LimitSpread.Clamp;
    var ws, r := HuffmanOptimal.Keys(a, 0, |a|), LimitSpread.Clamp(ls, 15);
    forall i | 0 <= i < |r| && 1 <= r[i] < 15
      ensures ws[i] * HuffmanOptimal.Growth(r[i] - 1) <= HuffmanOptimal.Sum(ws)
    {
      assert ws[i] == a[i].key && r[i] == b[i].key;
    }
  }

  lemma OneNearBest(a: seq<SymFreq>, ls: seq<nat>)
    requires |ls| == |a| <= 1 && forall i :: 0 <= i < |ls| ==> ls[i] == 1
    ensures NearBest(HuffmanOptimal.Keys(a, 0, |a|), ls)
  {
    var ws := HuffmanOptimal.Keys(a, 0, |a|);
    if |a| == 1 {
      assert ws == [a[0].key] && ws[1..] == [] && ls[1..] == [];
      assert PrefixCost.Cost(ws, ls) == HuffmanOptimal.Sum(ws);
    }
  }

  /** Minimum-redundancy lengths of the sorted symbols, cut to the limit; r are the lengths. */
  method LimitedCounts(t: array<SymFreq>, limit: nat) returns (counts: array<int>, ghost r: seq<nat>)
    requires 1 <= limit <= 15 && t.Length <= 65536 && t.Length <= Pow2(limit)
    requires t.Length >= 2 ==> HuffmanOptimal.Weights(t[..])
    modifies t
    ensures SameSyms(t[..], old(t[..])) && fresh(counts) && FullCounts(counts[..], limit, t.Length)
    ensures |r| == t.Length && LimitSpread.Matches(r, counts[..], limit)
    ensures t.Length <= 288 && limit == 15 ==> NearBest(HuffmanOptimal.Keys(old(t[..]), 0, t.Length), r)
    ensures t.Length >= 2 && HuffmanOptimal.Sum(HuffmanOptimal.Keys(old(t[..]), 0, t.Length)) < HuffmanOptimal.Growth(limit) ==>
              NoneCheaper(HuffmanOptimal.Keys(old(t[..]), 0, t.Length), r)
  {
    hide CodeLengths.Kraft, CodeLengths.Optimal, HuffmanOptimal.Weights, CodeLimit.Total, CodeLimit.KraftSum, Units, Pow2,
         HuffmanOptimal.Keys, CodeLengths.Light, LimitSpread.Matches, LimitSpread.Limited, LimitSpread.Clamp, NearBest,
         LimitSpread.CountOf, CodeLengths.Falling, LimitSpread.Between, NoneCheaper, HuffmanOptimal.Growth, HuffmanOptimal.Sum;
    ghost var orig := t[..];
    CodeLengths.Calculate(t);
    counts := CountKeys(t);
    ghost var ls := HuffmanOptimal.Keys(t[..], 0, t.Length);
    ghost var full := counts[..];
    KeysMatch(t[..], full);
    if t.Length >= 2 {
      UnitsAreKraft(t[..]);
      RealOne(Units(t[..]));
    } else {
      TotalFlat(counts[..], limit, 32);
    }
    r := CodeLimit.Enforce(counts, t.Length, limit, ls);
    if t.Length <= 1 {
      r := ls;
      OneKey(ls, counts[..], limit);
      OneNearBest(orig, ls);
    } else {
      if t.Length <= 288 && limit == 15 { LimitedNearBest(orig, t[..], full, r); }
      if HuffmanOptimal.Sum(HuffmanOptimal.Keys(orig, 0, |orig|)) < HuffmanOptimal.Growth(limit) {
        WeightsUsed(orig);
        LightFits(orig, t[..], limit);
        OptimalIs(orig, t[..]);
      }
    }
  }

  lemma OptimalIs(a: seq<SymFreq>, b: seq<SymFreq>)
    requires CodeLengths.Optimal(a, b)
    ensures NoneCheaper(HuffmanOptimal.Keys(a, 0, |a|), HuffmanOptimal.Keys(b, 0, |b|))
  {
  }

  lemma RealOne(u: nat)
    requires 1.0 * Pow2(32) as real == u as real
    ensures u == Pow2(32)
  {
  }

  /** The lengths suit the counts: used symbols, and only those, have a code; rarer symbols
      have codes no shorter. */
  ghost predicate Suits(sizes: seq<nat>, counts: seq<u16>, limit: nat) {
    && |sizes| == |counts|
    && (forall s :: 0 <= s < |sizes| ==> sizes[s] <= limit && (sizes[s] >= 1 <==> counts[s] > 0))
    && (forall r, s :: 0 <= r < |sizes| && 0 <= s < |sizes| && 0 < counts[r] < counts[s] ==> sizes[r] >= sizes[s])
  }

  lemma AssignedSuits(sizes: seq<nat>, t: seq<SymFreq>, u: seq<SymFreq>, counts: seq<u16>, limit: nat)
    requires UsedSymbols.Lists(t, counts) && RadixSort.SortedByKey(t) && SameSyms(u, t) && |sizes| == |counts|
    requires Assigned(sizes, u, 0) && FallingFrom(sizes, u, 0, limit)
    ensures Suits(sizes, counts, limit)
  {
    forall s | 0 <= s < |sizes|
      ensures sizes[s] <= limit && (sizes[s] >= 1 <==> counts[s] > 0)
    {
      if counts[s] > 0 { var k := IndexOf(t, SymFreq(counts[s], s)); assert u[k].sym == s; }
    }
    forall r, s | 0 <= r < |sizes| && 0 <= s < |sizes| && 0 < counts[r] < counts[s]
      ensures sizes[r] >= sizes[s]
    {
      var i := IndexOf(t, SymFreq(counts[r], r));
      var j := IndexOf(t, SymFreq(counts[s], s));
      assert u[i].sym == r && u[j].sym == s;
    }
  }

  lemma IndexOf(t: seq<SymFreq>, x: SymFreq) returns (k: nat)
    requires x in t
    ensures k < |t| && t[k] == x
  {
    k :| 0 <= k < |t| && t[k] == x;
  }

  lemma DistinctKept(t: seq<SymFreq>, u: seq<SymFreq>)
    requires SameSyms(u, t) && UsedSymbols.Distinct(t)
    ensures UsedSymbols.Distinct(u)
  {
  }

  // ---------------------------------------------------------------- what the table costs

  function LenIn(o: seq<nat>, s: nat): (l: nat) {
    if s < |o| then o[s] else 0
  }

  /** The bits that the uses of a symbol take with lengths o. */
  function UseCost(o: seq<nat>): SymFreq -> nat {
    (x: SymFreq) => x.key * LenIn(o, x.sym)
  }

  /** Its share of the code space, in units of 2^-unit. */
  function UseSpace(o: seq<nat>, unit: nat): SymFreq -> nat {
    (x: SymFreq) => if LenIn(o, x.sym) <= unit then Pow2(unit - LenIn(o, x.sym)) else 0
  }

  function LensIn(t: seq<SymFreq>, o: seq<nat>, n: nat): (ls: seq<nat>)
    requires n <= |t|
    ensures |ls| == n && forall k :: 0 <= k < n ==> ls[k] == LenIn(o, t[k].sym)
  {
    if n == 0 then [] else LensIn(t, o, n - 1) + [LenIn(o, t[n - 1].sym)]
  }

  lemma {:induction false} CostIsSum(t: seq<SymFreq>, o: seq<nat>, n: nat)
    requires n <= |t|
    ensures PrefixCost.Cost(HuffmanOptimal.Keys(t, 0, n), LensIn(t, o, n)) == UsedSymbols.SumBy(t[..n], UseCost(o))
  {
    hide PrefixCost.Cost;
    if n > 0 {
      CostIsSum(t, o, n - 1);
      PrefixCost.CostAppend(HuffmanOptimal.Keys(t, 0, n - 1), LensIn(t, o, n - 1), t[n - 1].key, LenIn(o, t[n - 1].sym));
      assert t[..n][..n - 1] == t[..n - 1];
    } else {
      NoCost();
    }
  }

  lemma NoCost()
    ensures PrefixCost.Cost([], []) == 0
  {
  }

  lemma {:induction false} KraftIsSum(t: seq<SymFreq>, o: seq<nat>, unit: nat, n: nat)
    requires n <= |t| && forall k :: 0 <= k < |t| ==> LenIn(o, t[k].sym) <= unit
    ensures PrefixCost.AllAtMost(LensIn(t, o, n), unit)
    ensures PrefixCost.Kraft(LensIn(t, o, n), unit) == UsedSymbols.SumBy(t[..n], UseSpace(o, unit))
  {
    hide PrefixCost.Kraft, Pow2;
    if n > 0 {
      KraftIsSum(t, o, unit, n - 1);
      PrefixCost.KraftAppend(LensIn(t, o, n - 1), unit, LenIn(o, t[n - 1].sym));
      assert t[..n][..n - 1] == t[..n - 1];
    } else {
      NoKraft(unit);
    }
  }

  lemma NoKraft(unit: nat)
    ensures PrefixCost.Kraft([], unit) == 0
  {
  }

  /** Lengths o can be those of a prefix code for the symbols in use. */
  ghost predicate CodesFor(counts: seq<u16>, o: seq<nat>, unit: nat) {
    && |o| == |counts| && (forall s :: 0 <= s < |o| ==> o[s] <= unit)
    && UsedSymbols.SumOver(counts, UseSpace(o, unit), |counts|) <= Pow2(unit)
  }

  /** All uses together cost at most a bit each more than with any other prefix code. */
  ghost predicate NearlyBest(counts: seq<u16>, sizes: seq<nat>) {
    forall o: seq<nat>, unit: nat :: CodesFor(counts, o, unit) ==>
      UsedSymbols.SumOver(counts, UseCost(sizes), |counts|)
      <= UsedSymbols.SumOver(counts, UseCost(o), |counts|) + UsedSymbols.Total(counts, |counts|)
  }

  /** All uses together cost no more than with any other prefix code. */
  ghost predicate Best(counts: seq<u16>, sizes: seq<nat>) {
    forall o: seq<nat>, unit: nat :: CodesFor(counts, o, unit) ==>
      UsedSymbols.SumOver(counts, UseCost(sizes), |counts|) <= UsedSymbols.SumOver(counts, UseCost(o), |counts|)
  }

  lemma GivenIsLens(sizes: seq<nat>, t: seq<SymFreq>, r: seq<nat>)
    requires GivenLens(sizes, t, r, 0)
    ensures LensIn(t, sizes, |t|) == r
  {
  }

  lemma SortedCost(counts: seq<u16>, t: seq<SymFreq>, o: seq<nat>)
    requires t == RadixSort.Sorted(UsedSymbols.Used(counts, |counts|))
    ensures PrefixCost.Cost(HuffmanOptimal.Keys(t, 0, |t|), LensIn(t, o, |t|)) == UsedSymbols.SumOver(counts, UseCost(o), |counts|)
  {
    hide PrefixCost.Cost, UsedSymbols.SumBy, UsedSymbols.SumOver, UseCost, RadixSort.Sorted, UsedSymbols.Used;
    hide HuffmanOptimal.Keys, LensIn;
    CostIsSum(t, o, |t|);
    WholeOf(t);
    UsedSymbols.SumBySorted(counts, UseCost(o));
  }

  lemma WholeOf(t: seq<SymFreq>)
    ensures t[..|t|] == t
  {
  }

  lemma OtherCodes(counts: seq<u16>, t: seq<SymFreq>, o: seq<nat>, unit: nat)
    requires t == RadixSort.Sorted(UsedSymbols.Used(counts, |counts|)) && CodesFor(counts, o, unit)
    ensures PrefixCost.Codes(LensIn(t, o, |t|))
  {
    hide PrefixCost.Kraft, UsedSymbols.SumBy, UsedSymbols.SumOver, UseSpace, RadixSort.Sorted, UsedSymbols.Used, Pow2;
    KraftIsSum(t, o, unit, |t|);
    assert t[..|t|] == t;
    UsedSymbols.SumBySorted(counts, UseSpace(o, unit));
  }

  lemma SortedTotal(counts: seq<u16>, t: seq<SymFreq>)
    requires t == RadixSort.Sorted(UsedSymbols.Used(counts, |counts|))
    ensures HuffmanOptimal.Sum(HuffmanOptimal.Keys(t, 0, |t|)) == UsedSymbols.Total(counts, |counts|)
  {
    hide RadixSort.Sorted, UsedSymbols.KeySum, HuffmanOptimal.Sum, HuffmanOptimal.Keys, UsedSymbols.Total, UsedSymbols.Used;
    hide UsedSymbols.Lists, RadixSort.SortedByKey;
    KeySumIsSum(t, |t|);
    WholeOf(t);
    UsedSymbols.SortedLists(counts);
    UsedSymbols.KeySumIsTotal(counts, |counts|);
  }

  /** So are the lengths given out. */
  lemma TableNearlyBest(counts: seq<u16>, order: seq<SymFreq>, u: seq<SymFreq>, r: seq<nat>, sizes: seq<nat>)
    requires order == RadixSort.Sorted(UsedSymbols.Used(counts, |counts|)) && SameSyms(u, order)
    requires GivenLens(sizes, u, r, 0) && NearBest(HuffmanOptimal.Keys(order, 0, |order|), r)
    ensures NearlyBest(counts, sizes)
  {
    hide PrefixCost.Cost, UsedSymbols.SumBy, UsedSymbols.SumOver, UseCost, RadixSort.Sorted, UsedSymbols.Used, UsedSymbols.Total,
         HuffmanOptimal.Keys, HuffmanOptimal.Sum, PrefixCost.Codes, LensIn, CodesFor;
    GivenIsLens(sizes, u, r);
    SameLens(u, order, sizes, |order|);
    SortedCost(counts, order, sizes);
    SortedTotal(counts, order);
    forall o: seq<nat>, unit: nat | CodesFor(counts, o, unit)
      ensures UsedSymbols.SumOver(counts, UseCost(sizes), |counts|)
              <= UsedSymbols.SumOver(counts, UseCost(o), |counts|) + UsedSymbols.Total(counts, |counts|)
    {
      OtherCodes(counts, order, o, unit);
      SortedCost(counts, order, o);
      LensCount(order, o);
    }
  }

  lemma TableBest(counts: seq<u16>, order: seq<SymFreq>, u: seq<SymFreq>, r: seq<nat>, sizes: seq<nat>)
    requires order == RadixSort.Sorted(UsedSymbols.Used(counts, |counts|)) && SameSyms(u, order)
    requires GivenLens(sizes, u, r, 0) && NoneCheaper(HuffmanOptimal.Keys(order, 0, |order|), r)
    ensures Best(counts, sizes)
  {
    hide PrefixCost.Cost, UsedSymbols.SumBy, UsedSymbols.SumOver, UseCost, RadixSort.Sorted, UsedSymbols.Used, UsedSymbols.Total,
         HuffmanOptimal.Keys, HuffmanOptimal.Sum, PrefixCost.Codes, LensIn, CodesFor;
    GivenIsLens(sizes, u, r);
    SameLens(u, order, sizes, |order|);
    SortedCost(counts, order, sizes);
    forall o: seq<nat>, unit: nat | CodesFor(counts, o, unit)
      ensures UsedSymbols.SumOver(counts, UseCost(sizes), |counts|) <= UsedSymbols.SumOver(counts, UseCost(o), |counts|)
    {
      OtherCodes(counts, order, o, unit);
      SortedCost(counts, order, o);
      LensCount(order, o);
    }
  }

  lemma LensCount(t: seq<SymFreq>, o: seq<nat>)
    ensures |LensIn(t, o, |t|)| == |t|
  {
  }

  lemma SameLens(u: seq<SymFreq>, t: seq<SymFreq>, o: seq<nat>, n: nat)
    requires SameSyms(u, t) && n <= |t|
    ensures LensIn(u, o, n) == LensIn(t, o, n)
  {
  }

  /** tdefl_optimize_huffman_table, for counted symbols. */
  method Optimize(counts: seq<u16>, limit: nat) returns (codes: seq<nat>, sizes: seq<nat>)
    requires |counts| <= MAX_SYMBOLS && 1 <= limit <= 15 && |UsedSymbols.Used(counts, |counts|)| <= Pow2(limit)
    requires UsedSymbols.KeySum(UsedSymbols.Used(counts, |counts|)) < 65536
    ensures CodeTable(codes, sizes) && Suits(sizes, counts, limit)
    ensures InflateBuild.Accepted(sizes)
    ensures |UsedSymbols.Used(counts, |counts|)| >= 2 ==> Canonical.Complete(sizes)
    ensures limit == 15 ==> NearlyBest(counts, sizes)
    ensures |UsedSymbols.Used(counts, |counts|)| >= 2 && UsedSymbols.Total(counts, |counts|) < HuffmanOptimal.Growth(limit) ==>
              Best(counts, sizes)
  {
    hide NearBest, NearlyBest, NoneCheaper, Best, HuffmanOptimal.Growth, HuffmanOptimal.Sum, UsedSymbols.Total, GivenLens, LimitSpread.Matches, HuffmanOptimal.Keys;
    hide RadixSort.Sorted, UsedSymbols.Used, UsedSymbols.KeySum, UsedSymbols.Lists, HuffmanOptimal.Weights, Assigned, FallingFrom,
         CodeLimit.Total, CodeLimit.KraftSum, CodeTable, Canonical.Complete, Pow2, UsedSymbols.Distinct, RadixSort.SortedByKey;
    UsedSymbols.SortedLists(counts);
    var t := SortSymbols(counts);
    ghost var order := t[..];
    ListShape(order, counts);
    if t.Length >= 2 { ListIsWeights(order, counts); }
    var nc, r := LimitedCounts(t, limit);
    DistinctKept(order, t[..]);
    var a := AssignLengths(t, nc, limit, |counts|, r);
    sizes := a[..];
    AssignedSuits(sizes, order, t[..], counts, limit);
    if limit == 15 { TableNearlyBest(counts, order, t[..], r, sizes); }
    SortedTotal(counts, order);
    if t.Length >= 2 && UsedSymbols.Total(counts, |counts|) < HuffmanOptimal.Growth(limit) {
      TableBest(counts, order, t[..], r, sizes);
    }
    FinishTable(sizes, nc[..], limit, t.Length);
    codes := AssignCodes(nc, limit, sizes);
  }

  lemma ListShape(t: seq<SymFreq>, counts: seq<u16>)
    requires UsedSymbols.Lists(t, counts)
    ensures UsedSymbols.Distinct(t) && forall k :: 0 <= k < |t| ==> t[k].sym < |counts|
  {
  }

  lemma FinishTable(sizes: seq<nat>, counts: seq<int>, limit: nat, n: nat)
    requires 1 <= limit <= 15 && FullCounts(counts, limit, n) && Counted(sizes, counts, limit) && |sizes| <= MAX_SYMBOLS
    requires forall s :: 0 <= s < |sizes| ==> sizes[s] <= limit
    ensures Sizes(sizes) && InflateBuild.Accepted(sizes) && (n >= 2 ==> Canonical.Complete(sizes))
  {
    hide CodeLimit.Total, CodeLimit.KraftSum, Pow2, Counted, Used;
    if n >= 2 { CountsComplete(sizes, counts, limit); } else { UsedIsTotal(sizes, counts, limit, 15); }
  }
}
