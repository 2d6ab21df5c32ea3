/** Limiting the longest code of a complete prefix code
    (tdefl_huffman_enforce_max_code_size): counts[i] is the number of codes of i bits. */
module CodeLimit {
  import opened Bits
  import opened LimitSpread

  const MAX_SUPPORTED := 32

  ghost predicate Counts(s: seq<int>) {
    |s| == MAX_SUPPORTED + 1 && forall i :: 0 <= i < |s| ==> s[i] >= 0
  }

  /** Number of codes with 1 to m bits. */
  function Total(s: seq<int>, m: nat): (r: int)
    requires m < |s|
  {
    if m == 0 then 0 else Total(s, m - 1) + s[m]
  }

  /** Kraft sum of the codes with 1 to m bits, in units of 2^-unit. */
  function KraftSum(s: seq<int>, m: nat, unit: nat): (r: int)
    requires m < |s| && m <= unit
  {
    if m == 0 then 0 else KraftSum(s, m - 1, unit) + s[m] * Pow2(unit - m)
  }

  lemma {:induction false} TotalUpdate(s: seq<int>, i: nat, v: int, m: nat)
    requires 1 <= i < |s| && m < |s|
    ensures Total(s[i := v], m) == Total(s, m) + (if i <= m then v - s[i] else 0)
  {
    if m > 0 { TotalUpdate(s, i, v, m - 1); }
  }

  lemma {:induction false} KraftUpdate(s: seq<int>, i: nat, v: int, m: nat, unit: nat)
    requires 1 <= i < |s| && m < |s| && m <= unit
    ensures i <= m ==> KraftSum(s[i := v], m, unit) == KraftSum(s, m, unit) + (v - s[i]) * Pow2(unit - i)
    ensures i > m ==> KraftSum(s[i := v], m, unit) == KraftSum(s, m, unit)
  {
    if m > 0 {
      KraftUpdate(s, i, v, m - 1, unit);
      if i == m { Distribute(v, s[i], Pow2(unit - i)); }
    }
  }

  lemma Distribute(a: int, b: int, p: int)
    ensures (a - b) * p == a * p - b * p
  {
  }

  lemma MulNonNeg(a: int, p: int)
    requires a >= 0 && p >= 0
    ensures a * p >= 0
  {
  }

  /** With no shorter code, all that is counted has m bits. */
  lemma {:induction false} NoneShorter(s: seq<int>, m: nat, unit: nat)
    requires m < |s| && m <= unit
    requires forall i :: 1 <= i <= m ==> s[i] == 0
    ensures KraftSum(s, m, unit) == 0 && Total(s, m) == 0
  {
    if m > 0 { NoneShorter(s, m - 1, unit); }
  }

  /** Refining the unit scales the sum. */
  lemma {:induction false} KraftScale(s: seq<int>, m: nat, unit: nat, extra: nat)
    requires m < |s| && m <= unit
    ensures KraftSum(s, m, unit + extra) == KraftSum(s, m, unit) * Pow2(extra)
  {
    if m > 0 {
      KraftScale(s, m - 1, unit, extra);
      Pow2Add(unit - m, extra);
      ScaleStep(KraftSum(s, m - 1, unit), s[m], Pow2(unit - m), Pow2(extra));
    }
  }

  lemma ScaleStep(k: int, c: int, p: int, e: int)
    ensures (k + c * p) * e == k * e + c * (p * e)
  {
    assert (c * p) * e == c * (p * e);
  }

  /** Codes longer than max count for at most half a max-bit code each. */
  lemma {:induction false} LongCodesAreSmall(s: seq<int>, max: nat, m: nat)
    requires Counts(s) && 1 <= max <= m < |s|
    ensures 0 <= KraftSum(s, m, 32) - KraftSum(s, max, 32) <= (Total(s, m) - Total(s, max)) * Pow2(32 - max)
    ensures 0 <= Total(s, m) - Total(s, max)
  {
    hide Pow2;
    if m > max {
      LongCodesAreSmall(s, max, m - 1);
      Pow2Mono(32 - m, 32 - max);
      LongStep(KraftSum(s, m - 1, 32) - KraftSum(s, max, 32), Total(s, m - 1) - Total(s, max), s[m],
               Pow2(32 - m), Pow2(32 - max));
    }
  }

  lemma MulMono(c: int, p: int, q: int)
    requires 0 <= c && 0 <= p <= q
    ensures 0 <= c * p <= c * q
  {
    assert c * q == c * p + c * (q - p);
    MulNonNeg(c, q - p);
  }

  lemma LongStep(k: int, t: int, c: int, p: int, q: int)
    requires 0 <= k <= t * q && 0 <= c && 0 <= p <= q
    ensures 0 <= k + c * p <= (t + c) * q
  {
    MulMono(c, p, q);
    assert (t + c) * q == t * q + c * q;
  }

  lemma CancelScale(a: int, b: int, e: int)
    requires e > 0 && a * e <= b * e
    ensures a <= b
  {
    assert a * e - b * e == (a - b) * e;
    assert a > b ==> (a - b) * e >= 1 * e by {
      if a > b { MulMono(e, 1, a - b); }
    }
  }

  /** A complete code: its Kraft sum is one. */
  ghost predicate Complete(s: seq<int>) {
    Counts(s) && KraftSum(s, 32, 32) == Pow2(32)
  }

  /** Folding the long codes into max bits overfills the code space, if anything, while the
      codes shorter than max still leave room. */
  lemma FoldingOverfills(s: seq<int>, max: nat)
    requires Complete(s) && 1 <= max <= 32
    ensures KraftSum(s, max, max) + (Total(s, 32) - Total(s, max)) >= Pow2(max)
    ensures KraftSum(s, max - 1, max) <= Pow2(max)
  {
    hide KraftSum, Total, Pow2;
    LongCodesAreSmall(s, max, 32);
    KraftScale(s, max, max, 32 - max);
    Pow2Add(max, 32 - max);
    var e, k, long := Pow2(32 - max), KraftSum(s, max, max), Total(s, 32) - Total(s, max);
    Distribute(k, -long, e);
    CancelScale(Pow2(max), k + long, e);
    CancelScale(k, Pow2(max), e);
    LastTerm(s, max);
  }

  lemma LastTerm(s: seq<int>, max: nat)
    requires Counts(s) && 1 <= max <= 32
    ensures KraftSum(s, max, max) == KraftSum(s, max - 1, max) + s[max]
    ensures Total(s, max) == Total(s, max - 1) + s[max]
  {
    assert Pow2(0) == 1;
  }

  /** Adds each longer count onto counts[max]; the longer counts themselves stay. */
  method Fold(counts: array<int>, max: nat)
    requires Counts(counts[..]) && 1 <= max <= 32
    modifies counts
    ensures counts[..] == old(counts[..])[max := old(Total(counts[..], 32)) - old(Total(counts[..], max - 1))]
  {
    ghost var s := counts[..];
    var i := max + 1;
    while i <= MAX_SUPPORTED
      invariant max + 1 <= i <= MAX_SUPPORTED + 1
      invariant counts[..] == s[max := Total(s, i - 1) - Total(s, max - 1)]
    {
      counts[max] := counts[max] + counts[i];
      i := i + 1;
    }
  }

  method SumUp(counts: array<int>, max: nat) returns (total: int)
    requires Counts(counts[..]) && 1 <= max <= 32
    ensures total == KraftSum(counts[..], max, max)
  {
    total := 0;
    var i := max;
    while i > 0
      invariant 0 <= i <= max
      invariant total == KraftSum(counts[..], max, max) - KraftSum(counts[..], i, max)
    {
      total := total + counts[i] * Pow2(max - i);
      i := i - 1;
    }
  }

  /** What the loop keeps: `total` is the Kraft sum of the codes up to max bits, still at
      least full, and the codes shorter than max leave room for the rest. */
  ghost predicate Overfull(s: seq<int>, max: nat, total: int, codes: int)
    requires 1 <= max <= 32
  {
    && Counts(s)
    && KraftSum(s, max, max) == total >= Pow2(max)
    && KraftSum(s, max - 1, max) <= Pow2(max)
    && Total(s, max) == codes <= Pow2(max)
  }

  lemma OverfullHasShorter(s: seq<int>, max: nat, total: int, codes: int)
    requires 1 <= max <= 32 && Overfull(s, max, total, codes) && total != Pow2(max)
    ensures Counts(s) && s[max] >= 1
    ensures exists i :: 1 <= i < max && s[i] > 0
  {
    LastTerm(s, max);
    if forall i :: 1 <= i < max ==> s[i] == 0 {
      NoneShorter(s, max - 1, max);
      assert false;
    }
  }

  /** Dropping one longest code and splitting a shorter one. */
  function Split(s: seq<int>, max: nat, i: nat): (r: seq<int>)
    requires 1 <= i < max < |s|
  {
    var t := s[max := s[max] - 1];
    var u := t[i := t[i] - 1];
    u[i + 1 := u[i + 1] + 2]
  }

  lemma SplitKeeps(s: seq<int>, max: nat, i: nat, total: int, codes: int)
    requires 1 <= i < max <= 32 && Overfull(s, max, total, codes) && total != Pow2(max) && s[i] > 0
    ensures Overfull(Split(s, max, i), max, total - 1, codes)
  {
    hide KraftSum, Total;
    OverfullHasShorter(s, max, total, codes);
    var t := s[max := s[max] - 1];
    var u := t[i := t[i] - 1];
    KraftUpdate(s, max, s[max] - 1, max, max);
    KraftUpdate(s, max, s[max] - 1, max - 1, max);
    KraftUpdate(t, i, t[i] - 1, max, max);
    KraftUpdate(t, i, t[i] - 1, max - 1, max);
    KraftUpdate(u, i + 1, u[i + 1] + 2, max, max);
    KraftUpdate(u, i + 1, u[i + 1] + 2, max - 1, max);
    TotalUpdate(s, max, s[max] - 1, max);
    TotalUpdate(t, i, t[i] - 1, max);
    TotalUpdate(u, i + 1, u[i + 1] + 2, max);
    assert Pow2(max - i) == 2 * Pow2(max - (i + 1));
  }

  // ---------------------------------------------------------------- the lengths behind the counts

  /** How many of the lengths are at most m. */
  function CountUpTo(ls: seq<nat>, m: nat): (n: nat)
    ensures n <= |ls|
  {
    if ls == [] then 0 else CountUpTo(ls[..|ls| - 1], m) + if ls[|ls| - 1] <= m then 1 else 0
  }

  function KraftUpTo(ls: seq<nat>, m: nat, unit: nat): (k: nat)
    requires m <= unit
  {
    if ls == [] then 0 else KraftUpTo(ls[..|ls| - 1], m, unit) + if ls[|ls| - 1] <= m then Pow2(unit - ls[|ls| - 1]) else 0
  }

  lemma {:induction false} UpToNext(ls: seq<nat>, m: nat, unit: nat)
    requires 1 <= m <= unit
    ensures CountUpTo(ls, m) == CountUpTo(ls, m - 1) + CountOf(ls, m)
    ensures KraftUpTo(ls, m, unit) == KraftUpTo(ls, m - 1, unit) + CountOf(ls, m) * Pow2(unit - m)
  {
    hide Pow2;
    if ls != [] {
      UpToNext(ls[..|ls| - 1], m, unit);
      if ls[|ls| - 1] == m { OneTimes(CountOf(ls[..|ls| - 1], m), Pow2(unit - m)); }
    }
  }

  lemma OneTimes(n: nat, p: nat)
    ensures (n + 1) * p == n * p + p
  {
  }

  lemma {:induction false} NoneUpTo(ls: seq<nat>, unit: nat)
    requires forall i :: 0 <= i < |ls| ==> ls[i] >= 1
    ensures CountUpTo(ls, 0) == 0 && KraftUpTo(ls, 0, unit) == 0
  {
    if ls != [] { NoneUpTo(ls[..|ls| - 1], unit); }
  }

  lemma {:induction false} SumsUpTo(ls: seq<nat>, s: seq<int>, max: nat, m: nat, unit: nat)
    requires Matches(ls, s, max) && m <= max <= unit
    ensures Total(s, m) == CountUpTo(ls, m) && KraftSum(s, m, unit) == KraftUpTo(ls, m, unit)
  {
    hide CountUpTo, KraftUpTo, CountOf, Pow2, Falls;
    if m == 0 {
      NoneUpTo(ls, unit);
    } else {
      SumsUpTo(ls, s, max, m - 1, unit);
      UpToNext(ls, m, unit);
    }
  }

  lemma {:induction false} AllUpTo(ls: seq<nat>, max: nat, n: nat)
    requires Between(ls, max) && n <= |ls|
    ensures CountUpTo(ls[..n], max) == n && KraftUpTo(ls[..n], max, max) == Gain(ls, max, n) + n
  {
    if n > 0 {
      AllUpTo(ls, max, n - 1);
      assert ls[..n][..n - 1] == ls[..n - 1];
    }
  }

  /** The counts' sums are the lengths'. */
  lemma CountsAre(ls: seq<nat>, s: seq<int>, max: nat)
    requires Matches(ls, s, max)
    ensures Total(s, max) == |ls| && KraftSum(s, max, max) == Space(ls, max, 0)
  {
    hide CountUpTo, KraftUpTo, Gain, Space, Total, KraftSum;
    SumsUpTo(ls, s, max, max, max);
    AllUpTo(ls, max, |ls|);
    assert ls[..|ls|] == ls;
    SpaceGain(ls, max, |ls|);
    NoSpace(ls, max);
  }

  lemma NoSpace(ls: seq<nat>, max: nat)
    requires Between(ls, max)
    ensures Space(ls, max, |ls|) == 0
  {
  }

  /** The codes of at most m bits are the last so many. */
  lemma {:induction false} ShortestLast(ls: seq<nat>, m: nat, k: nat)
    requires Falls(ls) && k < |ls|
    ensures ls[k] <= m <==> k >= |ls| - CountUpTo(ls, m)
  {
    var n := |ls| - 1;
    if ls[n] > m {
      NoneThatShort(ls[..n], m);
    } else if k < n {
      ShortestLast(ls[..n], m, k);
    }
  }

  lemma {:induction false} NoneThatShort(ls: seq<nat>, m: nat)
    requires forall i :: 0 <= i < |ls| ==> ls[i] > m
    ensures CountUpTo(ls, m) == 0
  {
    if ls != [] { NoneThatShort(ls[..|ls| - 1], m); }
  }

  /** Where the codes of length i stand. */
  lemma LengthAt(ls: seq<nat>, s: seq<int>, max: nat, i: nat, k: nat)
    requires Matches(ls, s, max) && 1 <= i <= max && |ls| - Total(s, i) <= k < |ls| - Total(s, i - 1)
    ensures k < |ls| ==> ls[k] == i
  {
    hide CountUpTo, KraftUpTo, Total, KraftSum, CountOf;
    SumsUpTo(ls, s, max, i, max);
    SumsUpTo(ls, s, max, i - 1, max);
    if k < |ls| {
      ShortestLast(ls, i, k);
      ShortestLast(ls, i - 1, k);
    }
  }

  lemma {:induction false} ClampCounts(ls: seq<nat>, max: nat, l: nat)
    requires 1 <= l <= max
    ensures CountOf(Clamp(ls, max), l) == if l < max then CountOf(ls, l) else |ls| - CountUpTo(ls, max - 1)
  {
    hide Clamp;
    if ls != [] {
      assert Clamp(ls, max)[..|ls| - 1] == Clamp(ls[..|ls| - 1], max);
      ClampCounts(ls[..|ls| - 1], max, l);
    }
  }

  lemma ClampFalls(ls: seq<nat>, max: nat)
    requires Between(ls, 32) && Falls(ls) && 1 <= max <= 32
    ensures Between(Clamp(ls, max), max) && Falls(Clamp(ls, max))
  {
  }

  /** Folding counts clamps lengths. */
  lemma FoldMatches(ls: seq<nat>, s: seq<int>, max: nat)
    requires Matches(ls, s, 32) && 1 <= max <= 32
    ensures Matches(Clamp(ls, max), s[max := Total(s, 32) - Total(s, max - 1)], max)
  {
    hide Clamp, CountOf, CountUpTo, Total, KraftSum, KraftUpTo, Falls;
    ClampFalls(ls, max);
    SumsUpTo(ls, s, 32, max - 1, 32);
    CountsAre(ls, s, 32);
    forall l | 1 <= l <= max
      ensures s[max := Total(s, 32) - Total(s, max - 1)][l] == CountOf(Clamp(ls, max), l)
    {
      ClampCounts(ls, max, l);
    }
  }

  lemma {:induction false} ScaleSpace(ls: seq<nat>, max: nat, n: nat)
    requires Between(ls, 32) && Between(Clamp(ls, max), max) && 1 <= max <= 32 && n <= |ls|
    requires forall i :: n <= i < |ls| ==> ls[i] <= max
    ensures Space(ls, 32, n) == Space(Clamp(ls, max), max, n) * Pow2(32 - max)
    decreases |ls| - n
  {
    hide Clamp, Pow2;
    if n < |ls| {
      ScaleSpace(ls, max, n + 1);
      Pow2Add(max - ls[n], 32 - max);
      ScaleStep(Space(Clamp(ls, max), max, n + 1), 1, Pow2(max - ls[n]), Pow2(32 - max));
    }
  }

  /** After folding, the codes shorter than max leave room, unless nothing is to be done. */
  lemma FoldRoom(ls: seq<nat>, max: nat)
    requires Between(ls, 32) && Falls(ls) && Space(ls, 32, 0) == Pow2(32) && 1 <= max <= 32
    requires Between(Clamp(ls, max), max)
    ensures Space(Clamp(ls, max), max, 0) != Pow2(max) ==>
            Space(Clamp(ls, max), max, CountOf(Clamp(ls, max), max)) < Pow2(max)
  {
    hide Clamp, CountOf, Space, Pow2, Gain, Falls;
    var t := Clamp(ls, max);
    var c := CountOf(t, max);
    ClampFalls(ls, max);
    CountsLongest(t, max);
    ClampShort(ls, max, c);
    ScaleSpace(ls, max, c);
    SpaceGain(ls, 32, c);
    Pow2Add(max, 32 - max);
    RoomLeft(Space(t, max, c), Pow2(max), Pow2(32 - max), c);
  }

  lemma ClampShort(ls: seq<nat>, max: nat, c: nat)
    requires Longest(Clamp(ls, max), max, c)
    ensures c <= |ls| && forall i :: c <= i < |ls| ==> ls[i] <= max
  {
  }

  lemma RoomLeft(a: nat, b: nat, u: nat, c: nat)
    requires u >= 1 && a * u + c <= b * u
    ensures c == 0 && a * u == b * u ==> a == b
    ensures c > 0 ==> a < b
    ensures a <= b
  {
    if a >= b { MulMono(u, b, a); }
    if a > b { MulMono(u, b + 1, a); }
  }

  lemma LongestUnique(ls: seq<nat>, max: nat, a: nat, b: nat)
    requires Longest(ls, max, a) && Longest(ls, max, b)
    ensures a == b
  {
    assert a < |ls| ==> ls[a] < max;
    assert b < |ls| ==> ls[b] < max;
  }

  /** A step leaves the shorter codes no more space than before. */
  lemma StepRoom(ls: seq<nat>, max: nat, c: nat)
    requires Between(ls, max) && Falls(ls) && Longest(ls, max, c) && 1 <= c < |ls|
    ensures Between(Step(ls, c), max) && Space(Step(ls, c), max, CountOf(Step(ls, c), max)) <= Space(ls, max, c)
  {
    hide CountOf;
    var r := Step(ls, c);
    StepFalls(ls, max, c);
    CountsLongest(r, max);
    SpaceSame(ls, r, max, c + 1);
    LongestUnique(r, max, CountOf(r, max), if ls[c] + 1 == max then c + 1 else c - 1);
    assert Pow2(max - ls[c]) == 2 * Pow2(max - (ls[c] + 1));
  }

  /** What the limiting loop keeps of the lengths: they match the counts, only what limiting may
      change has changed, and as long as there is too much the shorter codes leave room. */
  ghost predicate Limiting(ls: seq<nat>, r: seq<nat>, counts: seq<int>, max: nat, total: int)
    requires 1 <= max
  {
    && |r| == |ls| && Matches(r, counts, max) && Between(Clamp(ls, max), max) && Limited(Clamp(ls, max), r, max)
    && Space(r, max, 0) == total
    && (total > Pow2(max) ==> Space(r, max, CountOf(r, max)) < Pow2(max))
  }

  lemma StartLimiting(ls: seq<nat>, s: seq<int>, max: nat)
    requires 1 <= max <= 32 && Matches(ls, s, 32) && Complete(s)
    ensures var t := s[max := Total(s, 32) - Total(s, max - 1)];
            Limiting(ls, Clamp(ls, max), t, max, KraftSum(t, max, max))
  {
    hide KraftSum, Total, Pow2, Space, CountOf, Falls, Clamp;
    FoldMatches(ls, s, max);
    CountsAre(ls, s, 32);
    CountsAre(Clamp(ls, max), s[max := Total(s, 32) - Total(s, max - 1)], max);
    FoldRoom(ls, max);
    ClampSize(ls, max);
  }

  lemma ClampSize(ls: seq<nat>, max: nat)
    ensures |Clamp(ls, max)| == |ls|
  {
  }

  lemma KeepLimiting(ls: seq<nat>, r: seq<nat>, s: seq<int>, max: nat, i: nat, total: int)
    requires 1 <= i < max <= 32 && |s| == 33 && Limiting(ls, r, s, max, total) && total > Pow2(max) && s[max] >= 1
    requires s[i] > 0 && forall j :: i < j < max ==> s[j] == 0
    ensures 1 <= CountOf(r, max) < |r| && Limiting(ls, Step(r, CountOf(r, max)), Split(s, max, i), max, total - 1)
  {
    hide Space, CountOf, Falls, Clamp, Pow2, Limited;
    var c := CountOf(r, max);
    NextLongest(r, s, max, i);
    CountsLongest(r, max);
    StepMatches(r, s, Split(s, max, i), max, i);
    StepFalls(r, max, c);
    StepSpace(r, max, c);
    StepRoom(r, max, c);
    StepSpreads(Clamp(ls, max), r, max, c);
  }

  /** One round of the limiting loop: drop a longest code, then split the longest shorter one. */
  method SplitOne(counts: array<int>, max: nat, ghost total: int, ghost codes: int, ghost ls: seq<nat>, ghost r: seq<nat>)
    returns (ghost r': seq<nat>)
    requires 1 <= max <= 32 && Overfull(counts[..], max, total, codes) && total != Pow2(max)
    requires Limiting(ls, r, counts[..], max, total)
    modifies counts
    ensures Overfull(counts[..], max, total - 1, codes) && Limiting(ls, r', counts[..], max, total - 1)
    ensures forall i :: max < i < counts.Length ==> counts[i] == old(counts[i])
  {
    hide KraftSum, Total, Overfull, Limiting;
    ghost var before := counts[..];
    OverfullHasShorter(before, max, total, codes);
    OverfullIsMore(before, max, total, codes);
    var i := max - 1;
    counts[max] := counts[max] - 1;
    while i > 0 && counts[i] == 0
      invariant 0 <= i < max
      invariant forall j :: i < j < max ==> before[j] == 0
    {
      i := i - 1;
    }
    assert before[i] > 0;
    counts[i] := counts[i] - 1;
    counts[i + 1] := counts[i + 1] + 2;
    assert counts[..] == Split(before, max, i);
    SplitKeeps(before, max, i, total, codes);
    KeepLimiting(ls, r, before, max, i, total);
    r' := Step(r, CountOf(r, max));
  }

  lemma OverfullIsMore(s: seq<int>, max: nat, total: int, codes: int)
    requires 1 <= max <= 32 && Overfull(s, max, total, codes) && total != Pow2(max)
    ensures |s| == 33 && total > Pow2(max)
  {
  }

  /** tdefl_huffman_enforce_max_code_size, for the code lengths ls. */
  method Enforce(counts: array<int>, codes: nat, max: nat, ghost ls: seq<nat>) returns (ghost r: seq<nat>)
    requires 1 <= max <= 32 && Counts(counts[..]) && Total(counts[..], 32) == codes <= Pow2(max)
    requires codes > 1 ==> Complete(counts[..])
    requires |ls| == codes && Matches(ls, counts[..], 32)
    modifies counts
    ensures codes <= 1 ==> counts[..] == old(counts[..])
    ensures codes > 1 ==>
      Counts(counts[..]) && KraftSum(counts[..], max, max) == Pow2(max) && Total(counts[..], max) == codes
    ensures codes > 1 ==>
      |r| == codes && Matches(r, counts[..], max) && Between(Clamp(ls, max), max) && Limited(Clamp(ls, max), r, max)
    ensures codes > 1 && Between(ls, max) ==> r == ls
    ensures forall i :: max < i < counts.Length ==> counts[i] == old(counts[i])
  {
    r := ls;
    if codes <= 1 { return; }
    ghost var s := counts[..];
    Fold(counts, max);
    FoldIsOverfull(s, max, codes);
    StartLimiting(ls, s, max);
    r := Clamp(ls, max);
    var total := SumUp(counts, max);
    if Between(ls, max) { FittingTotal(ls, s, counts[..], max, total); }
    hide KraftSum, Total, Complete, Limiting, Clamp, Matches, CountOf;
    while total != Pow2(max)
      invariant Overfull(counts[..], max, total, codes) && Limiting(ls, r, counts[..], max, total)
      invariant Between(ls, max) ==> r == ls && total == Pow2(max)
      invariant forall i :: max < i < counts.Length ==> counts[i] == s[i]
      decreases total - Pow2(max)
    {
      r := SplitOne(counts, max, total, codes, ls, r);
      total := total - 1;
    }
    LimitingEnds(ls, r, counts[..], max, total);
  }

  /** Lengths that fit already fill the space, so that none is changed. */
  lemma FittingTotal(ls: seq<nat>, s: seq<int>, counts: seq<int>, max: nat, total: int)
    requires 1 <= max <= 32 && Matches(ls, s, 32) && Complete(s) && Between(ls, max)
    requires Limiting(ls, Clamp(ls, max), counts, max, total)
    ensures Clamp(ls, max) == ls && total == Pow2(max)
  {
    hide KraftSum, Total, Pow2, Space, CountOf, Falls, Clamp;
    CountsAre(ls, s, 32);
    FittingFills(ls, max, 32);
  }

  lemma LimitingEnds(ls: seq<nat>, r: seq<nat>, counts: seq<int>, max: nat, total: int)
    requires 1 <= max && Limiting(ls, r, counts, max, total)
    ensures |r| == |ls| && Matches(r, counts, max) && Between(Clamp(ls, max), max) && Limited(Clamp(ls, max), r, max)
  {
  }

  lemma FoldIsOverfull(s: seq<int>, max: nat, codes: nat)
    requires 1 <= max <= 32 && Complete(s) && Total(s, 32) == codes <= Pow2(max)
    ensures var t := s[max := Total(s, 32) - Total(s, max - 1)];
            Overfull(t, max, KraftSum(t, max, max), codes)
  {
    hide KraftSum, Total, Pow2;
    var v := Total(s, 32) - Total(s, max - 1);
    var t := s[max := v];
    FoldingOverfills(s, max);
    LastTerm(s, max);
    LongCodesAreSmall(s, max, 32);
    KraftUpdate(s, max, v, max, max);
    KraftUpdate(s, max, v, max - 1, max);
    TotalUpdate(s, max, v, max);
    PowZero();
  }

  lemma PowZero()
    ensures Pow2(0) == 1
  {
  }
}
