/** What limiting the code lengths costs: which codes the limiting makes longer, and that together
    they weigh little. Lengths are taken in order of rising weight, so longest first. */
module LimitSpread {
  import opened Bits
  import opened PrefixCost

  ghost predicate Falls(ls: seq<nat>) {
    forall i, j :: 0 <= i <= j < |ls| ==> ls[i] >= ls[j]
  }

  ghost predicate Between(ls: seq<nat>, max: nat) {
    forall i :: 0 <= i < |ls| ==> 1 <= ls[i] <= max
  }

  /** The code space that the first n codes would give back if each had max bits. */
  function Gain(ls: seq<nat>, max: nat, n: nat): (g: nat)
    requires Between(ls, max) && n <= |ls|
  {
    if n == 0 then 0 else Gain(ls, max, n - 1) + (Pow2(max - ls[n - 1]) - 1)
  }

  /** The code space of all codes from n on. */
  function Space(ls: seq<nat>, max: nat, n: nat): (g: nat)
    requires Between(ls, max) && n <= |ls|
    decreases |ls| - n
  {
    if n == |ls| then 0 else Pow2(max - ls[n]) + Space(ls, max, n + 1)
  }

  /** r is what limiting may have made of ls: only the first p codes and the next have changed, the
      first p give back less than was too much, and the next is not too short. */
  ghost predicate Spreads(ls: seq<nat>, r: seq<nat>, max: nat, p: nat) {
    && Between(ls, max) && Between(r, max) && |r| == |ls| && p < |ls|
    && (forall i :: p < i < |ls| ==> r[i] == ls[i])
    && Gain(ls, max, p) + Pow2(max) <= Space(ls, max, 0)
    && Pow2(max - ls[p]) <= p
  }

  ghost predicate Limited(ls: seq<nat>, r: seq<nat>, max: nat) {
    r == ls || exists p: nat :: Spreads(ls, r, max, p)
  }

  // ---------------------------------------------------------------- one step

  /** Dropping one of c longest codes and splitting the longest shorter one. */
  function Step(ls: seq<nat>, c: nat): (r: seq<nat>)
    requires 1 <= c < |ls|
  {
    ls[c - 1 := ls[c] + 1][c := ls[c] + 1]
  }

  /** Just the first c codes have max bits. */
  ghost predicate Longest(ls: seq<nat>, max: nat, c: nat) {
    c <= |ls| && (forall i :: 0 <= i < c ==> ls[i] == max) && (forall i :: c <= i < |ls| ==> ls[i] < max)
  }

  lemma {:induction false} SpaceSplit(ls: seq<nat>, max: nat, n: nat, m: nat)
    requires Between(ls, max) && n <= m <= |ls|
    requires forall i :: n <= i < m ==> ls[i] == max
    ensures Space(ls, max, n) == m - n + Space(ls, max, m)
    decreases m - n
  {
    if n < m {
      assert Pow2(0) == 1;
      SpaceSplit(ls, max, n + 1, m);
    }
  }

  lemma {:induction false} SpaceSame(ls: seq<nat>, r: seq<nat>, max: nat, n: nat)
    requires Between(ls, max) && Between(r, max) && |r| == |ls| && n <= |ls| && forall i :: n <= i < |ls| ==> r[i] == ls[i]
    ensures Space(r, max, n) == Space(ls, max, n)
    decreases |ls| - n
  {
    if n < |ls| { SpaceSame(ls, r, max, n + 1); }
  }

  lemma {:induction false} SpaceGain(ls: seq<nat>, max: nat, n: nat)
    requires Between(ls, max) && n <= |ls|
    ensures Space(ls, max, 0) == Gain(ls, max, n) + n + Space(ls, max, n)
  {
    if n > 0 { SpaceGain(ls, max, n - 1); }
  }

  /** Codes of at most k bits take up whole units of 2^(max - k). */
  lemma {:induction false} SpaceUnits(ls: seq<nat>, max: nat, n: nat, k: nat) returns (q: nat)
    requires Between(ls, max) && n <= |ls| && k <= max && forall i :: n <= i < |ls| ==> ls[i] <= k
    ensures Space(ls, max, n) == q * Pow2(max - k)
    decreases |ls| - n
  {
    if n == |ls| {
      q := 0;
    } else {
      hide Pow2;
      var t := SpaceUnits(ls, max, n + 1, k);
      Pow2Add(max - k, k - ls[n]);
      q := Pow2(k - ls[n]) + t;
      Distribute(Pow2(k - ls[n]), t, Pow2(max - k));
    }
  }

  /** If codes of at most k bits leave room, they leave a whole code of k bits. */
  lemma LeavesOne(ls: seq<nat>, max: nat, n: nat, k: nat)
    requires Between(ls, max) && n <= |ls| && k <= max && forall i :: n <= i < |ls| ==> ls[i] <= k
    requires Space(ls, max, n) < Pow2(max)
    ensures Space(ls, max, n) + Pow2(max - k) <= Pow2(max)
  {
    hide Space, Pow2;
    var q := SpaceUnits(ls, max, n, k);
    Pow2Add(max - k, k);
    WholeUnits(q, Pow2(k), Pow2(max - k));
  }

  lemma WholeUnits(q: nat, r: nat, u: nat)
    requires q * u < r * u
    ensures q * u + u <= r * u
  {
    if q >= r { MulLe(r, q, u); } else { MulLe(q + 1, r, u); }
  }

  lemma StepFalls(ls: seq<nat>, max: nat, c: nat)
    requires Between(ls, max) && Falls(ls) && Longest(ls, max, c) && 1 <= c < |ls|
    ensures Between(Step(ls, c), max) && Falls(Step(ls, c))
  {
  }

  lemma {:induction false} StepSpace(ls: seq<nat>, max: nat, c: nat)
    requires Between(ls, max) && Longest(ls, max, c) && 1 <= c < |ls| && Between(Step(ls, c), max)
    ensures Space(Step(ls, c), max, 0) + 1 == Space(ls, max, 0)
  {
    var r := Step(ls, c);
    SpaceSame(ls, r, max, c + 1);
    SpaceSplit(ls, max, 0, c - 1);
    SpaceSplit(r, max, 0, c - 1);
    assert Pow2(0) == 1;
    assert Pow2(max - ls[c]) == 2 * Pow2(max - (ls[c] + 1));
  }

  /** A step keeps to what limiting may do, as long as there is too much. */
  lemma StepSpreads(ls0: seq<nat>, ls: seq<nat>, max: nat, c: nat)
    requires Between(ls0, max) && Falls(ls) && Between(ls, max) && Limited(ls0, ls, max) && |ls| == |ls0|
    requires Longest(ls, max, c) && 1 <= c < |ls| && Space(ls, max, c) < Pow2(max) < Space(ls, max, 0)
    ensures Limited(ls0, Step(ls, c), max)
  {
    var r := Step(ls, c);
    StepFalls(ls, max, c);
    if ls != ls0 {
      var p: nat :| Spreads(ls0, ls, max, p);
      if c <= p {
        assert Spreads(ls0, r, max, p);
      } else {
        NewSpread(ls0, ls, max, c);
      }
    } else {
      NewSpread(ls0, ls, max, c);
    }
  }

  lemma FallsBelow(ls: seq<nat>, c: nat)
    requires Falls(ls) && c < |ls|
    ensures forall i :: c <= i < |ls| ==> ls[i] <= ls[c]
  {
  }

  lemma NewSpread(ls0: seq<nat>, ls: seq<nat>, max: nat, c: nat)
    requires Between(ls0, max) && Falls(ls) && Between(ls, max) && |ls| == |ls0|
    requires Longest(ls, max, c) && 1 <= c < |ls| && Space(ls, max, c) < Pow2(max) < Space(ls, max, 0)
    requires forall i :: c <= i < |ls| ==> ls[i] == ls0[i]
    requires Between(Step(ls, c), max)
    ensures Spreads(ls0, Step(ls, c), max, c)
  {
    hide Space, Gain, Pow2, Falls;
    FallsBelow(ls, c);
    SpaceSplit(ls, max, 0, c);
    SpaceSame(ls, ls0, max, c);
    SpaceGain(ls0, max, c);
    LeavesOne(ls, max, c, ls[c]);
  }

  // ---------------------------------------------------------------- what it costs

  /** How much longer the first n codes would be with max bits each, weighted. */
  function Extra(ws: seq<nat>, ls: seq<nat>, max: nat, n: nat): (e: nat)
    requires |ws| == |ls| && Between(ls, max) && n <= |ls|
  {
    if n == 0 then 0 else Extra(ws, ls, max, n - 1) + ws[n - 1] * (max - ls[n - 1])
  }

  lemma {:induction false} CostByExtra(ws: seq<nat>, ls: seq<nat>, r: seq<nat>, max: nat, n: nat)
    requires |ws| == |ls| == |r| && Between(ls, max) && Between(r, max) && n <= |ls|
    requires forall i :: n <= i < |ls| ==> r[i] == ls[i]
    ensures Cost(ws, r) <= Cost(ws, ls) + Extra(ws, ls, max, n)
    decreases n
  {
    hide Cost;
    if n == 0 {
      assert r == ls;
    } else {
      var m := r[n - 1 := ls[n - 1]];
      CostByExtra(ws, ls, m, max, n - 1);
      CostUpdate(ws, r, n - 1, ls[n - 1]);
      Product(ws[n - 1], r[n - 1], ls[n - 1], max);
    }
  }

  lemma Product(w: nat, r: nat, l: nat, max: nat)
    requires r <= max && l <= max
    ensures w * r <= w * l + w * (max - l)
  {
    assert w * l + w * (max - l) == w * max;
    assert w * max == w * r + w * (max - r);
  }

  // ---------------------------------------------------------------- folding

  function Clamp(ls: seq<nat>, max: nat): (r: seq<nat>)
    ensures |r| == |ls| && forall i :: 0 <= i < |r| ==> r[i] == if ls[i] < max then ls[i] else max
  {
    seq(|ls|, i requires 0 <= i < |ls| => if ls[i] < max then ls[i] else max)
  }

  /** After folding, too much space is taken by less than the number of codes. */
  lemma {:induction false} ClampSpace(ls: seq<nat>, max: nat, unit: nat, n: nat)
    requires Between(ls, unit) && 1 <= max <= unit && n <= |ls|
    ensures Between(Clamp(ls, max), max)
    ensures Space(Clamp(ls, max), max, n) * Pow2(unit - max) <= Space(ls, unit, n) + (|ls| - n) * Pow2(unit - max)
    decreases |ls| - n
  {
    hide Clamp, Pow2;
    if n < |ls| {
      ClampSpace(ls, max, unit, n + 1);
      ClampOne(ls[n], max, unit);
      Distribute(Pow2(max - Clamp(ls, max)[n]), Space(Clamp(ls, max), max, n + 1), Pow2(unit - max));
      Distribute(1, |ls| - n - 1, Pow2(unit - max));
    }
  }

  lemma ClampOne(l: nat, max: nat, unit: nat)
    requires 1 <= l <= unit && 1 <= max <= unit
    ensures Pow2(max - if l < max then l else max) * Pow2(unit - max) <= Pow2(unit - l) + 1 * Pow2(unit - max)
  {
    if l < max {
      Pow2Add(max - l, unit - max);
    } else {
      assert Pow2(0) == 1;
    }
  }

  lemma FoldedSpace(ls: seq<nat>, max: nat, unit: nat)
    requires Between(ls, unit) && 1 <= max <= unit
    requires Space(ls, unit, 0) <= Pow2(unit)
    ensures Between(Clamp(ls, max), max) && Space(Clamp(ls, max), max, 0) <= Pow2(max) + |ls|
  {
    hide Clamp, Pow2, Space, Between;
    ClampSpace(ls, max, unit, 0);
    Pow2Add(max, unit - max);
    InUnits(Space(Clamp(ls, max), max, 0), Pow2(max), |ls|, Pow2(unit - max), Space(ls, unit, 0));
  }

  /** Lengths within the limit take the same part of the space in units of the limit. */
  lemma {:induction false} FittingSpace(ls: seq<nat>, max: nat, unit: nat, n: nat)
    requires Between(ls, max) && 1 <= max <= unit && n <= |ls|
    ensures Space(ls, unit, n) == Space(ls, max, n) * Pow2(unit - max)
    decreases |ls| - n
  {
    hide Pow2;
    if n < |ls| {
      FittingSpace(ls, max, unit, n + 1);
      Pow2Add(max - ls[n], unit - max);
      Distribute(Pow2(max - ls[n]), Space(ls, max, n + 1), Pow2(unit - max));
    }
  }

  lemma FittingFills(ls: seq<nat>, max: nat, unit: nat)
    requires Between(ls, max) && 1 <= max <= unit && Space(ls, unit, 0) == Pow2(unit)
    ensures Clamp(ls, max) == ls && Space(ls, max, 0) == Pow2(max)
  {
    hide Pow2, Space;
    FittingSpace(ls, max, unit, 0);
    Pow2Add(max, unit - max);
    MulLeCancel(Space(ls, max, 0), Pow2(max), Pow2(unit - max));
    MulLeCancel(Pow2(max), Space(ls, max, 0), Pow2(unit - max));
  }

  lemma InUnits(x: nat, m: nat, n: nat, u: nat, k: nat)
    requires u >= 1 && x * u <= k + n * u && k <= m * u
    ensures x <= m + n
  {
    Distribute(m, n, u);
    MulLeCancel(x, m + n, u);
  }

  // ---------------------------------------------------------------- lengths as counts

  function CountOf(ls: seq<nat>, l: nat): (n: nat)
    ensures n <= |ls|
  {
    if ls == [] then 0 else CountOf(ls[..|ls| - 1], l) + if ls[|ls| - 1] == l then 1 else 0
  }

  /** counts says how many of the lengths are l, for each l. */
  ghost predicate Matches(ls: seq<nat>, counts: seq<int>, max: nat) {
    && Between(ls, max) && Falls(ls) && max < |counts|
    && forall l :: 1 <= l <= max ==> counts[l] == CountOf(ls, l)
  }

  lemma {:induction false} CountUpdate(ls: seq<nat>, i: nat, v: nat, l: nat)
    requires i < |ls|
    ensures CountOf(ls[i := v], l) == CountOf(ls, l) + (if v == l then 1 else 0) - (if ls[i] == l then 1 else 0)
  {
    var n := |ls| - 1;
    if i < n {
      assert ls[i := v][..n] == ls[..n][i := v];
      CountUpdate(ls[..n], i, v, l);
    } else {
      assert ls[i := v][..n] == ls[..n];
    }
  }

  lemma {:induction false} CountNone(ls: seq<nat>, l: nat)
    ensures CountOf(ls, l) == 0 <==> l !in ls
  {
    if ls != [] {
      CountNone(ls[..|ls| - 1], l);
      assert ls == ls[..|ls| - 1] + [ls[|ls| - 1]];
    }
  }

  lemma {:induction false} CountAll(ls: seq<nat>, l: nat)
    requires forall i :: 0 <= i < |ls| ==> ls[i] == l
    ensures CountOf(ls, l) == |ls|
  {
    if ls != [] { CountAll(ls[..|ls| - 1], l); }
  }

  /** The longest come first, as many as are counted. */
  lemma {:induction false} CountsLongest(ls: seq<nat>, max: nat)
    requires Between(ls, max) && Falls(ls)
    ensures Longest(ls, max, CountOf(ls, max))
  {
    if ls != [] {
      var n := |ls| - 1;
      CountsLongest(ls[..n], max);
      if ls[n] == max {
        CountAll(ls[..n], max);
      }
    }
  }

  /** The longest code shorter than max. */
  lemma NextLongest(ls: seq<nat>, counts: seq<int>, max: nat, i: nat)
    requires Matches(ls, counts, max) && 1 <= i < max && counts[i] > 0
    requires forall j :: i < j < max ==> counts[j] == 0
    ensures var c := CountOf(ls, max); c < |ls| && ls[c] == i
  {
    hide CountOf;
    var c := CountOf(ls, max);
    CountsLongest(ls, max);
    CountNone(ls, i);
    var k :| 0 <= k < |ls| && ls[k] == i;
    assert k >= c;
    CountNone(ls, ls[c]);
    assert ls[c] in ls;
  }

  /** A step in terms of counts. */
  lemma StepMatches(ls: seq<nat>, counts: seq<int>, counts': seq<int>, max: nat, i: nat)
    requires Matches(ls, counts, max) && 1 <= i < max && |counts'| == |counts| && counts[max] >= 1
    requires CountOf(ls, max) < |ls| && ls[CountOf(ls, max)] == i
    requires forall l :: 1 <= l <= max ==>
               counts'[l] == counts[l] - (if l == max then 1 else 0) - (if l == i then 1 else 0) + (if l == i + 1 then 2 else 0)
    ensures Matches(Step(ls, CountOf(ls, max)), counts', max)
  {
    hide CountOf, Falls, Step, Longest;
    var c := CountOf(ls, max);
    CountsLongest(ls, max);
    StepFalls(ls, max, c);
    forall l | 1 <= l <= max
      ensures counts'[l] == CountOf(Step(ls, c), l)
    {
      StepCount(ls, max, c, i, l);
    }
  }

  lemma StepCount(ls: seq<nat>, max: nat, c: nat, i: nat, l: nat)
    requires Longest(ls, max, c) && 1 <= c < |ls| && ls[c] == i
    ensures CountOf(Step(ls, c), l)
         == CountOf(ls, l) - (if l == max then 1 else 0) - (if l == i then 1 else 0) + (if l == i + 1 then 2 else 0)
  {
    hide CountOf;
    CountUpdate(ls, c - 1, i + 1, l);
    CountUpdate(ls[c - 1 := i + 1], c, i + 1, l);
  }

}
