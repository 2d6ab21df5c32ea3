/** Limiting to fifteen bits makes a code of up to 288 symbols dearer by no more than one bit a
    use. */
module LimitCost {
  import opened Bits
  import opened PrefixCost
  import opened LimitSpread
  import opened HuffmanOptimal

  const MAX_BITS := 15

  /** No code shorter than the limit is heavier than its share of the total. */
  ghost predicate LightBelow(ws: seq<nat>, ls: seq<nat>, total: nat) {
    |ws| == |ls| && forall i :: 0 <= i < |ls| && 1 <= ls[i] < MAX_BITS ==> ws[i] * Growth(ls[i] - 1) <= total
  }

  lemma GrowthTable()
    ensures Growth(0) == 1 && Growth(1) == 2 && Growth(2) == 3 && Growth(3) == 5 && Growth(4) == 8 && Growth(5) == 13
    ensures Growth(6) == 21 && Growth(7) == 34 && Growth(8) == 55 && Growth(9) == 89 && Growth(10) == 144
    ensures Growth(11) == 233 && Growth(12) == 377 && Growth(13) == 610 && Growth(14) == 987
  {
    assert Growth(5) == 13 && Growth(6) == 21;
    assert Growth(9) == 89 && Growth(10) == 144;
  }

  /** A code that is lengthened gives back space in proportion. */
  lemma GainsEnough(l: nat)
    requires 1 <= l <= MAX_BITS
    ensures 540 * (MAX_BITS - l) <= Growth(l - 1) * (Pow2(MAX_BITS - l) - 1)
  {
    GrowthTable();
    Pow2Values();
    assert Pow2(0) == 1;
    hide Growth, Pow2;
  }

  /** The last code to be lengthened is not too short. */
  lemma LastIsLong(l: nat, n: nat)
    requires 1 <= l <= MAX_BITS && Pow2(MAX_BITS - l) < n <= 288
    ensures 540 * (MAX_BITS - l) <= 206 * Growth(l - 1)
  {
    GrowthTable();
    Pow2Values();
    assert Pow2(0) == 1;
    hide Growth, Pow2;
  }

  lemma Weigh(w: nat, a: nat, g: nat, b: nat, total: nat)
    requires a <= g * b && w * g <= total
    ensures w * a <= total * b
  {
    MulLe(a, g * b, w);
    assert w * (g * b) == (w * g) * b;
    MulLe(w * g, total, b);
  }

  lemma {:induction false} ExtraByGain(ws: seq<nat>, ls: seq<nat>, total: nat, n: nat)
    requires Between(ls, MAX_BITS) && LightBelow(ws, ls, total) && n <= |ls|
    ensures 540 * Extra(ws, ls, MAX_BITS, n) <= total * Gain(ls, MAX_BITS, n)
  {
    hide Growth, Pow2;
    if n > 0 {
      ExtraByGain(ws, ls, total, n - 1);
      var w, l := ws[n - 1], ls[n - 1];
      OneGain(w, l, total);
      AddOne(total, Gain(ls, MAX_BITS, n - 1), Pow2(MAX_BITS - l) - 1);
    }
  }

  lemma OneGain(w: nat, l: nat, total: nat)
    requires 1 <= l <= MAX_BITS && (l < MAX_BITS ==> w * Growth(l - 1) <= total)
    ensures 540 * (w * (MAX_BITS - l)) <= total * (Pow2(MAX_BITS - l) - 1)
  {
    if l < MAX_BITS {
      GainsEnough(l);
      hide Growth, Pow2;
      Weigh(w, 540 * (MAX_BITS - l), Growth(l - 1), Pow2(MAX_BITS - l) - 1, total);
      assert 540 * (w * (MAX_BITS - l)) == w * (540 * (MAX_BITS - l));
    } else {
      assert w * (MAX_BITS - l) == 0;
    }
  }

  lemma AddOne(t: nat, a: nat, b: nat)
    ensures t * (a + b) == t * a + t * b
  {
  }

  /** The limited lengths cost at most one bit more for each use. */
  lemma LimitedIsCheap(ws: seq<nat>, ls: seq<nat>, r: seq<nat>, total: nat)
    requires Between(ls, MAX_BITS) && LightBelow(ws, ls, total) && |ls| <= 288
    requires Limited(ls, r, MAX_BITS) && Space(ls, MAX_BITS, 0) <= Pow2(MAX_BITS) + |ls|
    ensures |r| == |ls| && Cost(ws, r) <= Cost(ws, ls) + total
  {
    hide Growth, Pow2, Cost, Space, Gain, Extra, Spreads, LightBelow, Between;
    LightShape(ws, ls, total);
    if r != ls {
      var p: nat :| Spreads(ls, r, MAX_BITS, p);
      SpreadShape(ls, r, p);
      SpreadIsLight(ws, ls, r, total, p);
      CostByExtra(ws, ls, r, MAX_BITS, p + 1);
    }
  }

  lemma LightShape(ws: seq<nat>, ls: seq<nat>, total: nat)
    requires LightBelow(ws, ls, total)
    ensures |ws| == |ls|
  {
  }

  lemma SpreadShape(ls: seq<nat>, r: seq<nat>, p: nat)
    requires Spreads(ls, r, MAX_BITS, p)
    ensures Between(r, MAX_BITS) && |r| == |ls| && p < |ls| && forall i :: p + 1 <= i < |ls| ==> r[i] == ls[i]
  {
  }

  lemma SpreadIsLight(ws: seq<nat>, ls: seq<nat>, r: seq<nat>, total: nat, p: nat)
    requires Between(ls, MAX_BITS) && LightBelow(ws, ls, total) && |ls| <= 288 && Spreads(ls, r, MAX_BITS, p)
    requires Space(ls, MAX_BITS, 0) <= Pow2(MAX_BITS) + |ls|
    ensures Extra(ws, ls, MAX_BITS, p + 1) <= total
  {
    hide Growth, Pow2, Space, Gain, Extra, LightBelow;
    LightShape(ws, ls, total);
    LightAt(ws, ls, total, p);
    ExtraByGain(ws, ls, total, p);
    ExtraNext(ws, ls, p);
    LastExtra(ws[p], ls[p], p, |ls|, total);
    TogetherOne(Extra(ws, ls, MAX_BITS, p), ws[p] * (MAX_BITS - ls[p]), total, Gain(ls, MAX_BITS, p));
  }

  lemma LightAt(ws: seq<nat>, ls: seq<nat>, total: nat, p: nat)
    requires LightBelow(ws, ls, total) && p < |ls|
    ensures 1 <= ls[p] < MAX_BITS ==> ws[p] * Growth(ls[p] - 1) <= total
  {
  }

  lemma TogetherOne(e: nat, last: nat, total: nat, gain: nat)
    requires 540 * e <= total * gain && gain <= 288 && 540 * last <= 206 * total
    ensures e + last <= total
  {
    MulLe(gain, 288, total);
  }

  lemma ExtraNext(ws: seq<nat>, ls: seq<nat>, p: nat)
    requires |ws| == |ls| && Between(ls, MAX_BITS) && p < |ls|
    ensures Extra(ws, ls, MAX_BITS, p + 1) == Extra(ws, ls, MAX_BITS, p) + ws[p] * (MAX_BITS - ls[p])
  {
  }

  lemma LastExtra(w: nat, l: nat, p: nat, n: nat, total: nat)
    requires 1 <= l <= MAX_BITS && Pow2(MAX_BITS - l) <= p < n <= 288
    requires l < MAX_BITS ==> w * Growth(l - 1) <= total
    ensures 540 * (w * (MAX_BITS - l)) <= 206 * total
  {
    hide Growth, Pow2;
    if l < MAX_BITS {
      LastIsLong(l, n);
      MulLe(540 * (MAX_BITS - l), 206 * Growth(l - 1), w);
      assert w * (206 * Growth(l - 1)) == 206 * (w * Growth(l - 1));
      assert w * (540 * (MAX_BITS - l)) == 540 * (w * (MAX_BITS - l));
    }
  }

  /** Folding makes a code cheaper, if anything. */
  lemma {:induction false} ClampCost(ws: seq<nat>, ls: seq<nat>, max: nat)
    requires |ws| == |ls|
    ensures Cost(ws, Clamp(ls, max)) <= Cost(ws, ls)
  {
    hide Clamp;
    if ls != [] {
      assert Clamp(ls, max)[1..] == Clamp(ls[1..], max);
      ClampCost(ws[1..], ls[1..], max);
      MulLe(Clamp(ls, max)[0], ls[0], ws[0]);
    }
  }
}
