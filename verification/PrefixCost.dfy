/** How cheap a prefix code can be: lower bounds on weighted lengths under Kraft's inequality,
    and how merging the two lightest items carries a bound over. */
module PrefixCost {
  import opened Bits

  function Without(s: seq<nat>, i: nat): (r: seq<nat>)
    requires i < |s|
    ensures |r| == |s| - 1
  {
    s[..i] + s[i + 1..]
  }

  /** Total weighted length. */
  function Cost(ws: seq<nat>, ls: seq<nat>): (c: nat)
    requires |ws| == |ls|
  {
    if ws == [] then 0 else ws[0] * ls[0] + Cost(ws[1..], ls[1..])
  }

  ghost predicate AllAtMost(ls: seq<nat>, unit: nat) {
    forall i :: 0 <= i < |ls| ==> ls[i] <= unit
  }

  /** Kraft sum in units of 2^-unit. */
  function Kraft(ls: seq<nat>, unit: nat): (k: nat)
    requires AllAtMost(ls, unit)
  {
    if ls == [] then 0 else Pow2(unit - ls[0]) + Kraft(ls[1..], unit)
  }

  /** The lengths can be those of a prefix code. */
  ghost predicate Codes(ls: seq<nat>) {
    exists unit: nat :: AllAtMost(ls, unit) && Kraft(ls, unit) <= Pow2(unit)
  }

  /** No prefix code for these weights costs less than c. */
  ghost predicate LowerBound(ws: seq<nat>, c: int) {
    forall ls: seq<nat> :: |ls| == |ws| && Codes(ls) ==> Cost(ws, ls) >= c
  }

  // ---------------------------------------------------------------- taking one item out

  lemma WithoutTail(s: seq<nat>, i: nat)
    requires 0 < i < |s|
    ensures Without(s, i)[1..] == Without(s[1..], i - 1) && Without(s, i)[0] == s[0]
  {
  }

  lemma {:induction false} CostWithout(ws: seq<nat>, ls: seq<nat>, i: nat)
    requires |ws| == |ls| && i < |ws|
    ensures Cost(ws, ls) == ws[i] * ls[i] + Cost(Without(ws, i), Without(ls, i))
  {
    if i == 0 {
      assert Without(ws, 0) == ws[1..] && Without(ls, 0) == ls[1..];
    } else {
      WithoutTail(ws, i);
      WithoutTail(ls, i);
      CostWithout(ws[1..], ls[1..], i - 1);
    }
  }

  lemma {:induction false} KraftWithout(ls: seq<nat>, unit: nat, i: nat)
    requires AllAtMost(ls, unit) && i < |ls|
    ensures Kraft(ls, unit) == Pow2(unit - ls[i]) + Kraft(Without(ls, i), unit)
  {
    if i == 0 {
      assert Without(ls, 0) == ls[1..];
    } else {
      WithoutTail(ls, i);
      KraftWithout(ls[1..], unit, i - 1);
    }
  }

  lemma {:induction false} CostAppend(ws: seq<nat>, ls: seq<nat>, w: nat, l: nat)
    requires |ws| == |ls|
    ensures Cost(ws + [w], ls + [l]) == Cost(ws, ls) + w * l
  {
    if ws == [] {
      assert Cost(([w])[1..], ([l])[1..]) == 0;
      assert ws + [w] == [w] && ls + [l] == [l];
    } else {
      assert (ws + [w])[1..] == ws[1..] + [w] && (ls + [l])[1..] == ls[1..] + [l];
      CostAppend(ws[1..], ls[1..], w, l);
    }
  }

  lemma {:induction false} KraftAppend(ls: seq<nat>, unit: nat, l: nat)
    requires AllAtMost(ls, unit) && l <= unit
    ensures AllAtMost(ls + [l], unit)
    ensures Kraft(ls + [l], unit) == Kraft(ls, unit) + Pow2(unit - l)
  {
    if ls == [] {
      assert ls + [l] == [l];
      assert Kraft([l][1..], unit) == 0;
    } else {
      assert (ls + [l])[1..] == ls[1..] + [l];
      KraftAppend(ls[1..], unit, l);
    }
  }

  // ---------------------------------------------------------------- giving the lightest the longest

  function Swap(ls: seq<nat>, i: nat, j: nat): (r: seq<nat>)
    requires i < |ls| && j < |ls|
    ensures |r| == |ls|
  {
    ls[i := ls[j]][j := ls[i]]
  }

  lemma {:induction false} KraftUpdate(ls: seq<nat>, unit: nat, i: nat, v: nat)
    requires AllAtMost(ls, unit) && i < |ls| && v <= unit
    ensures AllAtMost(ls[i := v], unit)
    ensures Kraft(ls[i := v], unit) + Pow2(unit - ls[i]) == Kraft(ls, unit) + Pow2(unit - v)
  {
    KraftWithout(ls, unit, i);
    KraftWithout(ls[i := v], unit, i);
    assert Without(ls[i := v], i) == Without(ls, i);
  }

  lemma {:induction false} CostUpdate(ws: seq<nat>, ls: seq<nat>, i: nat, v: nat)
    requires |ws| == |ls| && i < |ls|
    ensures Cost(ws, ls[i := v]) + ws[i] * ls[i] == Cost(ws, ls) + ws[i] * v
  {
    CostWithout(ws, ls, i);
    CostWithout(ws, ls[i := v], i);
    assert Without(ls[i := v], i) == Without(ls, i);
  }

  lemma SwapKraft(ls: seq<nat>, unit: nat, i: nat, j: nat)
    requires AllAtMost(ls, unit) && i < |ls| && j < |ls|
    ensures AllAtMost(Swap(ls, i, j), unit) && Kraft(Swap(ls, i, j), unit) == Kraft(ls, unit)
  {
    hide Kraft;
    KraftUpdate(ls, unit, i, ls[j]);
    KraftUpdate(ls[i := ls[j]], unit, j, ls[i]);
  }

  lemma SwapCost(ws: seq<nat>, ls: seq<nat>, i: nat, j: nat)
    requires |ws| == |ls| && i < |ls| && j < |ls| && ws[i] <= ws[j] && ls[i] <= ls[j]
    ensures Cost(ws, Swap(ls, i, j)) <= Cost(ws, ls)
  {
    hide Cost;
    if i == j {
      assert Swap(ls, i, j) == ls;
    } else {
      CostUpdate(ws, ls, i, ls[j]);
      CostUpdate(ws, ls[i := ls[j]], j, ls[i]);
      Rearrange(ws[i], ws[j], ls[i], ls[j]);
    }
  }

  lemma Rearrange(w: nat, x: nat, l: nat, m: nat)
    requires w <= x && l <= m
    ensures w * m + x * l <= w * l + x * m
  {
    assert (x - w) * (m - l) >= 0;
  }

  lemma {:induction false} LongestOf(ls: seq<nat>) returns (i: nat)
    requires ls != []
    ensures i < |ls| && AllAtMost(ls, ls[i])
  {
    if |ls| == 1 {
      i := 0;
    } else {
      i := LongestOf(ls[1..]);
      assert forall k :: 1 <= k < |ls| ==> ls[k] == ls[1..][k - 1];
      i := if ls[0] >= ls[i + 1] then 0 else i + 1;
    }
  }

  // ---------------------------------------------------------------- the unit does not matter

  lemma {:induction false} KraftScale(ls: seq<nat>, unit: nat, more: nat)
    requires AllAtMost(ls, unit)
    ensures AllAtMost(ls, unit + more) && Kraft(ls, unit + more) == Kraft(ls, unit) * Pow2(more)
  {
    if ls != [] {
      KraftScale(ls[1..], unit, more);
      Pow2Add(unit - ls[0], more);
      Distribute(Pow2(unit - ls[0]), Kraft(ls[1..], unit), Pow2(more));
    }
  }

  lemma Distribute(a: nat, b: nat, p: nat)
    ensures (a + b) * p == a * p + b * p
  {
  }

  lemma MulLe(x: nat, y: nat, p: nat)
    requires x <= y
    ensures x * p <= y * p
  {
  }

  lemma MulLeCancel(x: nat, y: nat, p: nat)
    requires p > 0 && x * p <= y * p
    ensures x <= y
  {
    assert x > y ==> x * p >= (y + 1) * p;
  }

  /** A unit as fine as the longest length will do. */
  lemma CodesAt(ls: seq<nat>, unit: nat)
    requires Codes(ls) && AllAtMost(ls, unit)
    ensures Kraft(ls, unit) <= Pow2(unit)
  {
    hide Kraft, Pow2;
    var u: nat :| AllAtMost(ls, u) && Kraft(ls, u) <= Pow2(u);
    if u <= unit {
      KraftScale(ls, u, unit - u);
      Pow2Add(u, unit - u);
      MulLe(Kraft(ls, u), Pow2(u), Pow2(unit - u));
    } else {
      KraftScale(ls, unit, u - unit);
      Pow2Add(unit, u - unit);
      MulLeCancel(Kraft(ls, unit), Pow2(unit), Pow2(u - unit));
    }
  }

  // ---------------------------------------------------------------- merging the two lightest

  ghost predicate Lightest(ws: seq<nat>, i: nat) {
    i < |ws| && forall k :: 0 <= k < |ws| ==> ws[i] <= ws[k]
  }

  /** Items i and, among the rest, j merged into one. */
  function Merged(ws: seq<nat>, i: nat, j: nat): (r: seq<nat>)
    requires i < |ws| && j < |ws| - 1
  {
    Without(Without(ws, i), j) + [ws[i] + Without(ws, i)[j]]
  }

  /** With length m for everything but one longest item, that item can have length m too. */
  lemma Shorten(rest: seq<nat>, m: nat, l: nat)
    requires AllAtMost(rest, m) && m <= l && Kraft(rest, l) + Pow2(0) <= Pow2(l)
    ensures Kraft(rest, m) + 1 <= Pow2(m)
  {
    hide Kraft, Pow2;
    KraftScale(rest, m, l - m);
    Pow2Add(m, l - m);
    if Kraft(rest, m) >= Pow2(m) { MulLe(Pow2(m), Kraft(rest, m), Pow2(l - m)); }
  }

  /** The best lengths for the two lightest are the two longest, and may as well be equal. */
  lemma MergeCost(ws: seq<nat>, ls: seq<nat>, i: nat, j: nat, c: int)
    requires |ws| == |ls| >= 2 && Codes(ls) && Lightest(ws, i) && Lightest(Without(ws, i), j)
    requires LowerBound(Merged(ws, i, j), c)
    ensures Cost(ws, ls) >= c + ws[i] + Without(ws, i)[j]
  {
    hide Cost, Kraft, Codes, Pow2, Without;
    var a := LongestOf(ls);
    SwapCost(ws, ls, i, a);
    var ls1, l := Swap(ls, i, a), ls[a];
    CodesAt(ls, l);
    SwapKraft(ls, l, i, a);
    CostWithout(ws, ls1, i);
    KraftWithout(ls1, l, i);
    WithoutAtMost(ls1, i, l);
    MergeRest(ws, Without(ls1, i), i, j, l, c);
  }

  lemma WithoutAtMost(ls: seq<nat>, i: nat, m: nat)
    requires AllAtMost(ls, m) && i < |ls|
    ensures AllAtMost(Without(ls, i), m)
  {
  }

  lemma MergeRest(ws: seq<nat>, rest0: seq<nat>, i: nat, j: nat, l: nat, c: int)
    requires i < |ws| && |ws| >= 2 && |rest0| == |ws| - 1 && Lightest(Without(ws, i), j)
    requires AllAtMost(rest0, l) && Pow2(0) + Kraft(rest0, l) <= Pow2(l)
    requires LowerBound(Merged(ws, i, j), c)
    ensures ws[i] * l + Cost(Without(ws, i), rest0) >= c + ws[i] + Without(ws, i)[j]
  {
    hide Cost, Kraft, Pow2, Codes;
    var us := Without(ws, i);
    var b := LongestOf(rest0);
    SwapCost(us, rest0, j, b);
    var rest, m := Swap(rest0, j, b), rest0[b];
    SwapKraft(rest0, l, j, b);
    Shorten(rest, m, l);
    CostWithout(us, rest, j);
    KraftWithout(rest, m, j);
    WithoutAtMost(rest, j, m);
    var w, x, last := ws[i], us[j], Without(rest, j);
    LastStep(Without(us, j), last, w, x, m, c);
    assert w * l >= w * m by { MulUp(w, m, l); }
  }

  lemma MulUp(w: nat, m: nat, l: nat)
    requires m <= l
    ensures w * m <= w * l
  {
  }

  lemma LastStep(vs: seq<nat>, last: seq<nat>, w: nat, x: nat, m: nat, c: int)
    requires |vs| == |last| && AllAtMost(last, m)
    requires Pow2(0) + Kraft(last, m) + 1 <= Pow2(m)
    requires LowerBound(vs + [w + x], c)
    ensures w * m + x * m + Cost(vs, last) >= c + w + x
  {
    hide Cost, Kraft, Pow2, AllAtMost;
    OneLevelUp(m);
    KraftAppend(last, m, m - 1);
    assert Codes(last + [m - 1]);
    CostAppend(vs, last, w + x, m - 1);
    MulOneLess(w, x, m);
  }

  lemma OneLevelUp(m: nat)
    requires Pow2(0) + 1 <= Pow2(m)
    ensures m >= 1 && Pow2(m - (m - 1)) == Pow2(0) + 1
  {
  }

  lemma MulOneLess(w: nat, x: nat, m: nat)
    requires m >= 1
    ensures (w + x) * (m - 1) == w * m + x * m - w - x
  {
  }

  lemma MergeBound(ws: seq<nat>, i: nat, j: nat, c: int)
    requires |ws| >= 2 && Lightest(ws, i) && Lightest(Without(ws, i), j)
    requires LowerBound(Merged(ws, i, j), c)
    ensures LowerBound(ws, c + ws[i] + Without(ws, i)[j])
  {
    hide Cost, Codes, Without;
    forall ls: seq<nat> | |ls| == |ws| && Codes(ls)
      ensures Cost(ws, ls) >= c + ws[i] + Without(ws, i)[j]
    {
      MergeCost(ws, ls, i, j, c);
    }
  }
}
