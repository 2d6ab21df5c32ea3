/** The symbols a block uses, in order of rising use count. */
module UsedSymbols {
  import opened Symbols
  import opened RadixSort

  /** The symbols below n with a count, in order, keyed by count. */
  function Used(counts: seq<u16>, n: nat): (r: seq<SymFreq>)
    requires n <= |counts|
    ensures |r| <= n
  {
    if n == 0 then [] else Used(counts, n - 1) + if counts[n - 1] > 0 then [SymFreq(counts[n - 1], n - 1)] else []
  }

  ghost predicate Distinct(t: seq<SymFreq>) {
    forall i, j :: 0 <= i < j < |t| ==> t[i].sym != t[j].sym
  }

  /** Each symbol with a count, once, with its count. */
  ghost predicate Lists(t: seq<SymFreq>, counts: seq<u16>) {
    && Distinct(t)
    && (forall k :: 0 <= k < |t| ==> t[k].sym < |counts| && t[k].key == counts[t[k].sym] && t[k].key >= 1)
    && (forall s :: 0 <= s < |counts| && counts[s] > 0 ==> SymFreq(counts[s], s) in t)
  }

  function KeySum(t: seq<SymFreq>): (n: nat) {
    if t == [] then 0 else KeySum(t[..|t| - 1]) + t[|t| - 1].key
  }

  lemma {:induction false} UsedLists(counts: seq<u16>, n: nat)
    requires n <= |counts|
    ensures var r := Used(counts, n);
            && Distinct(r)
            && (forall k :: 0 <= k < |r| ==> r[k].sym < n && r[k].key == counts[r[k].sym] && r[k].key >= 1)
            && (forall s :: 0 <= s < n && counts[s] > 0 ==> SymFreq(counts[s], s) in r)
  {
    if n > 0 { UsedLists(counts, n - 1); }
  }

  // ---------------------------------------------------------------- sorting permutes

  lemma {:induction false} KeyedCount(t: seq<SymFreq>, x: SymFreq)
    ensures multiset(WithKey(t, x.key))[x] == multiset(t)[x]
  {
    if t != [] {
      var front, last := t[..|t| - 1], t[|t| - 1];
      KeyedCount(front, x);
      assert t == front + [last];
    }
  }

  lemma SortedPermutes(t: seq<SymFreq>)
    ensures multiset(Sorted(t)) == multiset(t)
  {
    hide Sorted, WithKey;
    forall x: SymFreq
      ensures multiset(Sorted(t))[x] == multiset(t)[x]
    {
      SortedIsStablePermutation(t, x.key);
      KeyedCount(t, x);
      KeyedCount(Sorted(t), x);
    }
  }

  lemma SplitAt(t: seq<SymFreq>, i: nat)
    requires i < |t|
    ensures multiset(t) == multiset(t[..i] + t[i + 1..]) + multiset{t[i]}
  {
    assert t == t[..i] + ([t[i]] + t[i + 1..]);
  }

  lemma {:induction false} KeySumWithout(t: seq<SymFreq>, i: nat)
    requires i < |t|
    ensures KeySum(t) == KeySum(t[..i] + t[i + 1..]) + t[i].key
  {
    if i == |t| - 1 {
      assert t[..i] + t[i + 1..] == t[..|t| - 1];
    } else {
      var u := t[..i] + t[i + 1..];
      assert u[..|u| - 1] == t[..|t| - 1][..i] + t[..|t| - 1][i + 1..];
      KeySumWithout(t[..|t| - 1], i);
    }
  }

  lemma CancelOne(a: multiset<SymFreq>, b: multiset<SymFreq>, x: SymFreq)
    requires a + multiset{x} == b + multiset{x}
    ensures a == b
  {
    assert a == (a + multiset{x}) - multiset{x};
    assert b == (b + multiset{x}) - multiset{x};
  }

  lemma {:induction false} KeySumPermuted(t: seq<SymFreq>, u: seq<SymFreq>)
    requires multiset(t) == multiset(u)
    ensures KeySum(t) == KeySum(u) && |t| == |u|
    decreases |t|
  {
    if t == [] {
      assert |multiset(u)| == |u|;
    } else {
      var n := |t| - 1;
      assert t[n] in multiset(t);
      assert t[n] in u;
      var i :| 0 <= i < |u| && u[i] == t[n];
      SplitAt(u, i);
      SplitAt(t, n);
      assert t[..n] + t[n + 1..] == t[..n];
      KeySumWithout(u, i);
      CancelOne(multiset(t[..n]), multiset(u[..i] + u[i + 1..]), t[n]);
      KeySumPermuted(t[..n], u[..i] + u[i + 1..]);
    }
  }

  lemma TwiceIn(t: seq<SymFreq>, i: nat, j: nat)
    requires i < j < |t| && t[i] == t[j]
    ensures multiset(t)[t[i]] >= 2
  {
    SplitAt(t, j);
    assert (t[..j] + t[j + 1..])[i] == t[i];
    assert t[i] in multiset(t[..j] + t[j + 1..]);
  }

  lemma {:induction false} DistinctOnce(t: seq<SymFreq>, x: SymFreq)
    requires Distinct(t)
    ensures multiset(t)[x] <= 1
  {
    if t != [] {
      var front, last := t[..|t| - 1], t[|t| - 1];
      DistinctOnce(front, x);
      assert t == front + [last];
      if x == last && x in front { assert false; }
    }
  }

  lemma DistinctPermuted(t: seq<SymFreq>, u: seq<SymFreq>)
    requires multiset(t) == multiset(u) && Distinct(t)
    ensures Distinct(u)
  {
    forall i, j | 0 <= i < j < |u|
      ensures u[i].sym != u[j].sym
    {
      assert u[i] in multiset(u) && u[j] in multiset(u);
      assert u[i] in t && u[j] in t;
      if u[i] == u[j] {
        TwiceIn(u, i, j);
        DistinctOnce(t, u[i]);
      }
    }
  }

  /** The sorted symbols: rising, and still each used symbol once. */
  lemma SortedLists(counts: seq<u16>)
    ensures var t := Sorted(Used(counts, |counts|));
            && Lists(t, counts) && SortedByKey(t)
            && KeySum(t) == KeySum(Used(counts, |counts|)) && |t| == |Used(counts, |counts|)|
  {
    hide Sorted, KeySum, Distinct, Used;
    var r := Used(counts, |counts|);
    var t := Sorted(r);
    UsedLists(counts, |counts|);
    SortedPermutes(r);
    SortedIsSorted(r);
    KeySumPermuted(r, t);
    DistinctPermuted(r, t);
    forall k | 0 <= k < |t|
      ensures t[k] in r
    {
      assert t[k] in multiset(t);
    }
    forall s | 0 <= s < |counts| && counts[s] > 0
      ensures SymFreq(counts[s], s) in t
    {
      assert SymFreq(counts[s], s) in multiset(r);
    }
  }

  // ---------------------------------------------------------------- sums over the symbols

  function SumBy(t: seq<SymFreq>, g: SymFreq -> nat): (n: nat) {
    if t == [] then 0 else SumBy(t[..|t| - 1], g) + g(t[|t| - 1])
  }

  lemma {:induction false} SumByWithout(t: seq<SymFreq>, i: nat, g: SymFreq -> nat)
    requires i < |t|
    ensures SumBy(t, g) == SumBy(t[..i] + t[i + 1..], g) + g(t[i])
  {
    if i == |t| - 1 {
      assert t[..i] + t[i + 1..] == t[..|t| - 1];
    } else {
      var u := t[..i] + t[i + 1..];
      assert u[..|u| - 1] == t[..|t| - 1][..i] + t[..|t| - 1][i + 1..];
      SumByWithout(t[..|t| - 1], i, g);
    }
  }

  lemma {:induction false} SumByPermuted(t: seq<SymFreq>, u: seq<SymFreq>, g: SymFreq -> nat)
    requires multiset(t) == multiset(u)
    ensures SumBy(t, g) == SumBy(u, g)
    decreases |t|
  {
    if t == [] {
      assert |multiset(u)| == |u|;
    } else {
      var n := |t| - 1;
      assert t[n] in multiset(t);
      assert t[n] in u;
      var i :| 0 <= i < |u| && u[i] == t[n];
      SplitAt(u, i);
      SplitAt(t, n);
      assert t[..n] + t[n + 1..] == t[..n];
      SumByWithout(u, i, g);
      CancelOne(multiset(t[..n]), multiset(u[..i] + u[i + 1..]), t[n]);
      SumByPermuted(t[..n], u[..i] + u[i + 1..], g);
    }
  }

  /** The same, over the symbols by number. */
  function SumOver(counts: seq<u16>, g: SymFreq -> nat, n: nat): (s: nat)
    requires n <= |counts|
  {
    if n == 0 then 0 else SumOver(counts, g, n - 1) + if counts[n - 1] > 0 then g(SymFreq(counts[n - 1], n - 1)) else 0
  }

  lemma {:induction false} SumByUsed(counts: seq<u16>, g: SymFreq -> nat, n: nat)
    requires n <= |counts|
    ensures SumBy(Used(counts, n), g) == SumOver(counts, g, n)
  {
    if n > 0 {
      SumByUsed(counts, g, n - 1);
      if counts[n - 1] > 0 {
        var front, x := Used(counts, n - 1), SymFreq(counts[n - 1], n - 1);
        assert (front + [x])[..|front|] == front;
      } else {
        assert Used(counts, n) == Used(counts, n - 1);
      }
    }
  }

  lemma SumBySorted(counts: seq<u16>, g: SymFreq -> nat)
    ensures SumBy(Sorted(Used(counts, |counts|)), g) == SumOver(counts, g, |counts|)
  {
    hide Sorted, SumBy, SumOver, Used;
    SortedPermutes(Used(counts, |counts|));
    SumByPermuted(Sorted(Used(counts, |counts|)), Used(counts, |counts|), g);
    SumByUsed(counts, g, |counts|);
  }

  // ---------------------------------------------------------------- how large the counts are together

  function Total(counts: seq<u16>, n: nat): (t: nat)
    requires n <= |counts|
  {
    if n == 0 then 0 else Total(counts, n - 1) + counts[n - 1]
  }

  lemma {:induction false} KeySumIsTotal(counts: seq<u16>, n: nat)
    requires n <= |counts|
    ensures KeySum(Used(counts, n)) == Total(counts, n)
  {
    if n > 0 {
      KeySumIsTotal(counts, n - 1);
      if counts[n - 1] > 0 {
        var front, x := Used(counts, n - 1), SymFreq(counts[n - 1], n - 1);
        assert (front + [x])[..|front|] == front;
      } else {
        assert Used(counts, n) == Used(counts, n - 1);
      }
    }
  }
}
