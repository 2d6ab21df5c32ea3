/** Two-pass radix sort of symbols by 16-bit key (tdefl_radix_sort_syms). */
module RadixSort {
  import opened Symbols

  function Digit(x: SymFreq, pass: nat): (d: nat)
    requires pass < 2
    ensures d < 256
  {
    if pass == 0 then x.key % 256 else x.key / 256
  }

  /** The elements of s with digit b, in order. */
  function WithDigit(s: seq<SymFreq>, pass: nat, b: nat): (r: seq<SymFreq>)
    requires pass < 2
    ensures |r| <= |s|
  {
    if s == [] then [] else
      var last := s[|s| - 1];
      WithDigit(s[..|s| - 1], pass, b) + if Digit(last, pass) == b then [last] else []
  }

  /** The elements of s with digit below n, grouped by digit. */
  function Buckets(s: seq<SymFreq>, pass: nat, n: nat): (r: seq<SymFreq>)
    requires pass < 2
  {
    if n == 0 then [] else Buckets(s, pass, n - 1) + WithDigit(s, pass, n - 1)
  }

  /** The elements of s with the given key, in order. */
  function WithKey(s: seq<SymFreq>, key: nat): (r: seq<SymFreq>) {
    if s == [] then [] else
      var last := s[|s| - 1];
      WithKey(s[..|s| - 1], key) + if last.key == key then [last] else []
  }

  ghost predicate SortedByKey(s: seq<SymFreq>) {
    forall i, j :: 0 <= i <= j < |s| ==> s[i].key <= s[j].key
  }

  /** Both passes: what the sort leaves. */
  function Sorted(s: seq<SymFreq>): (r: seq<SymFreq>) {
    Buckets(Buckets(s, 0, 256), 1, 256)
  }

  // ---------------------------------------------------------------- the two passes sort, stably

  lemma {:induction false} WithKeyAppend(s: seq<SymFreq>, t: seq<SymFreq>, key: nat)
    ensures WithKey(s + t, key) == WithKey(s, key) + WithKey(t, key)
  {
    if t == [] {
      assert s + t == s;
    } else {
      assert (s + t)[..|s + t| - 1] == s + t[..|t| - 1];
      WithKeyAppend(s, t[..|t| - 1], key);
    }
  }

  lemma WithKeyEmpty(key: nat)
    ensures WithKey([], key) == []
  {
  }

  lemma WithKeyOne(x: SymFreq, key: nat)
    ensures WithKey([x], key) == if x.key == key then [x] else []
  {
    assert [x][..0] == [];
  }

  lemma {:induction false} WithKeyOfDigit(s: seq<SymFreq>, pass: nat, b: nat, x: SymFreq)
    requires pass < 2
    ensures WithKey(WithDigit(s, pass, b), x.key) == if Digit(x, pass) == b then WithKey(s, x.key) else []
  {
    if s != [] {
      var front, last := s[..|s| - 1], s[|s| - 1];
      WithKeyOfDigit(front, pass, b, x);
      WithKeyAppend(WithDigit(front, pass, b), [last], x.key);
      WithKeyOne(last, x.key);
      assert WithDigit(front, pass, b) + [] == WithDigit(front, pass, b);
      assert last.key == x.key ==> Digit(last, pass) == Digit(x, pass);
    }
  }

  lemma {:induction false} WithKeyOfBuckets(s: seq<SymFreq>, pass: nat, n: nat, x: SymFreq)
    requires pass < 2
    ensures WithKey(Buckets(s, pass, n), x.key) == if Digit(x, pass) < n then WithKey(s, x.key) else []
  {
    hide WithKey, WithDigit;
    if n > 0 {
      WithKeyOfBuckets(s, pass, n - 1, x);
      WithKeyAppend(Buckets(s, pass, n - 1), WithDigit(s, pass, n - 1), x.key);
      WithKeyOfDigit(s, pass, n - 1, x);
    } else {
      WithKeyEmpty(x.key);
    }
  }

  /** Equal keys keep their order, and nothing is lost or invented. */
  lemma SortedIsStablePermutation(s: seq<SymFreq>, key: u16)
    ensures WithKey(Sorted(s), key) == WithKey(s, key)
  {
    var x := SymFreq(key, 0);
    WithKeyOfBuckets(s, 0, 256, x);
    WithKeyOfBuckets(Buckets(s, 0, 256), 1, 256, x);
  }

  ghost predicate LowOrdered(s: seq<SymFreq>) {
    forall i, j :: 0 <= i <= j < |s| ==> Digit(s[i], 0) <= Digit(s[j], 0)
  }

  ghost predicate DigitsBelow(s: seq<SymFreq>, pass: nat, n: nat)
    requires pass < 2
  {
    forall i :: 0 <= i < |s| ==> Digit(s[i], pass) < n
  }

  ghost predicate AllDigit(s: seq<SymFreq>, pass: nat, b: nat)
    requires pass < 2
  {
    forall i :: 0 <= i < |s| ==> Digit(s[i], pass) == b
  }

  lemma {:induction false} WithDigitDigits(s: seq<SymFreq>, pass: nat, b: nat)
    requires pass < 2
    ensures AllDigit(WithDigit(s, pass, b), pass, b)
  {
    if s != [] { WithDigitDigits(s[..|s| - 1], pass, b); }
  }

  /** Taking the elements of one digit keeps their order by low digit. */
  lemma {:induction false} WithDigitOrdered(s: seq<SymFreq>, pass: nat, b: nat, bound: nat)
    requires pass < 2 && LowOrdered(s) && DigitsBelow(s, 0, bound)
    ensures LowOrdered(WithDigit(s, pass, b)) && DigitsBelow(WithDigit(s, pass, b), 0, bound)
  {
    if s != [] {
      var front, last := s[..|s| - 1], s[|s| - 1];
      var cap := Digit(last, 0) + 1;
      assert DigitsBelow(front, 0, cap);
      WithDigitOrdered(front, pass, b, cap);
    }
  }

  lemma {:induction false} LowPassOrders(s: seq<SymFreq>, n: nat)
    ensures DigitsBelow(Buckets(s, 0, n), 0, n) && LowOrdered(Buckets(s, 0, n))
  {
    if n > 0 {
      LowPassOrders(s, n - 1);
      WithDigitDigits(s, 0, n - 1);
    }
  }

  lemma SameHighDigitSorted(r: seq<SymFreq>, b: nat)
    requires LowOrdered(r) && AllDigit(r, 1, b)
    ensures SortedByKey(r)
  {
    forall i, j | 0 <= i <= j < |r|
      ensures r[i].key <= r[j].key
    {
      assert Digit(r[i], 0) <= Digit(r[j], 0);
      assert Digit(r[i], 1) == Digit(r[j], 1);
    }
  }

  lemma AppendSorted(s: seq<SymFreq>, t: seq<SymFreq>, n: nat)
    requires SortedByKey(s) && SortedByKey(t) && DigitsBelow(s, 1, n)
    requires AllDigit(t, 1, n)
    ensures SortedByKey(s + t)
  {
    forall i, j | 0 <= i < |s| && 0 <= j < |t|
      ensures s[i].key <= t[j].key
    {
      assert Digit(s[i], 1) < n && Digit(t[j], 1) == n;
    }
  }

  lemma {:induction false} HighPassOrders(s: seq<SymFreq>, n: nat)
    requires LowOrdered(s) && DigitsBelow(s, 0, 256)
    ensures DigitsBelow(Buckets(s, 1, n), 1, n) && SortedByKey(Buckets(s, 1, n))
  {
    if n > 0 {
      HighPassOrders(s, n - 1);
      WithDigitOrdered(s, 1, n - 1, 256);
      WithDigitDigits(s, 1, n - 1);
      var t := WithDigit(s, 1, n - 1);
      SameHighDigitSorted(t, n - 1);
      AppendSorted(Buckets(s, 1, n - 1), t, n - 1);
    }
  }

  lemma SortedIsSorted(s: seq<SymFreq>)
    ensures SortedByKey(Sorted(s))
  {
    LowPassOrders(s, 256);
    HighPassOrders(Buckets(s, 0, 256), 256);
  }

  // ---------------------------------------------------------------- one distribution pass

  function Start(s: seq<SymFreq>, pass: nat, b: nat): (n: nat)
    requires pass < 2
  {
    |Buckets(s, pass, b)|
  }

  /** After i elements: each digit's slots hold its elements seen so far, in order. */
  ghost predicate Placed(dst: seq<SymFreq>, s: seq<SymFreq>, pass: nat, i: nat)
    requires pass < 2 && i <= |s|
  {
    && |s| <= |dst|
    && forall b :: 0 <= b < 256 ==> Holds(dst, s, pass, i, b)
  }

  ghost predicate Holds(dst: seq<SymFreq>, s: seq<SymFreq>, pass: nat, i: nat, b: nat)
    requires pass < 2 && i <= |s|
  {
    var seen := WithDigit(s[..i], pass, b);
    Start(s, pass, b) + |seen| <= |dst| && dst[Start(s, pass, b)..Start(s, pass, b) + |seen|] == seen
  }

  lemma {:induction false} WithDigitPrefix(s: seq<SymFreq>, pass: nat, b: nat, i: nat)
    requires pass < 2 && i <= |s|
    ensures |WithDigit(s[..i], pass, b)| <= |WithDigit(s, pass, b)|
    decreases |s|
  {
    if i < |s| {
      assert s[..|s| - 1][..i] == s[..i];
      WithDigitPrefix(s[..|s| - 1], pass, b, i);
    } else {
      assert s[..i] == s;
    }
  }

  lemma WithDigitNext(s: seq<SymFreq>, pass: nat, b: nat, i: nat)
    requires pass < 2 && i < |s|
    ensures WithDigit(s[..i + 1], pass, b) == WithDigit(s[..i], pass, b) + if Digit(s[i], pass) == b then [s[i]] else []
  {
    assert s[..i + 1][..i] == s[..i];
  }

  lemma {:induction false} StartMono(s: seq<SymFreq>, pass: nat, b: nat, c: nat)
    requires pass < 2 && b < c
    ensures Start(s, pass, b) + |WithDigit(s, pass, b)| <= Start(s, pass, c)
  {
    if b + 1 < c { StartMono(s, pass, b, c - 1); }
  }

  lemma {:induction false} BucketsSize(s: seq<SymFreq>, pass: nat, n: nat)
    requires pass < 2 && n <= 256
    ensures Start(s, pass, n) <= |s|
    ensures n == 256 ==> Start(s, pass, n) == |s|
    decreases |s|, n
  {
    if s == [] {
      if n > 0 { BucketsSize(s, pass, n - 1); }
    } else {
      BucketsSize(s[..|s| - 1], pass, n);
      BucketsGrow(s, pass, n);
    }
  }

  lemma {:induction false} BucketsGrow(s: seq<SymFreq>, pass: nat, n: nat)
    requires pass < 2 && s != []
    ensures Start(s, pass, n)
         == Start(s[..|s| - 1], pass, n) + if Digit(s[|s| - 1], pass) < n then 1 else 0
  {
    if n > 0 { BucketsGrow(s, pass, n - 1); }
  }

  /** Where element i goes. */
  function Slot(s: seq<SymFreq>, pass: nat, i: nat): (n: nat)
    requires pass < 2 && i < |s|
  {
    Start(s, pass, Digit(s[i], pass)) + |WithDigit(s[..i], pass, Digit(s[i], pass))|
  }

  lemma SlotInRange(s: seq<SymFreq>, pass: nat, i: nat)
    requires pass < 2 && i < |s|
    ensures Slot(s, pass, i) < Start(s, pass, Digit(s[i], pass) + 1) <= |s|
  {
    hide WithDigit, Buckets, Start;
    var d := Digit(s[i], pass);
    WithDigitNext(s, pass, d, i);
    WithDigitPrefix(s, pass, d, i + 1);
    StartMono(s, pass, d, d + 1);
    BucketsSize(s, pass, d + 1);
  }

  /** The slots of two digits do not overlap. */
  lemma SlotOutside(s: seq<SymFreq>, pass: nat, i: nat, b: nat)
    requires pass < 2 && i < |s| && b != Digit(s[i], pass)
    ensures Slot(s, pass, i) < Start(s, pass, b)
         || Start(s, pass, b) + |WithDigit(s[..i], pass, b)| <= Slot(s, pass, i)
  {
    var d := Digit(s[i], pass);
    WithDigitPrefix(s, pass, b, i);
    SlotInRange(s, pass, i);
    if b < d {
      StartMono(s, pass, b, d);
    } else if d + 1 < b {
      StartMono(s, pass, d + 1, b);
    }
  }

  lemma PlaceOther(dst: seq<SymFreq>, s: seq<SymFreq>, pass: nat, i: nat, b: nat)
    requires pass < 2 && i < |s| <= |dst| && b < 256 && Holds(dst, s, pass, i, b)
    requires Slot(s, pass, i) < |dst| && b != Digit(s[i], pass)
    ensures Holds(dst[Slot(s, pass, i) := s[i]], s, pass, i + 1, b)
  {
    hide WithDigit, Start, Slot;
    WithDigitNext(s, pass, b, i);
    SlotOutside(s, pass, i, b);
    var k, lo := Slot(s, pass, i), Start(s, pass, b);
    var hi := lo + |WithDigit(s[..i], pass, b)|;
    assert dst[k := s[i]][lo..hi] == dst[lo..hi];
  }

  lemma PlaceSame(dst: seq<SymFreq>, s: seq<SymFreq>, pass: nat, i: nat)
    requires pass < 2 && i < |s| <= |dst| && Holds(dst, s, pass, i, Digit(s[i], pass))
    requires Slot(s, pass, i) < |dst|
    ensures Holds(dst[Slot(s, pass, i) := s[i]], s, pass, i + 1, Digit(s[i], pass))
  {
    var d, k := Digit(s[i], pass), Slot(s, pass, i);
    WithDigitNext(s, pass, d, i);
    var lo := Start(s, pass, d);
    assert dst[k := s[i]][lo..k + 1] == dst[lo..k] + [s[i]];
  }

  lemma PlaceNext(dst: seq<SymFreq>, s: seq<SymFreq>, pass: nat, i: nat)
    requires pass < 2 && i < |s| && Placed(dst, s, pass, i)
    ensures Slot(s, pass, i) < |s|
    ensures Placed(dst[Slot(s, pass, i) := s[i]], s, pass, i + 1)
  {
    hide WithDigit, Buckets, Start;
    SlotInRange(s, pass, i);
    var dst', j := dst[Slot(s, pass, i) := s[i]], i + 1;
    forall b | 0 <= b < 256
      ensures Holds(dst', s, pass, j, b)
    {
      assert Holds(dst, s, pass, i, b);
      if b == Digit(s[i], pass) { PlaceSame(dst, s, pass, i); } else { PlaceOther(dst, s, pass, i, b); }
    }
  }

  lemma {:induction false} PlacedAll(dst: seq<SymFreq>, s: seq<SymFreq>, pass: nat, n: nat)
    requires pass < 2 && n <= 256 && Placed(dst, s, pass, |s|)
    ensures Start(s, pass, n) <= |s| && dst[..Start(s, pass, n)] == Buckets(s, pass, n)
  {
    BucketsSize(s, pass, n);
    if n > 0 {
      PlacedAll(dst, s, pass, n - 1);
      assert s[..|s|] == s;
      assert Holds(dst, s, pass, |s|, n - 1);
      var lo, hi := Start(s, pass, n - 1), Start(s, pass, n);
      assert dst[..hi] == dst[..lo] + dst[lo..hi];
    }
  }

  lemma PlacedNone(dst: seq<SymFreq>, s: seq<SymFreq>, pass: nat, i: nat)
    requires pass < 2 && |s| <= |dst| && i == 0
    ensures Placed(dst, s, pass, i)
  {
    assert s[..i] == [];
    forall b | 0 <= b < 256
      ensures Holds(dst, s, pass, i, b)
    {
      BucketsSize(s, pass, b);
    }
  }

  /** hist[256 * pass + b] counts the elements of s with digit b. */
  ghost predicate PassHistogram(hist: seq<nat>, s: seq<SymFreq>, pass: nat)
    requires pass < 2
  {
    |hist| == 512 && forall b :: 0 <= b < 256 ==> hist[256 * pass + b] == |WithDigit(s, pass, b)|
  }

  ghost predicate Histogram(hist: seq<nat>, s: seq<SymFreq>) {
    PassHistogram(hist, s, 0) && PassHistogram(hist, s, 1)
  }

  method Offsets(hist: array<nat>, pass: nat, ghost s: seq<SymFreq>) returns (offsets: array<nat>)
    requires pass < 2 && PassHistogram(hist[..], s, pass)
    ensures fresh(offsets) && offsets.Length == 256
    ensures forall b :: 0 <= b < 256 ==> offsets[b] == Start(s, pass, b)
  {
    offsets := new nat[256];
    var cur, i := 0, 0;
    while i < 256
      invariant 0 <= i <= 256 && cur == Start(s, pass, i)
      invariant forall b :: 0 <= b < i ==> offsets[b] == Start(s, pass, b)
      invariant PassHistogram(hist[..], s, pass)
    {
      offsets[i] := cur;
      cur := cur + hist[256 * pass + i];
      i := i + 1;
    }
  }

  ghost predicate OffsetsAt(offsets: seq<nat>, s: seq<SymFreq>, pass: nat, i: nat)
    requires pass < 2 && i <= |s|
  {
    |offsets| == 256
    && forall b :: 0 <= b < 256 ==> offsets[b] == Start(s, pass, b) + |WithDigit(s[..i], pass, b)|
  }

  lemma OffsetsNext(offsets: seq<nat>, s: seq<SymFreq>, pass: nat, i: nat)
    requires pass < 2 && i < |s| && OffsetsAt(offsets, s, pass, i)
    ensures |offsets| == 256 && offsets[Digit(s[i], pass)] == Slot(s, pass, i)
    ensures var d := Digit(s[i], pass); OffsetsAt(offsets[d := offsets[d] + 1], s, pass, i + 1)
  {
    hide WithDigit;
    var t, u := s[..i + 1], s[..i];
    forall b: nat
      ensures |WithDigit(t, pass, b)| == |WithDigit(u, pass, b)| + if Digit(s[i], pass) == b then 1 else 0
    {
      WithDigitNext(s, pass, b, i);
    }
  }

  method PlaceOne(x: SymFreq, dst: array<SymFreq>, offsets: array<nat>, pass: nat, ghost s: seq<SymFreq>, ghost i: nat)
    requires pass < 2 && i < |s| && x == s[i]
    requires Placed(dst[..], s, pass, i) && OffsetsAt(offsets[..], s, pass, i)
    modifies dst, offsets
    ensures Placed(dst[..], s, pass, i + 1) && OffsetsAt(offsets[..], s, pass, i + 1)
  {
    hide Placed, OffsetsAt, Slot;
    var d := if pass == 0 then x.key % 256 else x.key / 256;
    ghost var dst0, offsets0 := dst[..], offsets[..];
    OffsetsNext(offsets0, s, pass, i);
    PlaceNext(dst0, s, pass, i);
    PlacedRoom(dst0, s, pass, i);
    dst[offsets[d]] := x;
    assert dst[..] == dst0[Slot(s, pass, i) := s[i]];
    offsets[d] := offsets[d] + 1;
    assert offsets[..] == offsets0[d := offsets0[d] + 1];
  }

  lemma PlacedRoom(dst: seq<SymFreq>, s: seq<SymFreq>, pass: nat, i: nat)
    requires pass < 2 && i <= |s| && Placed(dst, s, pass, i)
    ensures |s| <= |dst|
  {
  }

  /** Distributes src[..n] into dst by one digit. */
  method Distribute(src: array<SymFreq>, dst: array<SymFreq>, n: nat, hist: array<nat>, pass: nat)
    requires pass < 2 && src != dst && n <= src.Length && n <= dst.Length
    requires PassHistogram(hist[..], src[..n], pass)
    modifies dst
    ensures dst[..n] == Buckets(src[..n], pass, 256)
  {
    ghost var s := src[..n];
    var offsets := Offsets(hist, pass, s);
    var i := 0;
    PlacedNone(dst[..], s, pass, i);
    assert s[..0] == [];
    hide Placed, Holds, WithDigit, Buckets, OffsetsAt, Start;
    while i < n
      invariant 0 <= i <= n && src[..n] == s
      invariant Placed(dst[..], s, pass, i)
      invariant OffsetsAt(offsets[..], s, pass, i)
    {
      PlaceOne(src[i], dst, offsets, pass, s, i);
      i := i + 1;
    }
    PlacedAll(dst[..], s, pass, 256);
    BucketsSize(s, pass, 256);
    assert dst[..][..n] == dst[..n];
  }

  lemma PassHistogramNext(hist: seq<nat>, s: seq<SymFreq>, i: nat, pass: nat)
    requires pass < 2 && i < |s| && PassHistogram(hist, s[..i], pass)
    ensures var k := 256 * pass + Digit(s[i], pass);
            PassHistogram(hist[k := hist[k] + 1], s[..i + 1], pass)
  {
    hide WithDigit;
    var t, u := s[..i + 1], s[..i];
    forall b: nat
      ensures |WithDigit(t, pass, b)| == |WithDigit(u, pass, b)| + if Digit(s[i], pass) == b then 1 else 0
    {
      WithDigitNext(s, pass, b, i);
    }
  }

  lemma PassHistogramOther(hist: seq<nat>, s: seq<SymFreq>, pass: nat, k: nat, v: nat)
    requires pass < 2 && PassHistogram(hist, s, pass) && k < 512 && k / 256 != pass
    ensures PassHistogram(hist[k := v], s, pass)
  {
  }

  lemma HistogramNext(hist: seq<nat>, s: seq<SymFreq>, i: nat)
    requires i < |s| && Histogram(hist, s[..i])
    ensures var lo, hi := s[i].key % 256, 256 + s[i].key / 256;
            |hist| == 512 &&
            var h := hist[lo := hist[lo] + 1];
            Histogram(h[hi := h[hi] + 1], s[..i + 1])
  {
    assert |hist| == 512;
    hide PassHistogram;
    var lo, hi := s[i].key % 256, 256 + s[i].key / 256;
    var h := hist[lo := hist[lo] + 1];
    PassHistogramNext(hist, s, i, 0);
    PassHistogramOther(hist, s[..i], 1, lo, hist[lo] + 1);
    PassHistogramOther(h, s[..i + 1], 0, hi, h[hi] + 1);
    PassHistogramNext(h, s, i, 1);
  }

  method CountDigits(a: array<SymFreq>, n: nat) returns (hist: array<nat>)
    requires n <= a.Length
    ensures fresh(hist) && Histogram(hist[..], a[..n])
  {
    hide Histogram;
    hist := new nat[512](_ => 0);
    ghost var s := a[..n];
    HistogramStart(hist[..]);
    var i := 0;
    assert s[..0] == [];
    while i < n
      invariant 0 <= i <= n && Histogram(hist[..], s[..i]) && hist.Length == 512
    {
      var freq := a[i].key;
      ghost var h := hist[..];
      HistogramNext(h, s, i);
      hist[freq % 256] := hist[freq % 256] + 1;
      ghost var h' := hist[..];
      assert h' == h[freq % 256 := h[freq % 256] + 1];
      hist[256 + freq / 256] := hist[256 + freq / 256] + 1;
      assert hist[..] == h'[256 + freq / 256 := h'[256 + freq / 256] + 1];
      i := i + 1;
    }
    assert s[..n] == s;
  }

  lemma HistogramStart(hist: seq<nat>)
    requires |hist| == 512 && forall i :: 0 <= i < 512 ==> hist[i] == 0
    ensures Histogram(hist, [])
  {
  }

  lemma {:induction false} AllInOneBucket(s: seq<SymFreq>)
    requires |WithDigit(s, 1, 0)| == |s|
    ensures WithDigit(s, 1, 0) == s && AllDigit(s, 1, 0)
  {
    if s != [] {
      var front, last := s[..|s| - 1], s[|s| - 1];
      assert |WithDigit(s, 1, 0)| == |WithDigit(front, 1, 0)| + if Digit(last, 1) == 0 then 1 else 0;
      AllInOneBucket(front);
      assert s == front + [last];
    }
  }

  lemma {:induction false} NoOtherBucket(s: seq<SymFreq>, b: nat)
    requires b > 0 && AllDigit(s, 1, 0)
    ensures WithDigit(s, 1, b) == []
  {
    if s != [] { NoOtherBucket(s[..|s| - 1], b); }
  }

  /** With every high byte zero the second pass would change nothing. */
  lemma {:induction false} AllLow(s: seq<SymFreq>, n: nat)
    requires 1 <= n && |WithDigit(s, 1, 0)| == |s|
    ensures Buckets(s, 1, n) == s
  {
    AllInOneBucket(s);
    if n > 1 {
      AllLow(s, n - 1);
      NoOtherBucket(s, n - 1);
    } else {
      assert Buckets(s, 1, 0) == [];
    }
  }

  lemma {:induction false} WithDigitAppend(s: seq<SymFreq>, t: seq<SymFreq>, pass: nat, b: nat)
    requires pass < 2
    ensures WithDigit(s + t, pass, b) == WithDigit(s, pass, b) + WithDigit(t, pass, b)
  {
    if t == [] {
      assert s + t == s;
    } else {
      assert (s + t)[..|s + t| - 1] == s + t[..|t| - 1];
      WithDigitAppend(s, t[..|t| - 1], pass, b);
    }
  }

  lemma WithDigitOne(x: SymFreq, pass: nat, b: nat)
    requires pass < 2
    ensures WithDigit([x], pass, b) == if Digit(x, pass) == b then [x] else []
  {
    assert [x][..0] == [];
  }

  function Count(s: seq<SymFreq>, pass: nat, b: nat): (n: nat)
    requires pass < 2
  {
    |WithDigit(s, pass, b)|
  }

  lemma NoBuckets(s: seq<SymFreq>, pass: nat)
    requires pass < 2
    ensures Buckets(s, pass, 0) == []
  {
  }

  lemma CountBuckets(s: seq<SymFreq>, n: nat, b: nat)
    requires n > 0
    ensures Count(Buckets(s, 0, n), 1, b) == Count(Buckets(s, 0, n - 1), 1, b) + Count(WithDigit(s, 0, n - 1), 1, b)
  {
    WithDigitAppend(Buckets(s, 0, n - 1), WithDigit(s, 0, n - 1), 1, b);
  }

  lemma CountDigitPair(front: seq<SymFreq>, last: SymFreq, d: nat, b: nat)
    ensures Count(WithDigit(front + [last], 0, d), 1, b)
         == Count(WithDigit(front, 0, d), 1, b) + if Digit(last, 0) == d && Digit(last, 1) == b then 1 else 0
  {
    WithDigitAppend(front, [last], 0, d);
    WithDigitAppend(WithDigit(front, 0, d), WithDigit([last], 0, d), 1, b);
    WithDigitOne(last, 0, d);
    WithDigitOne(last, 1, b);
    WithDigitEmpty(1, b);
  }

  /** How often the first pass, over digits below n, emits an element with high digit b. */
  lemma {:induction false} FirstPassCounts(front: seq<SymFreq>, last: SymFreq, n: nat, b: nat)
    ensures Count(Buckets(front + [last], 0, n), 1, b)
         == Count(Buckets(front, 0, n), 1, b) + if Digit(last, 0) < n && Digit(last, 1) == b then 1 else 0
  {
    hide Count, WithDigit, Buckets, Digit;
    if n > 0 {
      FirstPassCounts(front, last, n - 1, b);
      CountBuckets(front + [last], n, b);
      CountBuckets(front, n, b);
      CountDigitPair(front, last, n - 1, b);
    } else {
      NoBuckets(front, 0);
      NoBuckets(front + [last], 0);
    }
  }

  lemma WithDigitEmpty(pass: nat, b: nat)
    requires pass < 2
    ensures WithDigit([], pass, b) == []
  {
  }

  /** The histogram of the high bytes, taken before the first pass, still holds after it. */
  lemma {:induction false} HighCountKept(s: seq<SymFreq>, b: nat)
    ensures |WithDigit(Buckets(s, 0, 256), 1, b)| == |WithDigit(s, 1, b)|
  {
    if s == [] {
      BucketsSize(s, 0, 256);
      assert Buckets(s, 0, 256) == [];
    } else {
      var front, last := s[..|s| - 1], s[|s| - 1];
      HighCountKept(front, b);
      FirstPassCounts(front, last, 256, b);
      assert s == front + [last];
    }
  }

  lemma HistogramKept(hist: seq<nat>, s: seq<SymFreq>)
    requires Histogram(hist, s)
    ensures |hist| == 512
    ensures PassHistogram(hist, s, 0) && PassHistogram(hist, Buckets(s, 0, 256), 1)
    ensures hist[256] == |s| ==> Sorted(s) == Buckets(s, 0, 256)
  {
    var t := Buckets(s, 0, 256);
    forall b: nat
      ensures |WithDigit(t, 1, b)| == |WithDigit(s, 1, b)|
    {
      HighCountKept(s, b);
    }
    if hist[256] == |s| {
      assert hist[256 + 0] == |WithDigit(s, 1, 0)|;
      BucketsSize(s, 0, 256);
      AllLow(t, 256);
    }
  }

  /** tdefl_radix_sort_syms: the sorted symbols end up in whichever array is returned. */
  method Sort(syms0: array<SymFreq>, syms1: array<SymFreq>, n: nat) returns (r: array<SymFreq>)
    requires syms0 != syms1 && n <= syms0.Length && n <= syms1.Length
    modifies syms0, syms1
    ensures r == syms0 || r == syms1
    ensures r[..n] == Sorted(old(syms0[..n]))
  {
    hide Histogram, PassHistogram, Buckets, WithDigit;
    ghost var s := syms0[..n];
    var hist := CountDigits(syms0, n);
    HistogramKept(hist[..], s);
    var passes := 2;
    if n == hist[256] { passes := 1; }
    Distribute(syms0, syms1, n, hist, 0);
    r := syms1;
    if passes == 2 {
      Distribute(syms1, syms0, n, hist, 1);
      r := syms0;
    }
  }
}
