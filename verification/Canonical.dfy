/** Canonical prefix codes (section 3.2.2 of RFC 1951), as both the deflate encoder and the
    inflate table builder number them: sizes[s] is the code length of symbol s, 0 if unused. */
module Canonical {
  import opened Bits

  const MAX_SYMBOLS := 288
  const MAX_BITS := 15

  ghost predicate Sizes(sizes: seq<nat>) {
    |sizes| <= MAX_SYMBOLS && forall i :: 0 <= i < |sizes| ==> sizes[i] <= MAX_BITS
  }

  /** Number of symbols below n with codes of l bits. */
  function CountSize(sizes: seq<nat>, l: nat, n: nat): (c: nat)
    requires n <= |sizes|
    ensures c <= n
  {
    if n == 0 then 0 else CountSize(sizes, l, n - 1) + if sizes[n - 1] == l then 1 else 0
  }

  function Num(sizes: seq<nat>, l: nat): nat {
    CountSize(sizes, l, |sizes|)
  }

  /** The first code of l bits. */
  function NextCode(sizes: seq<nat>, l: nat): (c: nat) {
    if l <= 1 then 0 else 2 * (NextCode(sizes, l - 1) + Num(sizes, l - 1))
  }

  function Code(sizes: seq<nat>, s: nat): (c: nat)
    requires s < |sizes| && sizes[s] >= 1
  {
    NextCode(sizes, sizes[s]) + CountSize(sizes, sizes[s], s)
  }

  /** The codes fit: the code space is not oversubscribed. */
  ghost predicate Fits(sizes: seq<nat>) {
    Sizes(sizes) && NextCode(sizes, 16) <= 65536
  }

  /** The code space is filled exactly. */
  ghost predicate Complete(sizes: seq<nat>) {
    Sizes(sizes) && NextCode(sizes, 16) == 65536
  }

  function Used(sizes: seq<nat>, l: nat): nat {
    if l == 0 then 0 else Used(sizes, l - 1) + Num(sizes, l)
  }

  // ---------------------------------------------------------------- the codes are prefix-free

  lemma {:induction false} CountSizeMono(sizes: seq<nat>, l: nat, a: nat, b: nat)
    requires a <= b <= |sizes|
    ensures CountSize(sizes, l, a) <= CountSize(sizes, l, b)
    ensures a < b && sizes[a] == l ==> CountSize(sizes, l, a) < CountSize(sizes, l, b)
  {
    if a < b { CountSizeMono(sizes, l, a, b - 1); }
  }

  lemma {:induction false} NextCodeGrows(sizes: seq<nat>, a: nat, b: nat)
    requires 1 <= a < b
    ensures NextCode(sizes, b) >= (NextCode(sizes, a) + Num(sizes, a)) * Pow2(b - a)
  {
    var x := NextCode(sizes, a) + Num(sizes, a);
    if a + 1 < b {
      NextCodeGrows(sizes, a, b - 1);
      MulDouble(Pow2(b - 1 - a), x);
    } else {
      assert Pow2(1) == 2;
    }
  }

  lemma {:induction false} ShrAtLeast(v: nat, x: nat, k: nat)
    requires v >= x * Pow2(k)
    ensures Shr(v, k) >= x
  {
    if k > 0 {
      MulDouble(Pow2(k - 1), x);
      ShrAtLeast(v / 2, x, k - 1);
    }
  }

  lemma MulLeCancel(x: nat, y: nat, p: nat)
    requires p > 0 && x * p <= y * p
    ensures x <= y
  {
    assert x > y ==> x * p >= (y + 1) * p;
  }

  /** Codes of l bits, and those that follow, stay below 2^l. */
  lemma CodesFit(sizes: seq<nat>, l: nat)
    requires Fits(sizes) && 1 <= l <= 15
    ensures NextCode(sizes, l) + Num(sizes, l) <= Pow2(l)
  {
    NextCodeGrows(sizes, l, 16);
    Pow2Values();
    Pow2Add(l, 16 - l);
    MulLeCancel(NextCode(sizes, l) + Num(sizes, l), Pow2(l), Pow2(16 - l));
  }

  lemma CodeFits(sizes: seq<nat>, s: nat)
    requires Fits(sizes) && s < |sizes| && sizes[s] >= 1
    ensures Code(sizes, s) < NextCode(sizes, sizes[s]) + Num(sizes, sizes[s]) <= Pow2(sizes[s])
  {
    CodesFit(sizes, sizes[s]);
    CountSizeMono(sizes, sizes[s], s, |sizes|);
  }

  /** A longer code begins, at a bits, beyond every code of a bits. */
  lemma PrefixBeyond(sizes: seq<nat>, a: nat, t: nat)
    requires t < |sizes| && 1 <= a < sizes[t]
    ensures Shr(Code(sizes, t), sizes[t] - a) >= NextCode(sizes, a) + Num(sizes, a)
  {
    NextCodeGrows(sizes, a, sizes[t]);
    ShrAtLeast(Code(sizes, t), NextCode(sizes, a) + Num(sizes, a), sizes[t] - a);
  }

  /** No code begins with another. */
  lemma PrefixFree(sizes: seq<nat>, s: nat, t: nat)
    requires s < |sizes| && t < |sizes| && s != t && 1 <= sizes[s] <= sizes[t]
    ensures Shr(Code(sizes, t), sizes[t] - sizes[s]) != Code(sizes, s)
  {
    var a := sizes[s];
    CountSizeMono(sizes, a, s, |sizes|);
    if a < sizes[t] {
      PrefixBeyond(sizes, a, t);
    } else if s < t {
      CountSizeMono(sizes, a, s, t);
    } else {
      CountSizeMono(sizes, a, t, s);
    }
  }
}
