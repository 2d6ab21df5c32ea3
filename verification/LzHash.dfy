/** The hash chains of the compressor: every three bytes have a bucket, every position is entered into that of
    its three bytes, and the chain from a position leads to all earlier ones in the dictionary with the same. */
module LzHash {
  import opened Bits
  import opened Symbols
  import opened LzWindow
  import opened LzChain

  const HASH_SIZE := 32768
  const HASH_SHIFT := 32       // << TDEFL_LZ_HASH_SHIFT, of 5

  // ---------------------------------------------------------------- the hash

  /** Three bytes, five bits apart. */
  function HashOf(a: byte, b: byte, c: byte): (h: nat)
    ensures h < HASH_SIZE
  {
    Xor(Xor(a * 1024, b * 32), c) % HASH_SIZE
  }

  /** What is kept of a hash to go on from: all that matters of its last two bytes. */
  ghost predicate Rolled(h: nat, a: byte, b: byte) {
    (h * HASH_SHIFT) % HASH_SIZE == Xor(a * 1024, b * 32) % HASH_SIZE
  }

  lemma XorDouble(a: nat, b: nat)
    ensures Xor(2 * a, 2 * b) == 2 * Xor(a, b)
  {
    hide Xor;
    XorParts(2 * a, 2 * b);
    SameParts(Xor(2 * a, 2 * b), 2 * Xor(a, b));
  }

  lemma XorShift5(a: nat, b: nat)
    ensures Xor(a * 32, b * 32) == Xor(a, b) * 32
  {
    hide Xor;
    XorDouble(a, b);
    XorDouble(2 * a, 2 * b);
    XorDouble(4 * a, 4 * b);
    XorDouble(8 * a, 8 * b);
    XorDouble(16 * a, 16 * b);
  }

  lemma {:induction false} XorLow(a: nat, b: nat, n: nat)
    ensures Low(Xor(a, b), n) == Xor(Low(a, n), Low(b, n))
  {
    hide Xor, Low;
    if n > 0 {
      XorParts(a, b);
      XorLow(a / 2, b / 2, n - 1);
      LowParts(a, n);
      LowParts(b, n);
      LowParts(Xor(a, b), n);
      XorParts(Low(a, n), Low(b, n));
      SumParity(Low(a, n), Low(b, n), a, b);
      SameParts(Low(Xor(a, b), n), Xor(Low(a, n), Low(b, n)));
    } else {
      XorNone();
      NoneLow(a);
      NoneLow(b);
      NoneLow(Xor(a, b));
    }
  }

  lemma SumParity(u: nat, v: nat, a: nat, b: nat)
    requires u % 2 == a % 2 && v % 2 == b % 2
    ensures (u + v) % 2 == (a + b) % 2
  {
  }

  lemma NoneLow(v: nat)
    ensures Low(v, 0) == 0
  {
  }

  lemma LowParts(v: nat, n: nat)
    requires n > 0
    ensures Low(v, n) % 2 == v % 2 && Low(v, n) / 2 == Low(v / 2, n - 1)
  {
  }

  lemma SameParts(a: nat, b: nat)
    requires a % 2 == b % 2 && a / 2 == b / 2
    ensures a == b
  {
  }

  /** What is kept of an exclusive or is that of what is kept. */
  lemma XorRemainder(a: nat, b: nat)
    ensures Xor(a, b) % 32768 == Xor(a % 32768, b % 32768)
  {
    hide Low, Xor, Pow2;
    Pow2Values();
    XorLow(a, b, 15);
    LowIsRemainder(Xor(a, b), 15);
    LowIsRemainder(a, 15);
    LowIsRemainder(b, 15);
  }

  /** The first two bytes, before a third. */
  lemma StartsRolled(a: byte, b: byte)
    ensures Rolled(Xor(a * HASH_SHIFT, b), a, b)
  {
    hide Xor;
    XorShift5(a * 32, b);
  }

  /** The next byte gives the hash of the three, of which in turn all that matters is kept. */
  lemma Rolls(h: nat, a: byte, b: byte, c: byte)
    requires Rolled(h, a, b)
    ensures Xor(h * HASH_SHIFT, c) % HASH_SIZE == HashOf(a, b, c)
    ensures Rolled(HashOf(a, b, c), b, c)
  {
    hide Xor;
    XorRemainder(h * 32, c);
    XorRemainder(Xor(a * 1024, b * 32), c);
    ShiftsOut(a, b, c);
  }

  /** The first byte is shifted out. */
  lemma ShiftsOut(a: byte, b: byte, c: byte)
    ensures (HashOf(a, b, c) * 32) % 32768 == Xor(b * 1024, c * 32) % 32768
  {
    hide Xor;
    var x, y := Xor(a * 1024, b * 32), Xor(Xor(a * 1024, b * 32), c);
    TimesRemainder(y);
    XorShift5(x, c);
    XorShift5(a * 1024, b * 32);
    assert a * 1024 * 32 == 32768 * a && b * 32 * 32 == b * 1024;
    assert y * 32 == Xor(Xor(32768 * a, b * 1024), c * 32);
    XorAssociates(32768 * a, b * 1024, c * 32);
    XorRemainder(32768 * a, Xor(b * 1024, c * 32));
    assert (32768 * a) % 32768 == 0 by { Multiple(a); }
    XorZero(Xor(b * 1024, c * 32) % 32768);
  }

  lemma XorZero(v: nat)
    ensures Xor(0, v) == v
  {
  }

  lemma Multiple(a: nat)
    ensures (32768 * a) % 32768 == 0
  {
    QuotientUnique(32768, (32768 * a) / 32768, (32768 * a) % 32768, a, 0);
  }

  lemma TimesRemainder(y: nat)
    ensures (y % 32768 * 32) % 32768 == (y * 32) % 32768
  {
    var q, r := y / 32768, y % 32768;
    assert y * 32 == (32 * q) * 32768 + r * 32;
    var q', r' := (r * 32) / 32768, (r * 32) % 32768;
    QuotientUnique(32768, (y * 32) / 32768, (y * 32) % 32768, 32 * q + q', r');
  }

  // ---------------------------------------------------------------- the chains

  /** The bucket of a position. */
  function BucketOf(hist: seq<byte>, p: nat): (h: nat)
    requires p + 3 <= |hist|
    ensures h < HASH_SIZE
  {
    HashOf(hist[p], hist[p + 1], hist[p + 2])
  }

  predicate SameBucket(hist: seq<byte>, p: nat, q: nat) {
    p + 3 <= |hist| && q + 3 <= |hist| && BucketOf(hist, p) == BucketOf(hist, q)
  }

  /** No position in between is in q's bucket. */
  ghost predicate NoneBetween(hist: seq<byte>, q: nat, p: nat) {
    forall r: nat :: q < r < p ==> !SameBucket(hist, q, r)
  }

  /** How many positions are entered: all with three bytes. */
  function Entered(hist: seq<byte>): nat {
    if |hist| < 2 then 0 else |hist| - 2
  }

  /** From lo on, every position's link leads to the one before it in its bucket, and the bucket to its last. */
  ghost predicate Linked(next: seq<u16>, hash: seq<u16>, hist: seq<byte>, lo: nat, hi: nat) {
    && |next| == DICT_SIZE && |hash| == HASH_SIZE && hi <= Entered(hist)
    && (forall q: nat, p: nat :: lo <= q < p < hi && SameBucket(hist, q, p) ==> LinksTo(next, hist, q, p))
    && (forall q: nat :: lo <= q < hi ==> HeadIs(hash, hist, q, hi))
  }

  ghost predicate LinksTo(next: seq<u16>, hist: seq<byte>, q: nat, p: nat)
    requires |next| == DICT_SIZE
  {
    NoneBetween(hist, q, p) ==> next[p % DICT_SIZE] == q % 65536
  }

  ghost predicate HeadIs(hash: seq<u16>, hist: seq<byte>, q: nat, hi: nat)
    requires |hash| == HASH_SIZE && q < hi <= Entered(hist)
  {
    NoneBetween(hist, q, hi) ==> hash[BucketOf(hist, q)] == q % 65536
  }

  lemma LinkedLess(next: seq<u16>, hash: seq<u16>, hist: seq<byte>, lo: nat, lo': nat, hi: nat)
    requires Linked(next, hash, hist, lo, hi) && lo <= lo'
    ensures Linked(next, hash, hist, lo', hi)
  {
    hide LinksTo, HeadIs;
  }

  /** More input moves no position to another bucket. */
  lemma LinkedMore(next: seq<u16>, hash: seq<u16>, hist: seq<byte>, more: seq<byte>, lo: nat, hi: nat)
    requires Linked(next, hash, hist, lo, hi)
    ensures Linked(next, hash, hist + more, lo, hi)
  {
    var all := hist + more;
    forall p: nat, q: nat | p < hi && q < hi
      ensures SameBucket(all, p, q) == SameBucket(hist, p, q) && BucketOf(all, p) == BucketOf(hist, p)
    {
    }
    forall q: nat, p: nat | lo <= q < p < hi && SameBucket(all, q, p)
      ensures LinksTo(next, all, q, p)
    {
      assert LinksTo(next, hist, q, p);
    }
    forall q: nat | lo <= q < hi
      ensures HeadIs(hash, all, q, hi)
    {
      assert HeadIs(hash, hist, q, hi);
    }
  }

  /** One position more is entered. */
  lemma LinkedEnter(next: seq<u16>, hash: seq<u16>, hist: seq<byte>, lo: nat, m: nat)
    requires Linked(next, hash, hist, lo, m) && m < Entered(hist) && lo <= m < lo + DICT_SIZE
    ensures var h := BucketOf(hist, m);
            Linked(next[m % DICT_SIZE := hash[h]], hash[h := m % 65536], hist, lo, m + 1)
  {
    var h := BucketOf(hist, m);
    var next', hash' := next[m % DICT_SIZE := hash[h]], hash[h := m % 65536];
    forall q: nat, p: nat | lo <= q < p < m + 1 && SameBucket(hist, q, p)
      ensures LinksTo(next', hist, q, p)
    {
      if p == m {
        if NoneBetween(hist, q, m) { assert HeadIs(hash, hist, q, m); }
      } else {
        assert LinksTo(next, hist, q, p);
        RingApart(p, m);
      }
    }
    var hi := m + 1;
    forall q: nat | lo <= q < hi
      ensures HeadIs(hash', hist, q, hi)
    {
      if q < m {
        assert HeadIs(hash, hist, q, m);
        if NoneBetween(hist, q, hi) {
          assert !SameBucket(hist, q, m);
          assert NoneBetween(hist, q, m);
        }
      }
    }
  }

  // ---------------------------------------------------------------- every earlier position is on the chain

  /** From p up to pos no position of that bucket is a multiple of 65536, which the tables cannot tell from none. */
  ghost predicate InSight(hist: seq<byte>, p: nat, pos: nat) {
    forall q: nat :: p <= q < pos && SameBucket(hist, q, pos) ==> q % 65536 != 0
  }

  /** The next position of the bucket after p. */
  lemma {:induction false} NextInBucket(hist: seq<byte>, p: nat, pos: nat) returns (q: nat)
    requires p < pos && SameBucket(hist, p, pos)
    ensures p < q <= pos && SameBucket(hist, q, pos) && NoneBetween(hist, p, q)
    decreases pos - p
  {
    q := p + 1;
    while !SameBucket(hist, p, q)
      invariant p < q <= pos && NoneBetween(hist, p, q)
      decreases pos - q
    {
      q := q + 1;
    }
  }

  /** So the chain from pos leads to every earlier position of its bucket that is in sight, with all steps
      before it inside the dictionary. */
  lemma {:induction false} ChainReaches(next: seq<u16>, hash: seq<u16>, hist: seq<byte>, lo: nat, hi: nat, pos: nat, p: nat)
    returns (k: nat)
    requires Linked(next, hash, hist, lo, hi) && lo <= p < pos < hi && pos - lo < 65536
    requires SameBucket(hist, p, pos) && InSight(hist, p, pos)
    ensures k < pos - p && StepBack(next, pos, k) == pos - p && ChainAt(next, pos, k + 1) == p % DICT_SIZE
    ensures StepsWithin(next, pos, pos - lo, k + 1)
    decreases pos - p
  {
    hide BucketOf, ChainAt, StepBack, ChainEnds;
    var q := NextInBucket(hist, p, pos);
    assert LinksTo(next, hist, p, q);
    assert p % 65536 != 0;
    if q == pos {
      k := 0;
      ChainStep(next, pos, 0);
      StepsTo(next, pos, pos, 0, p);
      assert StepsWithin(next, pos, pos - lo, 1) by { OneWithin(next, pos, pos - lo, 0, p); }
    } else {
      var j := ChainReaches(next, hash, hist, lo, hi, pos, q);
      k := j + 1;
      ChainStep(next, pos, j + 1);
      StepsTo(next, pos, q, k, p);
      OneWithin(next, pos, pos - lo, k, p);
    }
  }

  lemma StepsTo(next: seq<u16>, pos: nat, q: nat, k: nat, p: nat)
    requires |next| == DICT_SIZE && p < q <= pos && pos - p < 65536
    requires ChainAt(next, pos, k) == q % DICT_SIZE && next[q % DICT_SIZE] == p % 65536
    ensures StepBack(next, pos, k) == pos - p && ChainAt(next, pos, k + 1) == p % DICT_SIZE
  {
    hide ChainAt;
    ChainStep(next, pos, k);
    Wraps(pos, p);
    InRing(p);
  }

  lemma Wraps(pos: nat, p: nat)
    requires p <= pos < p + 65536
    ensures (pos - p % 65536) % 65536 == pos - p
  {
    QuotientUnique(65536, (pos - p % 65536) / 65536, (pos - p % 65536) % 65536, p / 65536, pos - p);
  }

  lemma InRing(p: nat)
    ensures p % 65536 % DICT_SIZE == p % DICT_SIZE
  {
    var a, b := p / 65536, p % 65536;
    QuotientUnique(DICT_SIZE, p / DICT_SIZE, p % DICT_SIZE, 2 * a + b / DICT_SIZE, b % DICT_SIZE);
  }

  /** The steps so far, and one more, that is in the dictionary. */
  lemma OneWithin(next: seq<u16>, pos: nat, dictSize: nat, k: nat, p: nat)
    requires |next| == DICT_SIZE && StepsWithin(next, pos, dictSize, k) && p < pos && pos - p <= dictSize
    requires StepBack(next, pos, k) == pos - p && next[ChainAt(next, pos, k)] == p % 65536 && p % 65536 != 0
    ensures StepsWithin(next, pos, dictSize, k + 1)
  {
    hide StepBack, ChainAt;
  }

  /** And where the last position of the bucket before pos is a multiple of 65536, the chain ends at once: neither
      it nor what lies before it is ever found. */
  lemma MultipleHides(next: seq<u16>, hash: seq<u16>, hist: seq<byte>, lo: nat, hi: nat, pos: nat, q: nat, dictSize: nat)
    requires Linked(next, hash, hist, lo, hi) && lo <= q < pos < hi && SameBucket(hist, q, pos) && NoneBetween(hist, q, pos)
    requires q % 65536 == 0
    ensures ChainEnds(next, pos, dictSize, 0) && !InSight(hist, q, pos)
  {
    hide BucketOf;
    assert LinksTo(next, hist, q, pos);
    ChainStep(next, pos, 0);
  }

  /** No position in the dictionary and in sight repeats so many bytes. */
  ghost predicate NoneBetter(hist: seq<byte>, pos: nat, dictSize: nat, n: nat) {
    forall p: nat :: p < pos <= p + dictSize && InSight(hist, p, pos) ==> !Repeats(hist, pos, pos - p, n)
  }

  lemma RepeatsSameBucket(hist: seq<byte>, pos: nat, p: nat, n: nat)
    requires p < pos && n >= 3 && Repeats(hist, pos, pos - p, n)
    ensures SameBucket(hist, p, pos)
  {
    assert hist[pos] == hist[pos - (pos - p)] && hist[pos + 1] == hist[pos + 1 - (pos - p)] && hist[pos + 2] == hist[pos + 2 - (pos - p)];
  }

  /** A chain followed to its end, or far enough, has no better match. */
  lemma FollowedIsBest(next: seq<u16>, hash: seq<u16>, hist: seq<byte>, pos: nat, dictSize: nat, probed: nat, n: nat)
    requires dictSize <= pos && dictSize < 65536 && n >= 3
    requires Linked(next, hash, hist, pos - dictSize, Entered(hist)) && NoneRepeats(hist, next, pos, probed, n)
    requires ChainEnds(next, pos, dictSize, probed) || probed >= dictSize
    ensures NoneBetter(hist, pos, dictSize, n)
  {
    hide BucketOf, ChainAt, StepBack, ChainEnds, Linked, Repeats;
    forall p: nat | p < pos <= p + dictSize && InSight(hist, p, pos)
      ensures !Repeats(hist, pos, pos - p, n)
    {
      if Repeats(hist, pos, pos - p, n) {
        RepeatsSameBucket(hist, pos, p, n);
        var k := ChainReaches(next, hash, hist, pos - dictSize, Entered(hist), pos, p);
        LookedAt(next, pos, dictSize, probed, k);
      }
    }
  }

  lemma LookedAt(next: seq<u16>, pos: nat, dictSize: nat, probed: nat, k: nat)
    requires |next| == DICT_SIZE && StepsWithin(next, pos, dictSize, k + 1) && k < dictSize
    requires ChainEnds(next, pos, dictSize, probed) || probed >= dictSize
    ensures k < probed
  {
    hide ChainEnds;
  }
}
