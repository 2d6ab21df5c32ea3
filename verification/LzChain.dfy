/** The places on a hash chain that tdefl_find_match looks at, and what it leaves behind there. */
module LzChain {
  import opened Bits
  import opened Symbols
  import opened LzWindow

  /** The k-th place on the chain of a position, as a place in the ring. */
  function ChainAt(next: seq<u16>, pos: nat, k: nat): (p: nat)
    requires |next| == DICT_SIZE
    ensures p < DICT_SIZE
  {
    if k == 0 then pos % DICT_SIZE else next[ChainAt(next, pos, k - 1)] % DICT_SIZE
  }

  /** And how far back the step after the k-th leads. */
  function StepBack(next: seq<u16>, pos: nat, k: nat): (d: nat)
    requires |next| == DICT_SIZE
    ensures d < 65536
  {
    (pos - next[ChainAt(next, pos, k)]) % 65536
  }

  /** No step after the k-th: none is noted, it leads out of the dictionary, or back to the position. */
  predicate ChainEnds(next: seq<u16>, pos: nat, dictSize: nat, k: nat)
    requires |next| == DICT_SIZE
  {
    next[ChainAt(next, pos, k)] == 0 || StepBack(next, pos, k) > dictSize || StepBack(next, pos, k) == 0
  }

  /** So many bytes in the ring agree. */
  ghost predicate Agree(d: seq<byte>, a: nat, b: nat, n: nat) {
    a + n <= |d| && b + n <= |d| && d[a..a + n] == d[b..b + n]
  }

  ghost predicate NoneAgrees(d: seq<byte>, next: seq<u16>, pos: nat, probed: nat, n: nat)
    requires |next| == DICT_SIZE
  {
    forall k :: 1 <= k <= probed ==> !Agree(d, pos % DICT_SIZE, ChainAt(next, pos, k), n)
  }

  lemma AgreeLess(d: seq<byte>, a: nat, b: nat, m: nat, n: nat)
    requires Agree(d, a, b, n) && m <= n
    ensures Agree(d, a, b, m)
  {
    assert d[a..a + m] == d[a..a + n][..m] && d[b..b + m] == d[b..b + n][..m];
  }

  lemma NoneAgreesMore(d: seq<byte>, next: seq<u16>, pos: nat, probed: nat, m: nat, n: nat)
    requires |next| == DICT_SIZE && NoneAgrees(d, next, pos, probed, m) && m <= n
    ensures NoneAgrees(d, next, pos, probed, n)
  {
    hide Agree, ChainAt;
    forall k | 1 <= k <= probed && Agree(d, pos % DICT_SIZE, ChainAt(next, pos, k), n)
      ensures false
    {
      AgreeLess(d, pos % DICT_SIZE, ChainAt(next, pos, k), m, n);
    }
  }

  /** One place more, at which one of the n bytes differs. */
  lemma OneMoreDiffers(d: seq<byte>, next: seq<u16>, pos: nat, probed: nat, n: nat, i: nat)
    requires |next| == DICT_SIZE && NoneAgrees(d, next, pos, probed, n) && i < n
    requires var a, b := pos % DICT_SIZE, ChainAt(next, pos, probed + 1);
             a + i < |d| && b + i < |d| && d[a + i] != d[b + i]
    ensures NoneAgrees(d, next, pos, probed + 1, n)
  {
    hide ChainAt;
    var a, b := pos % DICT_SIZE, ChainAt(next, pos, probed + 1);
    if Agree(d, a, b, n) { AgreeAt(d, a, b, n, i); }
  }

  lemma AgreeAt(d: seq<byte>, a: nat, b: nat, n: nat, i: nat)
    requires Agree(d, a, b, n) && i < n
    ensures d[a + i] == d[b + i]
  {
    assert d[a..a + n][i] == d[b..b + n][i];
  }

  lemma ChainStep(next: seq<u16>, pos: nat, k: nat)
    requires |next| == DICT_SIZE
    ensures ChainAt(next, pos, k + 1) == next[ChainAt(next, pos, k)] % DICT_SIZE
    ensures ChainAt(next, pos, 0) == pos % DICT_SIZE
  {
  }

  /** At none of the places looked at would a match of that length have been right. */
  ghost predicate NoneRepeats(hist: seq<byte>, next: seq<u16>, pos: nat, probed: nat, n: nat)
    requires |next| == DICT_SIZE
  {
    forall k: nat :: k < probed ==> !Repeats(hist, pos, StepBack(next, pos, k), n)
  }

  /** A distance that one of the first steps leads back. */
  ghost predicate OnChain(next: seq<u16>, pos: nat, probed: nat, dist: nat)
    requires |next| == DICT_SIZE
  {
    exists k: nat :: k < probed && dist == StepBack(next, pos, k)
  }

  lemma StepOnChain(next: seq<u16>, pos: nat, k: nat)
    requires |next| == DICT_SIZE
    ensures OnChain(next, pos, k + 1, StepBack(next, pos, k))
  {
  }

  lemma OnChainMore(next: seq<u16>, pos: nat, m: nat, n: nat, dist: nat)
    requires |next| == DICT_SIZE && OnChain(next, pos, m, dist) && m <= n
    ensures OnChain(next, pos, n, dist)
  {
    hide StepBack;
  }

  /** All steps so far stay in the dictionary. */
  ghost predicate StepsWithin(next: seq<u16>, pos: nat, dictSize: nat, probed: nat)
    requires |next| == DICT_SIZE
  {
    forall k: nat :: k < probed ==> !ChainEnds(next, pos, dictSize, k)
  }

  /** What repeats agrees in the ring. */
  lemma RepeatsAgree(dict: seq<byte>, hist: seq<byte>, pos: nat, ahead: nat, dictSize: nat, dist: nat, n: nat)
    requires 1 <= dist <= dictSize <= pos && pos + ahead == |hist| && n <= ahead <= MIRROR + 1
    requires |dict| == DICT_BUF && Window(dict, hist, pos - dictSize) && Repeats(hist, pos, dist, n)
    ensures Agree(dict, pos % DICT_SIZE, (pos - dist) % DICT_SIZE, n)
  {
    hide Window;
    var a, b := pos % DICT_SIZE, (pos - dist) % DICT_SIZE;
    if n > 0 {
      ReadAhead(dict, hist, pos - dictSize, pos, n - 1);
      ReadAhead(dict, hist, pos - dictSize, pos - dist, n - 1);
    }
    var x, y := dict[a..a + n], dict[b..b + n];
    forall i | 0 <= i < n
      ensures x[i] == y[i]
    {
      ReadAhead(dict, hist, pos - dictSize, pos, i);
      ReadAhead(dict, hist, pos - dictSize, pos - dist, i);
      assert hist[pos + i] == hist[pos + i - dist];
    }
  }

  lemma NoneAgreesNoneRepeats(dict: seq<byte>, hist: seq<byte>, next: seq<u16>, pos: nat, ahead: nat, dictSize: nat, probed: nat, n: nat)
    requires dictSize <= pos && pos + ahead == |hist| && n <= ahead <= MIRROR + 1
    requires |dict| == DICT_BUF && Window(dict, hist, pos - dictSize) && |next| == DICT_SIZE
    requires StepsWithin(next, pos, dictSize, probed) && NoneAgrees(dict, next, pos, probed, n)
    ensures NoneRepeats(hist, next, pos, probed, n)
  {
    hide Window, Repeats, Agree, ChainAt;
    forall k: nat | k < probed && Repeats(hist, pos, StepBack(next, pos, k), n)
      ensures false
    {
      var d := StepBack(next, pos, k);
      assert !ChainEnds(next, pos, dictSize, k);
      ChainStep(next, pos, k);
      ProbePosition(pos, next[ChainAt(next, pos, k)], d);
      RepeatsAgree(dict, hist, pos, ahead, dictSize, d, n);
    }
  }
}
