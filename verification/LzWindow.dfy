/** The compressor's ring dictionary: the last bytes of the input, at their position modulo the
    ring size, with the first bytes mirrored past the end so that matches read straight on. */
module LzWindow {
  import opened Bits
  import opened Tokens

  const DICT_SIZE := 32768
  const MIRROR := 257          // TDEFL_MAX_MATCH_LEN - 1
  const DICT_BUF := 33025      // DICT_SIZE + MIRROR

  /** The ring holds the input from lo on, and so does the mirror. */
  ghost predicate Window(dict: seq<byte>, hist: seq<byte>, lo: nat) {
    && |dict| == DICT_BUF && lo <= |hist| <= lo + DICT_SIZE
    && forall p :: lo <= p < |hist| ==> Held(dict, hist, p)
  }

  ghost predicate Held(dict: seq<byte>, hist: seq<byte>, p: nat)
    requires |dict| == DICT_BUF && p < |hist|
  {
    && dict[p % DICT_SIZE] == hist[p]
    && (p % DICT_SIZE < MIRROR ==> dict[DICT_SIZE + p % DICT_SIZE] == hist[p])
  }

  /** Reading i bytes past the ring position of p, without wrapping. */
  lemma ReadAhead(dict: seq<byte>, hist: seq<byte>, lo: nat, p: nat, i: nat)
    requires Window(dict, hist, lo) && lo <= p && p + i < |hist| && i <= MIRROR
    ensures p % DICT_SIZE + i < |dict| && dict[p % DICT_SIZE + i] == hist[p + i]
  {
    assert Held(dict, hist, p + i);
    var r := p % DICT_SIZE + i;
    assert (p + i) % DICT_SIZE == if r < DICT_SIZE then r else r - DICT_SIZE;
  }

  /** The ring after one more byte. */
  function Written(dict: seq<byte>, n: nat, c: byte): (r: seq<byte>)
    requires |dict| == DICT_BUF
  {
    var d := dict[n % DICT_SIZE := c];
    if n % DICT_SIZE < MIRROR then d[DICT_SIZE + n % DICT_SIZE := c] else d
  }

  lemma StoreKeeps(dict: seq<byte>, hist: seq<byte>, lo: nat, c: byte, lo': nat)
    requires Window(dict, hist, lo) && lo <= lo' <= |hist| < lo' + DICT_SIZE
    ensures Window(Written(dict, |hist|, c), hist + [c], lo')
  {
    var n, h, d := |hist|, hist + [c], Written(dict, |hist|, c);
    forall p | lo' <= p < |h|
      ensures Held(d, h, p)
    {
      if p < n {
        assert Held(dict, hist, p);
        RingApart(p, n);
      }
    }
  }

  lemma RingApart(p: nat, n: nat)
    requires p < n < p + DICT_SIZE
    ensures p % DICT_SIZE != n % DICT_SIZE
  {
    if p % DICT_SIZE == n % DICT_SIZE {
      SmallMultipleIsZero(n / DICT_SIZE - p / DICT_SIZE, DICT_SIZE);
    }
  }

  lemma WindowShrinks(dict: seq<byte>, hist: seq<byte>, lo: nat, lo': nat)
    requires Window(dict, hist, lo) && lo <= lo' <= |hist|
    ensures Window(dict, hist, lo')
  {
  }

  /** The bytes from at on repeat those dist before. */
  ghost predicate Repeats(hist: seq<byte>, at: nat, dist: nat, len: nat) {
    && 1 <= dist <= at && at + len <= |hist|
    && forall i :: at <= i < at + len ==> hist[i] == hist[i - dist]
  }

  /** So a match of that distance and length reproduces them. */
  lemma {:induction false} RepeatsExpand(hist: seq<byte>, at: nat, dist: nat, len: nat)
    requires Repeats(hist, at, dist, len)
    ensures LzCopy(hist[..at], len, dist) == hist[..at + len]
    decreases len
  {
    if len > 0 {
      assert hist[at] == hist[at - dist];
      assert hist[..at] + [hist[at]] == hist[..at + 1];
      RepeatsExpand(hist, at + 1, dist, len - 1);
    }
  }

  lemma RepeatsGrow(hist: seq<byte>, hist': seq<byte>, at: nat, dist: nat, len: nat)
    requires Repeats(hist, at, dist, len) && hist <= hist'
    ensures Repeats(hist', at, dist, len)
  {
  }

  /** A distance kept modulo 65536 names the right ring position. */
  lemma ProbePosition(pos: nat, npp: nat, dist: nat)
    requires npp < 65536 && dist == (pos - npp) % 65536 && dist <= pos
    ensures (pos - dist) % DICT_SIZE == npp % DICT_SIZE
  {
    var k := (pos - npp) / 65536;
    assert pos - dist == npp + 2 * k * DICT_SIZE;
    var a, b := (pos - dist) / DICT_SIZE, npp / DICT_SIZE;
    assert npp == b * DICT_SIZE + npp % DICT_SIZE;
    QuotientUnique(DICT_SIZE, a, (pos - dist) % DICT_SIZE, b + 2 * k, npp % DICT_SIZE);
  }

  /** A literal or a repeat continues an expansion of the input so far. */
  lemma ExpandsLiteral(from: seq<byte>, ts: seq<Token>, hist: seq<byte>, at: nat)
    requires at < |hist| && Expands(from, ts, hist[..at])
    ensures Expands(from, ts + [Literal(hist[at])], hist[..at + 1])
  {
    assert Apply(hist[..at], Literal(hist[at])) == hist[..at + 1];
    ExpandsOne(hist[..at], Literal(hist[at]));
    ExpandsAppend(from, ts, hist[..at], [Literal(hist[at])], hist[..at + 1]);
  }

  lemma ExpandsMatch(from: seq<byte>, ts: seq<Token>, hist: seq<byte>, at: nat, dist: nat, len: nat)
    requires Repeats(hist, at, dist, len) && MIN_MATCH <= len <= MAX_MATCH && dist <= MAX_DIST
    requires Expands(from, ts, hist[..at])
    ensures Expands(from, ts + [Match(len, dist)], hist[..at + len])
  {
    hide LzCopy;
    RepeatsExpand(hist, at, dist, len);
    ExpandsOne(hist[..at], Match(len, dist));
    ExpandsAppend(from, ts, hist[..at], [Match(len, dist)], hist[..at + len]);
  }

  lemma ExpandsOne(a: seq<byte>, t: Token)
    requires CanFollow(t, a)
    ensures Expands(a, [t], Apply(a, t))
  {
    assert [t][1..] == [];
  }
}
