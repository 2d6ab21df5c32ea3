/** Literals and matches, and their symbols and extra bits (section 3.2.5 of RFC 1951).
    The encoder finds symbols by range tables, the decoder reads bases and extra-bit counts. */
module Tokens {
  import opened Bits
  import opened InflateTable

  const MIN_MATCH := 3
  const MAX_MATCH := 258
  const MAX_DIST := 32768
  const END_OF_BLOCK := 256

  datatype Token = Literal(lit: byte) | Match(len: nat, dist: nat)

  ghost predicate ValidToken(t: Token) {
    t.Match? ==> MIN_MATCH <= t.len <= MAX_MATCH && 1 <= t.dist <= MAX_DIST
  }

  // ---------------------------------------------------------------- the encoder's tables

  /** s_tdefl_len_sym, by the match length less three. */
  function LenSym(l: nat): (s: nat)
    requires l < 256
    ensures 257 <= s <= 285
  {
    if l < 8 then 257 + l
    else if l < 16 then 265 + (l - 8) / 2
    else if l < 32 then 269 + (l - 16) / 4
    else if l < 64 then 273 + (l - 32) / 8
    else if l < 128 then 277 + (l - 64) / 16
    else if l < 255 then 281 + (l - 128) / 32
    else 285
  }

  /** s_tdefl_len_extra. */
  function LenExtra(l: nat): (e: nat)
    requires l < 256
    ensures e <= 5
  {
    if l < 8 then 0 else if l < 16 then 1 else if l < 32 then 2 else if l < 64 then 3
    else if l < 128 then 4 else if l < 255 then 5 else 0
  }

  /** s_tdefl_small_dist_sym, by the distance less one, below 512. */
  function SmallDistSym(d: nat): nat
    requires d < 512
  {
    if d < 4 then d
    else if d < 8 then 4 + (d - 4) / 2
    else if d < 16 then 6 + (d - 8) / 4
    else if d < 32 then 8 + (d - 16) / 8
    else if d < 64 then 10 + (d - 32) / 16
    else if d < 128 then 12 + (d - 64) / 32
    else if d < 256 then 14 + (d - 128) / 64
    else 16 + (d - 256) / 128
  }

  /** s_tdefl_small_dist_extra. */
  function SmallDistExtra(d: nat): nat
    requires d < 512
  {
    if d < 4 then 0 else if d < 8 then 1 else if d < 16 then 2 else if d < 32 then 3
    else if d < 64 then 4 else if d < 128 then 5 else if d < 256 then 6 else 7
  }

  /** s_tdefl_large_dist_sym, by the high byte of the distance less one. */
  function LargeDistSym(h: nat): nat
    requires h < 128
  {
    if h < 2 then 0
    else if h < 4 then 16 + h
    else if h < 8 then 20 + (h - 4) / 2
    else if h < 16 then 22 + (h - 8) / 4
    else if h < 32 then 24 + (h - 16) / 8
    else if h < 64 then 26 + (h - 32) / 16
    else 28 + (h - 64) / 32
  }

  /** s_tdefl_large_dist_extra. */
  function LargeDistExtra(h: nat): nat
    requires h < 128
  {
    if h < 2 then 0 else if h < 4 then 8 else if h < 8 then 9 else if h < 16 then 10
    else if h < 32 then 11 else if h < 64 then 12 else 13
  }

  function DistSym(d: nat): (s: nat)
    requires d < 32768
    ensures s <= 29
  {
    if d < 512 then SmallDistSym(d) else LargeDistSym(d / 256)
  }

  function DistExtra(d: nat): (e: nat)
    requires d < 32768
    ensures e <= 13
  {
    if d < 512 then SmallDistExtra(d) else LargeDistExtra(d / 256)
  }

  // ---------------------------------------------------------------- the decoder's tables

  const LENGTH_BASE: seq<nat> :=
    [3, 4, 5, 6, 7, 8, 9, 10, 11, 13, 15, 17, 19, 23, 27, 31, 35, 43, 51, 59, 67, 83, 99, 115, 131, 163, 195, 227, 258, 0, 0]
  const LENGTH_EXTRA: seq<nat> :=
    [0, 0, 0, 0, 0, 0, 0, 0, 1, 1, 1, 1, 2, 2, 2, 2, 3, 3, 3, 3, 4, 4, 4, 4, 5, 5, 5, 5, 0, 0, 0]
  const DIST_BASE: seq<nat> :=
    [1, 2, 3, 4, 5, 7, 9, 13, 17, 25, 33, 49, 65, 97, 129, 193, 257, 385, 513, 769, 1025, 1537, 2049, 3073, 4097, 6145,
     8193, 12289, 16385, 24577, 0, 0]
  const DIST_EXTRA: seq<nat> :=
    [0, 0, 0, 0, 1, 1, 2, 2, 3, 3, 4, 4, 5, 5, 6, 6, 7, 7, 8, 8, 9, 9, 10, 10, 11, 11, 12, 12, 13, 13, 0, 0]

  // ---------------------------------------------------------------- the tables agree

  lemma LengthAgrees(l: nat)
    requires l < 256
    ensures var k := LenSym(l) - 257;
            LENGTH_EXTRA[k] == LenExtra(l) && LENGTH_BASE[k] + Low(l, LenExtra(l)) == l + MIN_MATCH
  {
    hide Low;
    LowIsRemainder(l, LenExtra(l));
    Pow2Values();
    assert Pow2(0) == 1;
    hide Pow2;
    if l < 32 { ShortLengths(l); } else if l < 128 { MiddleLengths(l); } else { LongLengths(l); }
  }

  lemma ShortLengths(l: nat)
    requires l < 32
    ensures var k := LenSym(l) - 257;
            LENGTH_EXTRA[k] == LenExtra(l)
            && LENGTH_BASE[k] + (if l < 8 then 0 else if l < 16 then l % 2 else l % 4) == l + MIN_MATCH
  {
    var k := LenSym(l) - 257;
    if l < 8 {
    } else if l < 16 {
      assert k == 8 || k == 9 || k == 10 || k == 11;
    } else {
      assert k == 12 || k == 13 || k == 14 || k == 15;
    }
  }

  lemma MiddleLengths(l: nat)
    requires 32 <= l < 128
    ensures var k := LenSym(l) - 257;
            LENGTH_EXTRA[k] == LenExtra(l) && LENGTH_BASE[k] + (if l < 64 then l % 8 else l % 16) == l + MIN_MATCH
  {
    var k := LenSym(l) - 257;
    if l < 64 {
      assert k == 16 || k == 17 || k == 18 || k == 19;
    } else {
      assert k == 20 || k == 21 || k == 22 || k == 23;
    }
  }

  lemma LongLengths(l: nat)
    requires 128 <= l < 256
    ensures var k := LenSym(l) - 257;
            LENGTH_EXTRA[k] == LenExtra(l) && LENGTH_BASE[k] + (if l < 255 then l % 32 else 0) == l + MIN_MATCH
  {
    var k := LenSym(l) - 257;
    if l < 255 {
      assert k == 24 || k == 25 || k == 26 || k == 27;
    }
  }

  lemma DistanceAgrees(d: nat)
    requires d < MAX_DIST
    ensures var k := DistSym(d);
            DIST_EXTRA[k] == DistExtra(d) && DIST_BASE[k] + Low(d, DistExtra(d)) == d + 1
  {
    hide Low;
    LowIsRemainder(d, DistExtra(d));
    Pow2Values();
    assert Pow2(0) == 1;
    hide Pow2;
    if d < 32 { NearDistances(d); } else if d < 512 { SmallDistances(d); }
    else if d < 4096 { LargeDistances(d); } else { FarDistances(d); }
  }

  lemma NearDistances(d: nat)
    requires d < 32
    ensures var k := DistSym(d);
            DIST_EXTRA[k] == DistExtra(d)
            && DIST_BASE[k] + (if d < 4 then 0 else if d < 8 then d % 2 else if d < 16 then d % 4 else d % 8) == d + 1
  {
    var k := DistSym(d);
    if d < 4 {
    } else if d < 8 {
      assert k == 4 || k == 5;
    } else if d < 16 {
      assert k == 6 || k == 7;
    } else {
      assert k == 8 || k == 9;
    }
  }

  lemma SmallDistances(d: nat)
    requires 32 <= d < 512
    ensures var k := DistSym(d);
            DIST_EXTRA[k] == DistExtra(d)
            && DIST_BASE[k] + (if d < 64 then d % 16 else if d < 128 then d % 32 else if d < 256 then d % 64 else d % 128)
               == d + 1
  {
    var k := DistSym(d);
    if d < 64 {
      assert k == 10 || k == 11;
    } else if d < 128 {
      assert k == 12 || k == 13;
    } else if d < 256 {
      assert k == 14 || k == 15;
    } else {
      assert k == 16 || k == 17;
    }
  }

  lemma LargeDistances(d: nat)
    requires 512 <= d < 4096
    ensures var k := DistSym(d);
            DIST_EXTRA[k] == DistExtra(d)
            && DIST_BASE[k] + (if d < 1024 then d % 256 else if d < 2048 then d % 512 else d % 1024) == d + 1
  {
    var k := DistSym(d);
    if d < 1024 {
      assert k == 18 || k == 19;
    } else if d < 2048 {
      assert k == 20 || k == 21;
    } else {
      assert k == 22 || k == 23;
    }
  }

  lemma FarDistances(d: nat)
    requires 4096 <= d < MAX_DIST
    ensures var k := DistSym(d);
            DIST_EXTRA[k] == DistExtra(d)
            && DIST_BASE[k] + (if d < 8192 then d % 2048 else if d < 16384 then d % 4096 else d % 8192) == d + 1
  {
    var k := DistSym(d);
    if d < 8192 {
      assert k == 24 || k == 25;
    } else if d < 16384 {
      assert k == 26 || k == 27;
    } else {
      assert k == 28 || k == 29;
    }
  }

  // ---------------------------------------------------------------- tokens as bits

  /** The bits of one symbol's code. */
  function SymBits(sizes: seq<nat>, s: nat): (r: seq<bool>)
    requires s < |sizes| && sizes[s] >= 1
  {
    LowBits(Stored(sizes, s), sizes[s])
  }

  /** Every symbol the token needs has a code. */
  ghost predicate HasCodes(t: Token, ls: seq<nat>, ds: seq<nat>) {
    ValidToken(t) && match t
      case Literal(lit) => Uses(ls, lit)
      case Match(len, dist) => Uses(ls, LenSym(len - MIN_MATCH)) && Uses(ds, DistSym(dist - 1))
  }

  function TokenBits(t: Token, ls: seq<nat>, ds: seq<nat>): (r: seq<bool>)
    requires HasCodes(t, ls, ds)
  {
    match t
    case Literal(lit) => SymBits(ls, lit)
    case Match(len, dist) =>
      var l, d := len - MIN_MATCH, dist - 1;
      SymBits(ls, LenSym(l)) + LowBits(Low(l, LenExtra(l)), LenExtra(l))
      + SymBits(ds, DistSym(d)) + LowBits(Low(d, DistExtra(d)), DistExtra(d))
  }

  ghost predicate AllHaveCodes(ts: seq<Token>, ls: seq<nat>, ds: seq<nat>) {
    forall i :: 0 <= i < |ts| ==> HasCodes(ts[i], ls, ds)
  }

  /** The bits of a block's tokens, without the end-of-block symbol. */
  function TokensBits(ts: seq<Token>, ls: seq<nat>, ds: seq<nat>): (r: seq<bool>)
    requires AllHaveCodes(ts, ls, ds)
  {
    if ts == [] then [] else TokenBits(ts[0], ls, ds) + TokensBits(ts[1..], ls, ds)
  }

  lemma {:induction false} TokensBitsSplit(ts: seq<Token>, k: nat, ls: seq<nat>, ds: seq<nat>)
    requires AllHaveCodes(ts, ls, ds) && k <= |ts|
    ensures TokensBits(ts, ls, ds) == TokensBits(ts[..k], ls, ds) + TokensBits(ts[k..], ls, ds)
  {
    if k == 0 {
      assert ts[0..] == ts;
    } else {
      TokensBitsSplit(ts[1..], k - 1, ls, ds);
      assert ts[1..][..k - 1] == ts[..k][1..] && ts[1..][k - 1..] == ts[k..];
    }
  }

  // ---------------------------------------------------------------- what tokens expand to

  /** Copies len bytes, each from dist back in the output so far: overlap repeats. */
  function LzCopy(out: seq<byte>, len: nat, dist: nat): (r: seq<byte>)
    requires 1 <= dist <= |out|
    ensures |r| == |out| + len && out <= r
    decreases len
  {
    if len == 0 then out else LzCopy(out + [out[|out| - dist]], len - 1, dist)
  }

  /** The token can follow this output. */
  ghost predicate CanFollow(t: Token, out: seq<byte>) {
    ValidToken(t) && (t.Match? ==> t.dist <= |out|)
  }

  function Apply(out: seq<byte>, t: Token): (r: seq<byte>)
    requires CanFollow(t, out)
    ensures out <= r && |out| < |r|
  {
    match t
    case Literal(lit) => out + [lit]
    case Match(len, dist) => LzCopy(out, len, dist)
  }

  /** The tokens, in order, take output `from` to output `to`. */
  ghost predicate Expands(from: seq<byte>, ts: seq<Token>, to: seq<byte>)
    decreases |ts|
  {
    if ts == [] then from == to else
      CanFollow(ts[0], from) && Expands(Apply(from, ts[0]), ts[1..], to)
  }

  lemma {:induction false} ExpandsAppend(a: seq<byte>, ts: seq<Token>, b: seq<byte>, us: seq<Token>, c: seq<byte>)
    requires Expands(a, ts, b) && Expands(b, us, c)
    ensures Expands(a, ts + us, c)
    decreases |ts|
  {
    hide Apply, CanFollow;
    if ts == [] {
      assert ts + us == us;
    } else {
      ExpandsAppend(Apply(a, ts[0]), ts[1..], b, us, c);
      assert (ts + us)[1..] == ts[1..] + us;
    }
  }
}
