/** tinfl_decompress over whole blocks: on the bits of a list of blocks it writes exactly the
    bytes they stand for. */
module InflateBlocks {
  import opened Bits
  import opened Canonical
  import opened InflateTable
  import opened InflateBuild
  import opened BitIO
  import opened Tokens
  import opened SizePacking
  import opened BlockHeader
  import opened HeaderReader
  import opened InflateLoop
  import opened Blocks

  /** Where the stream stands: the next block starts at bit `at`, and the input ends on a byte. */
  ghost predicate Aligned(rest: seq<bool>, at: nat) {
    (|rest| + at) % 8 == 0
  }

  /** The three header bits as one number. */
  lemma HeaderNumber(f: nat, t: nat)
    requires f < 2 && t < 4
    ensures LowBits(f, 1) + LowBits(t, 2) == LowBits(f + 2 * t, 3) && f + 2 * t < Pow2(3)
  {
    hide LowBits, Pow2;
    Pow2Values();
    LowBitsConcat(f, 1, t, 2);
  }

  /** The next eight bits, from the bit buffer if it holds any, else straight from the input. */
  method NextByte(r: BitReader, ghost v: byte, ghost more: seq<bool>) returns (b: byte)
    requires r.Valid() && r.Rest() == LowBits(v, 8) + more
    modifies r
    ensures r.Valid() && b == v && r.Rest() == more
  {
    hide LowBits, Pow2;
    Pow2Values();
    if r.numBits > 0 {
      b := Field(r, 8, v, more);
    } else {
      RestAtByte(r.buf, r.input[r.pos..], LowBits(v, 8), more);
      assert r.pos < |r.input| by { RestLength(r.buf, r.numBits, r.input[r.pos..]); }
      FirstByte(r.input[r.pos..]);
      b := r.input[r.pos];
      SameByte(b, v, ByteBits(r.input[r.pos..][1..]), more);
      assert r.input[r.pos..][1..] == r.input[r.pos + 1..];
      r.pos := r.pos + 1;
      EmptyBuffer(r.buf, ByteBits(r.input[r.pos..]));
    }
  }

  lemma RestLength(buf: nat, numBits: nat, left: seq<byte>)
    ensures |LowBits(buf, numBits) + ByteBits(left)| == numBits + 8 * |left|
  {
  }

  lemma RestAtByte(buf: nat, left: seq<byte>, a: seq<bool>, b: seq<bool>)
    requires LowBits(buf, 0) + ByteBits(left) == a + b
    ensures ByteBits(left) == a + b
  {
    assert LowBits(buf, 0) == [];
    assert [] + ByteBits(left) == ByteBits(left);
  }

  lemma EmptyBuffer(buf: nat, more: seq<bool>)
    ensures LowBits(buf, 0) + more == more
  {
  }

  lemma SameByte(b: byte, v: byte, x: seq<bool>, y: seq<bool>)
    requires LowBits(b, 8) + x == LowBits(v, 8) + y
    ensures b == v && x == y
  {
    hide LowBits;
    assert (LowBits(b, 8) + x)[..8] == LowBits(b, 8) && (LowBits(v, 8) + y)[..8] == LowBits(v, 8);
    assert (LowBits(b, 8) + x)[8..] == x && (LowBits(v, 8) + y)[8..] == y;
    ByteBound(b);
    ByteBound(v);
    SameField(b, v, 8);
  }

  // ---------------------------------------------------------------- raw blocks

  lemma TwoBytes(v: nat)
    requires v < 65536
    ensures LowBits(v, 16) == LowBits(v % 256, 8) + LowBits(v / 256, 8) && v / 256 < 256
  {
    hide LowBits;
    Pow2Values();
    StoreBits(v, 16);
  }

  /** TINFL_SKIP_BITS to the byte boundary. */
  method SkipToByte(r: BitReader, ghost at: nat, ghost more: seq<bool>)
    requires r.Valid() && Aligned(r.Rest(), at) && r.Rest() == Zeros(Padding(at)) + more
    modifies r
    ensures r.Valid() && r.Rest() == more
  {
    hide LowBits, ByteBits, Zeros;
    RestLength(r.buf, r.numBits, r.input[r.pos..]);
    PaddingIs(at, r.numBits, |r.input| - r.pos);
    var b := r.GetBits(r.numBits % 8);
  }

  lemma PaddingIs(at: nat, numBits: nat, left: nat)
    requires (numBits + 8 * left + at) % 8 == 0
    ensures Padding(at) == numBits % 8
  {
  }

  /** The length and its complement. */
  method ReadRawLength(r: BitReader, ghost n: nat, ghost more: seq<bool>) returns (ok: bool, len: nat)
    requires r.Valid() && n < 65536 && r.Rest() == LowBits(n, 16) + LowBits(65535 - n, 16) + more
    modifies r
    ensures r.Valid() && ok && len == n && r.Rest() == more
  {
    hide LowBits, Pow2;
    ghost var m := 65535 - n;
    TwoBytes(n);
    TwoBytes(m);
    ghost var a, b, c, d := LowBits(n % 256, 8), LowBits(n / 256, 8), LowBits(m % 256, 8), LowBits(m / 256, 8);
    assert (a + b) + (c + d) + more == a + (b + (c + (d + more)));
    var h0 := NextByte(r, n % 256, b + (c + (d + more)));
    var h1 := NextByte(r, n / 256, c + (d + more));
    var h2 := NextByte(r, m % 256, d + more);
    var h3 := NextByte(r, m / 256, more);
    len := h0 as nat + 256 * h1 as nat;
    ok := len == 65535 - (h2 as nat + 256 * h3 as nat);
  }

  lemma DataHead(data: seq<byte>, more: seq<bool>)
    requires data != []
    ensures ByteBits(data) + more == LowBits(data[0], 8) + (ByteBits(data[1..]) + more)
  {
    hide LowBits;
  }

  /** Copies raw bytes: first those already in the bit buffer, then straight from the input. */
  method CopyRaw(r: BitReader, out: array<byte>, pos0: nat, counter0: nat, ghost data: seq<byte>, ghost more: seq<bool>)
    returns (pos: nat)
    requires r.Valid() && counter0 == |data| && pos0 + |data| <= out.Length
    requires r.Rest() == ByteBits(data) + more
    modifies r, out
    ensures r.Valid() && r.Rest() == more
    ensures pos == pos0 + |data| && out[..pos] == old(out[..pos0]) + data
  {
    hide LowBits, ByteBits, Pow2;
    var counter := counter0;
    pos := pos0;
    assert data[0..] == data;
    while counter > 0 && r.numBits > 0
      invariant 0 <= counter <= |data| && pos == pos0 + (|data| - counter) && r.Valid()
      invariant r.Rest() == ByteBits(data[|data| - counter..]) + more
      invariant out[..pos] == old(out[..pos0]) + data[..|data| - counter]
    {
      ghost var k := |data| - counter;
      DataHead(data[k..], more);
      assert data[k..][1..] == data[k + 1..];
      Pow2Values();
      var b := Field(r, 8, data[k], ByteBits(data[k + 1..]) + more);
      out[pos] := b;
      pos, counter := pos + 1, counter - 1;
      assert out[..pos] == out[..pos - 1] + [b];
    }
    if counter > 0 {
      pos := CopyBytes(r, out, pos, counter, data[|data| - counter..], more);
    } else {
      assert data[|data|..] == [];
      NoBytes(more);
    }
  }

  lemma NoBytes(more: seq<bool>)
    ensures ByteBits([]) + more == more
  {
  }

  /** memcpy from the input. */
  method CopyBytes(r: BitReader, out: array<byte>, pos0: nat, n: nat, ghost data: seq<byte>, ghost more: seq<bool>)
    returns (pos: nat)
    requires r.Valid() && r.numBits == 0 && n == |data| && pos0 + |data| <= out.Length
    requires r.Rest() == ByteBits(data) + more
    modifies r, out
    ensures r.Valid() && r.Rest() == more
    ensures pos == pos0 + |data| && out[..pos] == old(out[..pos0]) + data
  {
    hide LowBits, ByteBits, Pow2;
    ghost var left := r.input[r.pos..];
    RestAtByte(r.buf, left, ByteBits(data), more);
    SameBytes(left, data, more);
    var k := 0;
    while k < n
      invariant 0 <= k <= n && out[..pos0 + k] == old(out[..pos0]) + data[..k]
      invariant r.pos == old(r.pos) && r.buf == old(r.buf) && r.numBits == 0
    {
      assert r.input[r.pos + k] == left[k] == data[k];
      out[pos0 + k] := r.input[r.pos + k];
      k := k + 1;
      assert out[..pos0 + k] == out[..pos0 + k - 1] + [data[k - 1]];
    }
    assert r.input[r.pos + n..] == left[n..];
    r.pos := r.pos + n;
    pos := pos0 + n;
    EmptyBuffer(r.buf, ByteBits(r.input[r.pos..]));
  }

  /** Bytes are told apart by their bits. */
  lemma {:induction false} SameBytes(left: seq<byte>, data: seq<byte>, more: seq<bool>)
    requires ByteBits(left) == ByteBits(data) + more
    ensures |data| <= |left| && left[..|data|] == data && ByteBits(left[|data|..]) == more
    decreases |data|
  {
    hide LowBits;
    if data == [] {
      NoBytes(more);
      assert left[0..] == left;
    } else {
      DataHead(data, more);
      assert 8 * |left| == |ByteBits(left)| >= 8;
      FirstByte(left);
      SameByte(left[0], data[0], ByteBits(left[1..]), ByteBits(data[1..]) + more);
      SameBytes(left[1..], data[1..], more);
      assert left[1..][|data| - 1..] == left[|data|..];
    }
  }

  method InflateRaw(r: BitReader, out: array<byte>, pos0: nat, ghost data: seq<byte>, ghost at: nat, ghost tail: seq<bool>)
    returns (ok: bool, pos: nat)
    requires r.Valid() && |data| < 65536 && pos0 + |data| <= out.Length && Aligned(r.Rest(), at)
    requires r.Rest() == RawBits(data, at) + tail
    modifies r, out
    ensures r.Valid() && ok && r.Rest() == tail
    ensures pos == pos0 + |data| && out[..pos] == old(out[..pos0]) + data
  {
    hide LowBits, ByteBits, Zeros, Aligned, Padding, RawBits, BitReader.Valid, BitReader.Rest;
    RawParts(data, at, tail);
    ghost var more := ByteBits(data) + tail;
    SkipToByte(r, at, LowBits(|data|, 16) + LowBits(65535 - |data|, 16) + more);
    var len;
    ok, len := ReadRawLength(r, |data|, more);
    pos := CopyRaw(r, out, pos0, len, data, tail);
  }

  lemma RawParts(data: seq<byte>, at: nat, tail: seq<bool>)
    requires |data| < 65536
    ensures RawBits(data, at) + tail
         == Zeros(Padding(at)) + (LowBits(|data|, 16) + LowBits(65535 - |data|, 16) + (ByteBits(data) + tail))
  {
    hide LowBits, ByteBits, Zeros, Padding;
    Regroup(Zeros(Padding(at)), LowBits(|data|, 16), LowBits(65535 - |data|, 16), ByteBits(data), tail);
  }

  lemma Regroup(z: seq<bool>, a: seq<bool>, b: seq<bool>, d: seq<bool>, t: seq<bool>)
    ensures (z + (a + b + d)) + t == z + (a + b + (d + t))
  {
  }

  // ---------------------------------------------------------------- coded blocks

  /** The decompressor's three tables. */
  class Inflater {
    const lits: HuffTable
    const dists: HuffTable
    const meta: HuffTable

    constructor ()
      ensures Shaped() && fresh(lits) && fresh(dists) && fresh(meta)
      ensures fresh(lits.lookup) && fresh(lits.tree) && fresh(dists.lookup) && fresh(dists.tree)
      ensures fresh(meta.lookup) && fresh(meta.tree)
    {
      lits := new HuffTable();
      dists := new HuffTable();
      meta := new HuffTable();
    }

    ghost predicate Shaped() {
      && lits.Shaped() && dists.Shaped() && meta.Shaped() && lits != dists && meta != lits && meta != dists
      && lits.lookup != dists.lookup && lits.lookup != dists.tree && lits.tree != dists.lookup && lits.tree != dists.tree
    }

    /** Builds both tables of a block. */
    method BuildTables(ls: seq<nat>, ds: seq<nat>) returns (ok: bool)
      requires Shaped() && Sizes(ls) && Sizes(ds) && Accepted(ls) && Accepted(ds)
      modifies lits, lits.lookup, lits.tree, dists, dists.lookup, dists.tree
      ensures ok && Tables(lits, ls, dists, ds)
    {
      hide Holds, Accepted;
      ok := dists.Build(ds);
      if ok { ok := lits.Build(ls); }
    }

    /** A block with the fixed codes. */
    method InflateFixed(r: BitReader, out: array<byte>, pos0: nat, ghost toks: seq<Token>, ghost to: seq<byte>, ghost tail: seq<bool>)
      returns (ok: bool, pos: nat)
      requires Shaped() && r.Valid() && pos0 <= out.Length && |to| <= out.Length && Expands(out[..pos0], toks, to)
      requires Good(Fixed(toks)) && r.Rest() == BodyBits(Fixed(toks), 0) + tail
      modifies r, out, lits, lits.lookup, lits.tree, dists, dists.lookup, dists.tree
      ensures r.Valid() && ok && r.Rest() == tail && pos == |to| && out[..pos] == to
    {
      hide Holds, Accepted, Expands, BitReader.Valid, BitReader.Rest, FixedLits, FixedDists, AllHaveCodes;
      FixedEnd();
      FixedAccepted();
      ok := BuildTables(FixedLits(), FixedDists());
      pos := InflateSymbols(r, lits, dists, out, pos0, toks, to, FixedLits(), FixedDists(), tail);
    }

    /** A block with its own codes. */
    method InflateDynamic(r: BitReader, out: array<byte>, pos0: nat, ghost b: Block, ghost to: seq<byte>, ghost tail: seq<bool>)
      returns (ok: bool, pos: nat)
      requires Shaped() && r.Valid() && pos0 <= out.Length && |to| <= out.Length && b.Dynamic? && Good(b)
      requires Expands(out[..pos0], b.toks, to) && r.Rest() == BodyBits(b, 0) + tail
      modifies r, out, lits, lits.lookup, lits.tree, dists, dists.lookup, dists.tree, meta, meta.lookup, meta.tree
      ensures r.Valid() && ok && r.Rest() == tail && pos == |to| && out[..pos] == to
    {
      hide Holds, Accepted, Expands, BitReader.Valid, BitReader.Rest, AllHaveCodes, HeaderBits, StreamBits, Header, Uses;
      ghost var ls, ds, more := b.ls, b.ds, StreamBits(b.toks, b.ls, b.ds) + tail;
      assert HeaderBits(ls, ds, b.cs, b.h, b.items) + StreamBits(b.toks, ls, ds) + tail
          == HeaderBits(ls, ds, b.cs, b.h, b.items) + more;
      var nl, nd, lens := ReadHeader(r, meta, ls, ds, b.cs, b.h, b.items, more);
      SplitLengths(lens[..nl + nd], ls, ds);
      assert lens[..nl] == lens[..nl + nd][..nl] && lens[nl..nl + nd] == lens[..nl + nd][nl..];
      ok := BuildTables(lens[..nl], lens[nl..nl + nd]);
      pos := InflateSymbols(r, lits, dists, out, pos0, b.toks, to, ls, ds, tail);
    }

    /** One block, whatever its type. */
    method InflateBlock(r: BitReader, out: array<byte>, pos0: nat, ghost b: Block, ghost last: bool, ghost at: nat,
                        ghost to: seq<byte>, ghost tail: seq<bool>) returns (ok: bool, final: bool, pos: nat)
      requires Shaped() && r.Valid() && pos0 <= out.Length && |to| <= out.Length
      requires Good(b) && Gives(b, out[..pos0], to)
      requires r.Rest() == BlockBits(b, last, at) + tail && Aligned(r.Rest(), at)
      modifies r, out, lits, lits.lookup, lits.tree, dists, dists.lookup, dists.tree, meta, meta.lookup, meta.tree
      ensures r.Valid() && ok && final == last && r.Rest() == tail && pos == |to| && out[..pos] == to
    {
      hide Expands, BitReader.Valid, BitReader.Rest, Good, BodyBits, LowBits, Pow2, RawBits;
      ghost var f := if last then 1 else 0;
      BlockParts(b, last, at, tail);
      var header := Field(r, 3, f + 2 * Type(b), BodyBits(b, at + 3) + tail);
      final := header % 2 == 1;
      if header / 2 == 0 {
        RawBody(b, at + 3);
        ok, pos := InflateRaw(r, out, pos0, b.data, at + 3, tail);
      } else if header / 2 == 1 {
        AnyPlace(b, at + 3, 0);
        ok, pos := InflateFixed(r, out, pos0, b.toks, to, tail);
      } else {
        AnyPlace(b, at + 3, 0);
        ok, pos := InflateDynamic(r, out, pos0, b, to, tail);
      }
    }

    /** The whole stream: blocks until the final one. */
    method InflateAll(r: BitReader, out: array<byte>, ghost bs: seq<Block>, ghost last: Block, ghost at0: nat,
                      ghost mid: seq<byte>, ghost to: seq<byte>, ghost tail: seq<bool>) returns (ok: bool, pos: nat)
      requires Shaped() && r.Valid() && |to| <= out.Length
      requires AllGood(bs) && Good(last) && ChainGives(bs, [], mid) && Gives(last, mid, to)
      requires r.Rest() == StreamOf(bs, last, at0) + tail && Aligned(r.Rest(), at0)
      modifies r, out, lits, lits.lookup, lits.tree, dists, dists.lookup, dists.tree, meta, meta.lookup, meta.tree
      ensures r.Valid() && ok && r.Rest() == tail && pos == |to| && out[..pos] == to
    {
      hide BitReader.Rest, Good, BlockBits, Gives, ChainGives, StreamOf, Aligned, LowBits, Pow2;
      ghost var us, at := bs, at0;
      var final := false;
      ok, pos := true, 0;
      assert out[..0] == [];
      while !final
        invariant r.Valid() && ok && pos <= out.Length
        invariant !final ==> AllGood(us) && ChainGives(us, out[..pos], mid)
        invariant !final ==> r.Rest() == StreamOf(us, last, at) + tail && Aligned(r.Rest(), at)
        invariant final ==> r.Rest() == tail && pos == |to| && out[..pos] == to
        decreases if final then 0 else |us| + 1
      {
        ghost var b, at', next, more := last, at, to, tail;
        if us == [] {
          LastBlock(last, at, out[..pos], mid);
        } else {
          b := us[0];
          more, at', next := FirstBlock(us, last, at, out[..pos], mid, to, tail);
        }
        ok, final, pos := InflateBlock(r, out, pos, b, us == [], at, next, more);
        us, at := if us == [] then us else us[1..], at';
      }
    }
  }

  lemma LastBlock(last: Block, at: nat, from: seq<byte>, mid: seq<byte>)
    requires Good(last) && ChainGives([], from, mid)
    ensures from == mid && StreamOf([], last, at) == BlockBits(last, true, at)
  {
    hide BlockBits, Good;
  }

  lemma {:induction false} ChainGrows(bs: seq<Block>, from: seq<byte>, to: seq<byte>)
    requires ChainGives(bs, from, to)
    ensures from <= to
    decreases |bs|
  {
    if bs != [] {
      var mid: seq<byte> :| Gives(bs[0], from, mid) && ChainGives(bs[1..], mid, to);
      GivesGrows(bs[0], from, mid);
      ChainGrows(bs[1..], mid, to);
    }
  }

  lemma GivesGrows(b: Block, from: seq<byte>, to: seq<byte>)
    requires Gives(b, from, to)
    ensures from <= to
  {
    if !b.Raw? { ExpandsGrows(from, b.toks, to); }
  }

  lemma FirstBlock(us: seq<Block>, last: Block, at: nat, from: seq<byte>, mid: seq<byte>, to: seq<byte>, tail: seq<bool>)
    returns (more: seq<bool>, at': nat, next: seq<byte>)
    requires us != [] && AllGood(us) && Good(last) && ChainGives(us, from, mid) && Gives(last, mid, to)
    requires Aligned(StreamOf(us, last, at) + tail, at)
    ensures Good(us[0]) && AllGood(us[1..]) && Gives(us[0], from, next) && ChainGives(us[1..], next, mid) && |next| <= |to|
    ensures at' == at + |BlockBits(us[0], false, at)|
    ensures StreamOf(us, last, at) + tail == BlockBits(us[0], false, at) + more
    ensures more == StreamOf(us[1..], last, at') + tail && Aligned(more, at')
  {
    hide BlockBits, Good, Gives;
    next :| Gives(us[0], from, next) && ChainGives(us[1..], next, mid);
    ChainGrows(us[1..], next, mid);
    GivesGrows(last, mid, to);
    var b := BlockBits(us[0], false, at);
    at' := at + |b|;
    more := StreamOf(us[1..], last, at') + tail;
    var c := ChainBits(us[1..], at');
    var e := BlockBits(last, true, at' + |c|);
    assert ((b + c) + e) + tail == b + ((c + e) + tail);
  }

  lemma SplitLengths(all: seq<nat>, ls: seq<nat>, ds: seq<nat>)
    requires all == ls + ds
    ensures all[..|ls|] == ls && all[|ls|..] == ds
  {
  }

  lemma RawBody(b: Block, at: nat)
    requires Good(b) && b.Raw?
    ensures |b.data| < 65536 && BodyBits(b, at) == RawBits(b.data, at)
  {
    hide RawBits;
  }

  /** Coded blocks need no alignment. */
  lemma AnyPlace(b: Block, at: nat, at': nat)
    requires Good(b) && !b.Raw?
    ensures BodyBits(b, at) == BodyBits(b, at')
  {
  }

  lemma BlockParts(b: Block, last: bool, at: nat, tail: seq<bool>)
    requires Good(b)
    ensures var v := (if last then 1 else 0) + 2 * Type(b);
            && v < Pow2(3) && (v % 2 == 1 <==> last) && v / 2 == Type(b)
            && BlockBits(b, last, at) + tail == LowBits(v, 3) + (BodyBits(b, at + 3) + tail)
            && (Aligned(BlockBits(b, last, at) + tail, at) ==> Aligned(BodyBits(b, at + 3) + tail, at + 3))
  {
    hide LowBits, BodyBits, Good;
    HeaderNumber(if last then 1 else 0, Type(b));
  }

  lemma FixedAccepted()
    ensures Sizes(FixedLits()) && Sizes(FixedDists()) && Accepted(FixedLits()) && Accepted(FixedDists())
  {
    FixedLitsComplete();
    FixedDistsComplete();
  }
}
