/** A deflate stream as a list of blocks (section 3.2.3 of RFC 1951): its bits, and the bytes it
    stands for. */
module Blocks {
  import opened Bits
  import opened Canonical
  import opened InflateTable
  import opened InflateBuild
  import opened Tokens
  import opened SizePacking
  import opened BlockHeader
  import opened InflateLoop

  /** The fixed literal/length code lengths (section 3.2.6). */
  function FixedSize(i: nat): (l: nat) {
    if i <= 143 then 8 else if i <= 255 then 9 else if i <= 279 then 7 else 8
  }

  function FixedLits(): (ls: seq<nat>)
    ensures |ls| == 288 && forall i :: 0 <= i < 288 ==> ls[i] == FixedSize(i)
  {
    seq(288, i requires 0 <= i < 288 => FixedSize(i))
  }

  function FixedDists(): (ds: seq<nat>)
    ensures |ds| == 32 && forall i :: 0 <= i < 32 ==> ds[i] == 5
  {
    Repeat(5, 32)
  }

  /** How many of the first n fixed lengths are l. */
  function FixedCount(l: nat, n: nat): (c: nat) {
    if l == 8 then (if n <= 144 then n else if n <= 280 then 144 else n - 136)
    else if l == 9 then (if n <= 144 then 0 else if n <= 256 then n - 144 else 112)
    else if l == 7 then (if n <= 256 then 0 else if n <= 280 then n - 256 else 24)
    else 0
  }

  lemma {:induction false} FixedLitCounts(l: nat, n: nat)
    requires n <= 288
    ensures CountSize(FixedLits(), l, n) == FixedCount(l, n)
  {
    hide FixedLits;
    if n > 0 { FixedLitCounts(l, n - 1); }
  }

  lemma {:induction false} FixedDistCounts(l: nat, n: nat)
    requires n <= 32
    ensures CountSize(FixedDists(), l, n) == if l == 5 then n else 0
  {
    hide FixedDists;
    if n > 0 { FixedDistCounts(l, n - 1); }
  }

  lemma {:induction false} NextIfNone(sizes: seq<nat>, m: nat, k: nat)
    requires 1 <= m && forall l :: m <= l < m + k ==> Num(sizes, l) == 0
    ensures NextCode(sizes, m + k) == NextCode(sizes, m) * Pow2(k)
  {
    if k > 0 {
      NextIfNone(sizes, m, k - 1);
      MulDouble(Pow2(k - 1), NextCode(sizes, m));
    }
  }

  lemma FixedLitsComplete()
    ensures Canonical.Complete(FixedLits())
  {
    hide FixedLits, CountSize;
    var ls := FixedLits();
    forall l
      ensures Num(ls, l) == FixedCount(l, 288)
    {
      FixedLitCounts(l, 288);
    }
    NextIfNone(ls, 1, 6);
    assert NextCode(ls, 7) == 0;
    assert NextCode(ls, 8) == 48;
    assert NextCode(ls, 9) == 400;
    assert NextCode(ls, 10) == 1024;
    NextIfNone(ls, 10, 6);
    Pow2Values();
  }

  lemma FixedDistsComplete()
    ensures Canonical.Complete(FixedDists())
  {
    hide FixedDists, CountSize;
    var ds := FixedDists();
    forall l
      ensures Num(ds, l) == if l == 5 then 32 else 0
    {
      FixedDistCounts(l, 32);
    }
    NextIfNone(ds, 1, 4);
    assert NextCode(ds, 5) == 0;
    assert NextCode(ds, 6) == 64;
    NextIfNone(ds, 6, 10);
    Pow2Values();
  }

  // ---------------------------------------------------------------- blocks

  datatype Block =
    | Raw(data: seq<byte>)
    | Fixed(toks: seq<Token>)
    | Dynamic(toks: seq<Token>, ls: seq<nat>, ds: seq<nat>, cs: seq<nat>, h: nat, items: seq<Item>)

  ghost predicate Good(b: Block) {
    match b
    case Raw(data) => |data| < 65536
    case Fixed(toks) => AllHaveCodes(toks, FixedLits(), FixedDists())
    case Dynamic(toks, ls, ds, cs, h, items) =>
      && Header(ls, ds, cs, h, items) && AllHaveCodes(toks, ls, ds) && Uses(ls, END_OF_BLOCK)
      && Sizes(ls) && Sizes(ds) && Accepted(ls) && Accepted(ds)
  }

  function Type(b: Block): (t: nat)
    ensures t < 3
  {
    match b case Raw(_) => 0 case Fixed(_) => 1 case Dynamic(_, _, _, _, _, _) => 2
  }

  function Zeros(n: nat): (r: seq<bool>)
    ensures |r| == n
  {
    LowBits(0, n)
  }

  /** Bits left to the next byte boundary. */
  function Padding(at: nat): (n: nat)
    ensures n < 8 && (at + n) % 8 == 0
  {
    (8 - at % 8) % 8
  }

  /** A raw block's body: padding, the length and its complement, the bytes. */
  function RawBits(data: seq<byte>, at: nat): (r: seq<bool>)
    requires |data| < 65536
  {
    Zeros(Padding(at)) + (LowBits(|data|, 16) + LowBits(65535 - |data|, 16) + ByteBits(data))
  }

  /** What follows a block's three header bits, which end at bit `at` of the stream. */
  function BodyBits(b: Block, at: nat): (r: seq<bool>)
    requires Good(b)
  {
    match b
    case Raw(data) => RawBits(data, at)
    case Fixed(toks) => FixedEnd(); StreamBits(toks, FixedLits(), FixedDists())
    case Dynamic(toks, ls, ds, cs, h, items) => HeaderBits(ls, ds, cs, h, items) + StreamBits(toks, ls, ds)
  }

  /** Moving a block by whole bytes changes no bit. */
  lemma SameBody(b: Block, at: nat, at': nat)
    requires Good(b) && at % 8 == at' % 8
    ensures BodyBits(b, at) == BodyBits(b, at')
  {
    hide LowBits, ByteBits, Zeros, Good, HeaderBits, StreamBits;
  }

  lemma FixedEnd()
    ensures Uses(FixedLits(), END_OF_BLOCK)
  {
  }

  /** A block that starts at bit `at`: the final flag, the type, the body. */
  function BlockBits(b: Block, final: bool, at: nat): (r: seq<bool>)
    requires Good(b)
  {
    LowBits(if final then 1 else 0, 1) + LowBits(Type(b), 2) + BodyBits(b, at + 3)
  }

  /** Blocks that are not final, one after the other. */
  function ChainBits(bs: seq<Block>, at: nat): (r: seq<bool>)
    requires forall i :: 0 <= i < |bs| ==> Good(bs[i])
    decreases |bs|
  {
    if bs == [] then [] else
      var first := BlockBits(bs[0], false, at);
      first + ChainBits(bs[1..], at + |first|)
  }

  /** What a block adds to the output so far. */
  ghost predicate Gives(b: Block, from: seq<byte>, to: seq<byte>) {
    match b
    case Raw(data) => to == from + data
    case Fixed(toks) => Expands(from, toks, to)
    case Dynamic(toks, _, _, _, _, _) => Expands(from, toks, to)
  }

  /** The blocks, in order, take output `from` to output `to`. */
  ghost predicate ChainGives(bs: seq<Block>, from: seq<byte>, to: seq<byte>)
    decreases |bs|
  {
    if bs == [] then from == to else
      exists mid: seq<byte> :: Gives(bs[0], from, mid) && ChainGives(bs[1..], mid, to)
  }

  ghost predicate AllGood(bs: seq<Block>) {
    forall i :: 0 <= i < |bs| ==> Good(bs[i])
  }

  /** A stream: blocks, the last of them marked final. */
  function StreamOf(bs: seq<Block>, last: Block, at: nat): (r: seq<bool>)
    requires AllGood(bs) && Good(last)
  {
    ChainBits(bs, at) + BlockBits(last, true, at + |ChainBits(bs, at)|)
  }

  lemma {:induction false} ChainAppend(bs: seq<Block>, b: Block, at: nat)
    requires AllGood(bs) && Good(b)
    ensures AllGood(bs + [b])
    ensures ChainBits(bs + [b], at) == ChainBits(bs, at) + BlockBits(b, false, at + |ChainBits(bs, at)|)
    decreases |bs|
  {
    hide BlockBits, Good;
    if bs == [] {
      assert [] + [b] == [b] && [b][1..] == [];
      assert bs + [b] == [b];
    } else {
      assert (bs + [b])[1..] == bs[1..] + [b];
      ChainAppend(bs[1..], b, at + |BlockBits(bs[0], false, at)|);
    }
  }

  lemma {:induction false} ChainGivesAppend(bs: seq<Block>, b: Block, from: seq<byte>, mid: seq<byte>, to: seq<byte>)
    requires ChainGives(bs, from, mid) && Gives(b, mid, to)
    ensures ChainGives(bs + [b], from, to)
    decreases |bs|
  {
    hide Gives;
    if bs == [] {
      assert bs + [b] == [b] && [b][1..] == [];
      assert ChainGives([b][1..], to, to);
    } else {
      assert (bs + [b])[1..] == bs[1..] + [b];
      var m: seq<byte> :| Gives(bs[0], from, m) && ChainGives(bs[1..], m, mid);
      ChainGivesAppend(bs[1..], b, m, mid, to);
    }
  }
}
