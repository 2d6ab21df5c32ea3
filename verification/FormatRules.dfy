/** The compressed format by the rules of RFC 1951 and RFC 1950, apart from any table: which symbol and
    extra bits a length or distance has, what a run stands for, which codes the symbols have and which way
    round they are sent, and one stream in full. */
module FormatRules {
  import opened Bits
  import opened Windows
  import opened Canonical
  import opened InflateTable
  import opened Tokens
  import opened SizePacking
  import opened BlockHeader
  import opened Blocks
  import opened BlockFlush
  import Adler32

  // ---------------------------------------------------------------- lengths and distances (section 3.2.5)

  /** How often v is halved before it is below 2w. */
  function Halvings(v: nat, w: nat): (e: nat)
    requires w > 0
  {
    if v < 2 * w then 0 else 1 + Halvings(v / 2, w)
  }

  /** Past the first groups, every group of four symbols has an extra bit more, and so is twice as wide. */
  lemma LengthByRule(len: nat)
    requires MIN_MATCH <= len <= 257
    ensures var v, e := len - 3, Halvings(len - 3, 4);
            && LenSym(v) == 257 + 4 * e + v / Pow2(e) && LenExtra(v) == e && Low(v, e) == v % Pow2(e)
  {
    hide Pow2, Halvings, LenSym, LenExtra;
    var v := len - 3;
    var e := if v < 8 then 0 else if v < 16 then 1 else if v < 32 then 2 else if v < 64 then 3 else if v < 128 then 4 else 5;
    SmallPowers();
    LengthInGroup(v, e);
    HalvingsAre(v, 4, e);
    LowIsRemainder(v, e);
  }

  lemma LengthInGroup(v: nat, e: nat)
    requires v < 255
    requires e == if v < 8 then 0 else if v < 16 then 1 else if v < 32 then 2 else if v < 64 then 3 else if v < 128 then 4 else 5
    ensures LenExtra(v) == e
    ensures e == 0 ==> LenSym(v) == 257 + v
    ensures e == 1 ==> LenSym(v) == 261 + v / 2
    ensures e == 2 ==> LenSym(v) == 265 + v / 4
    ensures e == 3 ==> LenSym(v) == 269 + v / 8
    ensures e == 4 ==> LenSym(v) == 273 + v / 16
    ensures e == 5 ==> LenSym(v) == 277 + v / 32
  {
  }

  lemma LongestLength()
    ensures LenSym(255) == 285 && LenExtra(255) == 0
  {
  }

  /** The same for distances, in groups of two. */
  lemma DistanceByRule(dist: nat)
    requires 1 <= dist <= MAX_DIST
    ensures var v, f := dist - 1, Halvings(dist - 1, 2);
            && DistSym(v) == 2 * f + v / Pow2(f) && DistExtra(v) == f && Low(v, f) == v % Pow2(f)
  {
    hide Pow2, Halvings, DistSym, DistExtra;
    var v := dist - 1;
    var f := NearOrFar(v);
    SmallPowers();
    HalvingsAre(v, 2, f);
    LowIsRemainder(v, f);
    if v < 512 { NearDistances(v, f); } else { FarDistances(v, f); }
  }

  function NearOrFar(v: nat): (f: nat)
    requires v < MAX_DIST
  {
    if v < 4 then 0 else if v < 8 then 1 else if v < 16 then 2 else if v < 32 then 3 else if v < 64 then 4
    else if v < 128 then 5 else if v < 256 then 6 else if v < 512 then 7 else if v < 1024 then 8
    else if v < 2048 then 9 else if v < 4096 then 10 else if v < 8192 then 11 else if v < 16384 then 12 else 13
  }

  lemma NearDistances(v: nat, f: nat)
    requires v < 512 && f == NearOrFar(v)
    ensures DistSym(v) == 2 * f + v / Pow2(f) && DistExtra(v) == f
  {
    hide Pow2;
    SmallPowers();
  }

  lemma FarDistances(v: nat, f: nat)
    requires 512 <= v < MAX_DIST && f == NearOrFar(v)
    ensures DistSym(v) == 2 * f + v / Pow2(f) && DistExtra(v) == f
  {
    hide Pow2;
    SmallPowers();
    var h := v / 256;
    assert v / 512 == h / 2 && v / 1024 == h / 4 && v / 2048 == h / 8 && v / 4096 == h / 16 && v / 8192 == h / 32;
  }

  lemma SmallPowers()
    ensures Pow2(0) == 1 && Pow2(1) == 2 && Pow2(2) == 4 && Pow2(3) == 8 && Pow2(4) == 16 && Pow2(5) == 32 && Pow2(6) == 64
    ensures Pow2(7) == 128 && Pow2(8) == 256 && Pow2(9) == 512 && Pow2(10) == 1024 && Pow2(11) == 2048 && Pow2(12) == 4096
    ensures Pow2(13) == 8192
  {
    Pow2Values();
    assert Pow2(0) == 1;
  }

  lemma {:induction false} HalvingsAre(v: nat, w: nat, e: nat)
    requires w > 0 && v < 2 * (w * Pow2(e)) && (e > 0 ==> w * Pow2(e) <= v)
    ensures Halvings(v, w) == e
  {
    if e > 0 {
      assert w * Pow2(e) == 2 * (w * Pow2(e - 1)) && w * Pow2(e - 1) >= w;
      HalvingsAre(v / 2, w, e - 1);
    } else {
      assert Pow2(0) == 1;
    }
  }

  // ---------------------------------------------------------------- runs of lengths (section 3.2.7)

  /** 16 repeats the last length 3 to 6 times, 17 stands for 3 to 10 noughts, 18 for 11 to 138. */
  lemma RunsByRule(sizes: seq<nat>, x: Item)
    requires ValidItem(x) && (x.code == 16 ==> sizes != [])
    ensures x.code < 16 ==> Adds(sizes, x) == [x.code] && ExtraBits(x.code) == 0
    ensures x.code == 16 ==> Adds(sizes, x) == Repeat(sizes[|sizes| - 1], 3 + x.extra) && ExtraBits(16) == 2
    ensures x.code == 17 ==> Adds(sizes, x) == Repeat(0, 3 + x.extra) && ExtraBits(17) == 3
    ensures x.code == 18 ==> Adds(sizes, x) == Repeat(0, 11 + x.extra) && ExtraBits(18) == 7
    ensures x.code <= 18
  {
  }

  // ---------------------------------------------------------------- codes (section 3.2.2)

  /** Codes of one length follow each other in the order of their symbols, by one; of shorter and longer
      codes the shorter comes first, bit by bit; and the first code is nought. */
  lemma CodesInOrder(sizes: seq<nat>, s: nat, t: nat)
    requires s < |sizes| && t < |sizes| && 1 <= sizes[s] <= sizes[t]
    ensures sizes[s] == sizes[t] && s < t && (forall i :: s < i < t ==> sizes[i] != sizes[s]) ==> Code(sizes, t) == Code(sizes, s) + 1
    ensures sizes[s] < sizes[t] ==> Shr(Code(sizes, t), sizes[t] - sizes[s]) > Code(sizes, s)
    ensures (forall i :: 0 <= i < |sizes| && i != s && sizes[i] > 0 ==> sizes[i] > sizes[s] || (sizes[i] == sizes[s] && i > s))
            ==> Code(sizes, s) == 0
  {
    if sizes[s] == sizes[t] && s < t && forall i :: s < i < t ==> sizes[i] != sizes[s] {
      NoneBetween(sizes, s, t);
    }
    if sizes[s] < sizes[t] {
      CountSizeMono(sizes, sizes[s], s, |sizes|);
      PrefixBeyond(sizes, sizes[s], t);
    }
    if forall i :: 0 <= i < |sizes| && i != s && sizes[i] > 0 ==> sizes[i] > sizes[s] || (sizes[i] == sizes[s] && i > s) {
      NoneBefore(sizes, sizes[s], s);
      NothingShorter(sizes, sizes[s]);
    }
  }

  lemma {:induction false} NoneBetween(sizes: seq<nat>, s: nat, t: nat)
    requires s < t < |sizes| && forall i :: s < i < t ==> sizes[i] != sizes[s]
    ensures CountSize(sizes, sizes[s], t) == CountSize(sizes, sizes[s], s) + 1
  {
    if s + 1 < t { NoneBetween(sizes, s, t - 1); }
  }

  lemma {:induction false} NoneBefore(sizes: seq<nat>, l: nat, n: nat)
    requires n <= |sizes| && forall i :: 0 <= i < n ==> sizes[i] != l
    ensures CountSize(sizes, l, n) == 0
  {
    if n > 0 { NoneBefore(sizes, l, n - 1); }
  }

  lemma {:induction false} NothingShorter(sizes: seq<nat>, l: nat)
    requires l >= 1 && forall i :: 0 <= i < |sizes| ==> sizes[i] == 0 || sizes[i] >= l
    ensures NextCode(sizes, l) == 0
  {
    if l > 1 {
      NothingShorter(sizes, l - 1);
      NoneBefore(sizes, l - 1, |sizes|);
    }
  }

  /** A code is sent first bit first: bit i of the stream is that of weight 2^(length - 1 - i). */
  lemma CodeFirstBitFirst(sizes: seq<nat>, s: nat, i: nat)
    requires Uses(sizes, s) && i < sizes[s]
    ensures SymBits(sizes, s)[i] <==> Shr(Code(sizes, s), sizes[s] - 1 - i) % 2 == 1
  {
    LowBitsAt(Stored(sizes, s), sizes[s], i);
    BitOfPrefix(Code(sizes, s), sizes[s], i);
  }

  lemma {:induction false} LowBitsAt(v: nat, n: nat, i: nat)
    requires i < n
    ensures LowBits(v, n)[i] <==> Shr(v, i) % 2 == 1
  {
    if i > 0 { LowBitsAt(v / 2, n - 1, i - 1); }
  }

  /** The fixed codes (section 3.2.6). */
  lemma FixedCodesAre(s: nat)
    requires s < 288
    ensures s <= 143 ==> FixedLits()[s] == 8 && Code(FixedLits(), s) == 0x30 + s
    ensures 144 <= s <= 255 ==> FixedLits()[s] == 9 && Code(FixedLits(), s) == 0x190 + (s - 144)
    ensures 256 <= s <= 279 ==> FixedLits()[s] == 7 && Code(FixedLits(), s) == s - 256
    ensures 280 <= s ==> FixedLits()[s] == 8 && Code(FixedLits(), s) == 0xc0 + (s - 280)
    ensures s < 32 ==> FixedDists()[s] == 5 && Code(FixedDists(), s) == s
  {
    hide FixedLits, FixedDists, CountSize;
    FixedStarts();
    FixedLitCounts(FixedSize(s), s);
    if s < 32 { FixedDistCounts(5, s); }
  }

  lemma FixedStarts()
    ensures NextCode(FixedLits(), 7) == 0 && NextCode(FixedLits(), 8) == 48 && NextCode(FixedLits(), 9) == 400
    ensures NextCode(FixedDists(), 5) == 0
  {
    hide FixedLits, FixedDists, CountSize;
    var ls, ds := FixedLits(), FixedDists();
    forall l
      ensures Num(ls, l) == FixedCount(l, 288)
      ensures Num(ds, l) == if l == 5 then 32 else 0
    {
      FixedLitCounts(l, 288);
      FixedDistCounts(l, 32);
    }
    NextIfNone(ls, 1, 6);
    NextIfNone(ds, 1, 4);
    assert NextCode(ls, 8) == 48;
  }

  // ---------------------------------------------------------------- where a block starts (section 3.2.3)

  /** The final flag, and two bits of type, the lower first: stored 00, fixed 01, own codes 10. */
  lemma BlockStarts(b: Block, final: bool, at: nat)
    requires Good(b)
    ensures var r := BlockBits(b, final, at);
            |r| >= 3 && r[0] == final && r[1] == b.Fixed? && r[2] == b.Dynamic?
  {
    hide Good, BodyBits;
    var t := LowBits(Type(b), 2);
    assert t[0] == b.Fixed? && t[1] == b.Dynamic?;
    assert LowBits(if final then 1 else 0, 1)[0] == final;
  }

  /** Five bits of literal and length codes over 257, five of distance codes over one, four of code lengths
      over four, and three for each of these. */
  lemma DynamicStarts(ls: seq<nat>, ds: seq<nat>, cs: seq<nat>, h: nat, items: seq<Item>)
    requires Header(ls, ds, cs, h, items)
    ensures var r := HeaderBits(ls, ds, cs, h, items);
            && |r| >= 14 + 3 * h && 257 + FromBits(r[..5]) == |ls| && 1 + FromBits(r[5..10]) == |ds|
            && 4 + FromBits(r[10..14]) == h && r[14..14 + 3 * h] == MetaBits(cs, h)
  {
    hide LowBits, FromBits, MetaBits, ItemsBits, Pow2;
    Pow2Values();
    var r := HeaderBits(ls, ds, cs, h, items);
    var a, b, c := LowBits(|ls| - 257, 5), LowBits(|ds| - 1, 5), LowBits(h - 4, 4);
    assert r[..5] == a && r[5..10] == b && r[10..14] == c && r[14..14 + 3 * h] == MetaBits(cs, h);
    ReadsBack(|ls| - 257, 5);
    ReadsBack(|ds| - 1, 5);
    ReadsBack(h - 4, 4);
  }

  lemma ReadsBack(v: nat, n: nat)
    requires v < Pow2(n)
    ensures FromBits(LowBits(v, n)) == v
  {
    FromLowBits(v, n);
    LowOfSmall(v, n);
  }

  // ---------------------------------------------------------------- one stream in full

  /** The one letter a, as zlib sends it. */
  const LETTER: seq<byte> := [0x78, 0x01, 0x4b, 0x04, 0x00, 0x00, 0x62, 0x00, 0x62]

  lemma OneLetter()
    ensures var b := Fixed([Literal(97)]);
            Good(b) && Gives(b, [], [97]) && ByteBits(LETTER) == WholeStream(true, [], b, Adler32.Adler(1, [97]))
  {
    hide FixedLits, FixedDists, Code, Stored, LowBits, ByteBits, BlockBits, Good, BigEndian, Adler32.Adler;
    var b := Fixed([Literal(97)]);
    LetterSums();
    LetterBits();
    LetterBlock();
    FewBits();
    assert Gives(b, [], [97]) by { assert [Literal(97)][1..] == []; }
    var block := LowBits(1, 1) + LowBits(1, 2) + (LowBits(0x89, 8) + LowBits(0, 7));
    assert [] + block == block;
    assert Padding(|block|) == 6;
    LetterSum();
  }

  lemma LetterSum()
    ensures BigEndian(0x0062_0062) == LowBits(0, 8) + LowBits(0x62, 8) + LowBits(0, 8) + LowBits(0x62, 8)
  {
    hide LowBits;
  }

  lemma LetterSymbols()
    ensures Uses(FixedLits(), 97) && SymBits(FixedLits(), 97) == LowBits(0x89, 8)
    ensures Uses(FixedLits(), END_OF_BLOCK) && SymBits(FixedLits(), END_OF_BLOCK) == LowBits(0, 7)
  {
    hide FixedLits, Code, LowBits, Prefix;
    FixedCodesAre(97);
    FixedCodesAre(256);
    LetterCodes();
  }

  lemma LetterToken()
    ensures AllHaveCodes([Literal(97)], FixedLits(), FixedDists()) && Uses(FixedLits(), END_OF_BLOCK)
    ensures TokensBits([Literal(97)], FixedLits(), FixedDists()) == LowBits(0x89, 8)
    ensures SymBits(FixedLits(), END_OF_BLOCK) == LowBits(0, 7)
  {
    hide FixedLits, FixedDists, SymBits, LowBits, Uses;
    var ls, ds, ts := FixedLits(), FixedDists(), [Literal(97)];
    LetterSymbols();
    assert ts[1..] == [];
    assert TokensBits(ts, ls, ds) == LowBits(0x89, 8) + TokensBits([], ls, ds) == LowBits(0x89, 8);
  }

  lemma LetterBlock()
    ensures var b := Fixed([Literal(97)]);
            Good(b) && BlockBits(b, true, 0) == LowBits(1, 1) + LowBits(1, 2) + (LowBits(0x89, 8) + LowBits(0, 7))
  {
    hide FixedLits, FixedDists, TokensBits, SymBits, LowBits, AllHaveCodes, Uses;
    LetterToken();
  }

  lemma LetterSums()
    ensures Adler32.Adler(1, [97]) == 0x0062_0062
  {
    assert [97][1..] == [];
  }

  lemma LetterCodes()
    ensures Prefix(145, 8) == 137 && Prefix(0, 7) == 0
  {
  }

  lemma EightBits()
    ensures LowBits(0x4b, 8) == [true, true, false, true, false, false, true, false]
    ensures LowBits(0x04, 8) == [false, false, true, false, false, false, false, false]
    ensures LowBits(0x89, 8) == [true, false, false, true, false, false, false, true]
  {
    hide LowBits;
    HalfByte(0xb, 0x4);
    HalfByte(0x4, 0x0);
    HalfByte(0x9, 0x8);
    FourBits();
  }

  lemma FourBits()
    ensures LowBits(0xb, 4) == [true, true, false, true] && LowBits(0x4, 4) == [false, false, true, false]
    ensures LowBits(0x9, 4) == [true, false, false, true] && LowBits(0x8, 4) == [false, false, false, true] && LowBits(0x0, 4) == [false, false, false, false]
  {
  }

  lemma HalfByte(lo: nat, hi: nat)
    requires lo < 16 && hi < 16
    ensures LowBits(lo + hi * 16, 8) == LowBits(lo, 4) + LowBits(hi, 4)
  {
    hide LowBits, Pow2;
    Pow2Values();
    LowBitsConcat(lo, 4, hi, 4);
  }

  lemma FewBits()
    ensures LowBits(1, 1) == [true] && LowBits(1, 2) == [true, false]
    ensures LowBits(0, 6) == [false, false, false, false, false, false] && LowBits(0, 7) == [false, false, false, false, false, false, false]
    ensures LowBits(0, 8) == [false, false, false, false, false, false, false, false]
  {
  }

  /** Three bytes: the block's header, the letter's code and the end of the block. */
  lemma BlockBytes()
    ensures LowBits(0x4b, 8) + (LowBits(0x04, 8) + LowBits(0x00, 8))
         == LowBits(1, 1) + LowBits(1, 2) + (LowBits(0x89, 8) + LowBits(0, 7)) + LowBits(0, 6)
  {
    EightBits();
    FewBits();
    hide LowBits;
  }

  lemma {:induction false} ByteBitsJoin(a: seq<byte>, b: seq<byte>)
    ensures ByteBits(a + b) == ByteBits(a) + ByteBits(b)
  {
    hide LowBits;
    if a == [] {
      assert a + b == b;
    } else {
      assert (a + b)[1..] == a[1..] + b;
      ByteBitsJoin(a[1..], b);
    }
  }

  lemma OneByte(b: byte)
    ensures ByteBits([b]) == LowBits(b, 8)
  {
    hide LowBits;
    assert [b][1..] == [];
  }

  lemma TwoBytes(a: byte, b: byte)
    ensures ByteBits([a, b]) == LowBits(a, 8) + LowBits(b, 8)
  {
    hide LowBits, ByteBits;
    assert [a, b] == [a] + [b];
    ByteBitsJoin([a], [b]);
    OneByte(a);
    OneByte(b);
  }

  lemma LetterBits()
    ensures ByteBits(LETTER)
         == LowBits(0x78, 8) + LowBits(0x01, 8)
            + (LowBits(1, 1) + LowBits(1, 2) + (LowBits(0x89, 8) + LowBits(0, 7))) + LowBits(0, 6)
            + (LowBits(0, 8) + LowBits(0x62, 8) + LowBits(0, 8) + LowBits(0x62, 8))
  {
    hide LowBits, ByteBits;
    var head, body, sum: seq<byte> := [0x78, 0x01], [0x4b, 0x04, 0x00], [0x00, 0x62, 0x00, 0x62];
    assert LETTER == head + (body + sum);
    ByteBitsJoin(head, body + sum);
    ByteBitsJoin(body, sum);
    TwoBytes(0x78, 0x01);
    assert body == [0x4b] + [0x04, 0x00];
    ByteBitsJoin([0x4b], [0x04, 0x00]);
    OneByte(0x4b);
    TwoBytes(0x04, 0x00);
    assert sum == [0x00, 0x62] + [0x00, 0x62];
    ByteBitsJoin([0x00, 0x62], [0x00, 0x62]);
    TwoBytes(0x00, 0x62);
    BlockBytes();
  }
}
