/** tdefl_flush_block: one block, coded or raw, into an output buffer that is then handed on. */
module BlockFlush {
  import opened Bits
  import opened InflateTable
  import opened BitIO
  import opened Tokens
  import opened CodeBuffer
  import opened LzWindow
  import opened Blocks
  import opened BlockWriter

  const OUT_BUF_SIZE := 85196   // TDEFL_OUT_BUF_SIZE
  const OUT_LIMIT := 85180      // where m_pOutput_buf_end is set
  const BLOCK_BITS := 677214    // what no block exceeds: some 500 bytes less than the buffer holds

  // ---------------------------------------------------------------- fixed blocks always fit

  lemma FixedTokenSize(t: Token)
    requires ValidToken(t) && HasCodes(t, FixedLits(), FixedDists())
    ensures 3 * |TokenBits(t, FixedLits(), FixedDists())| <= 31 * |Payload(t)|
  {
    hide FixedLits, FixedDists, LowBits, Stored;
  }

  lemma {:induction false} PayloadsFirst(ts: seq<Token>)
    requires AllValid(ts) && ts != []
    ensures |Payloads(ts)| == |Payload(ts[0])| + |Payloads(ts[1..])|
  {
  }

  lemma {:induction false} FixedTokensSize(ts: seq<Token>)
    requires AllValid(ts) && AllHaveCodes(ts, FixedLits(), FixedDists())
    ensures 3 * |TokensBits(ts, FixedLits(), FixedDists())| <= 31 * |Payloads(ts)|
  {
    hide FixedLits, FixedDists, TokenBits, HasCodes, ValidToken;
    if ts != [] {
      FixedTokenSize(ts[0]);
      FixedTokensSize(ts[1..]);
      PayloadsFirst(ts);
    }
  }

  lemma {:induction false} PackedHolds(ts: seq<Token>)
    requires AllValid(ts)
    ensures |Payloads(ts)| <= |Packed(ts)|
  {
    if |ts| > 8 {
      PackedHolds(ts[8..]);
      PayloadsAppend(ts[..8], ts[8..]);
      assert ts[..8] + ts[8..] == ts;
    }
  }

  /** Any block coded with the fixed codes fits the output buffer. */
  lemma FixedFits(ts: seq<Token>)
    requires AllValid(ts) && Good(Fixed(ts)) && |Packed(ts)| <= CODE_BUF_SIZE
    ensures |BodyBits(Fixed(ts), 0)| <= 677212
  {
    hide FixedLits, FixedDists, TokensBits, LowBits, Stored, AllHaveCodes, Payloads, Packed;
    FixedEnd();
    PackedHolds(ts);
    FixedTokensSize(ts);
    assert |SymBits(FixedLits(), END_OF_BLOCK)| == 7;
  }

  // ---------------------------------------------------------------- raw blocks

  /** Zero bits to the byte boundary, if bits wait. */
  method PadToByte(w: BitWriter)
    requires w.Valid()
    modifies w, w.out
    ensures w.Valid() && w.bits == old(w.bits) + Zeros(Padding(|old(w.bits)|))
  {
    hide LowBits, ByteBits, Pow2;
    NoZeros(w.bits);
    WaitingBits(w);
    if w.bitsIn > 0 { w.PutBits(0, 8 - w.bitsIn); }
  }

  lemma WaitingBits(w: BitWriter)
    requires w.Valid()
    ensures w.bitsIn == |w.bits| % 8
    ensures Padding(|w.bits|) == if w.bitsIn > 0 then 8 - w.bitsIn else 0
  {
    hide LowBits, ByteBits, Pow2;
  }

  lemma NoZeros(s: seq<bool>)
    ensures s + Zeros(0) == s
  {
  }

  /** The dictionary still holds the block's input. */
  ghost predicate HoldsInput(dict: seq<byte>, hist: seq<byte>, from: nat, n: nat) {
    && |dict| == DICT_BUF && from + n <= |hist|
    && forall p :: from <= p < from + n ==> dict[p % DICT_SIZE] == hist[p]
  }

  method PutBytes(w: BitWriter, dict: array<byte>, from: nat, n: nat, ghost hist: seq<byte>)
    requires w.Valid() && w.out != dict && HoldsInput(dict[..], hist, from, n)
    modifies w, w.out
    ensures w.Valid() && w.bits == old(w.bits) + ByteBits(hist[from..from + n])
  {
    hide BitWriter.Valid, LowBits, ByteBits, Pow2;
    var i := 0;
    ghost var start := w.bits;
    NoBytes();
    assert hist[from..from] == [];
    while i < n
      invariant 0 <= i <= n && w.Valid() && w.bits == start + ByteBits(hist[from..from + i])
    {
      var b := dict[(from + i) % DICT_SIZE];
      ghost var p := from + i;
      assert b == hist[p];
      ByteBound(b);
      w.PutBits(b, 8);
      OneByteBits(b);
      ByteBitsAppend(hist[from..from + i], [b]);
      assert hist[from..from + i + 1] == hist[from..from + i] + [b];
      i := i + 1;
    }
  }

  lemma NoBytes()
    ensures ByteBits([]) == []
  {
  }

  /** The raw form: type 0, padding, the length twice, the bytes. */
  method PutRaw(w: BitWriter, dict: array<byte>, from: nat, total: nat, ghost hist: seq<byte>)
    requires w.Valid() && w.out != dict && HoldsInput(dict[..], hist, from, total) && total < 65536
    modifies w, w.out
    ensures w.Valid()
    ensures w.bits == old(w.bits) + (LowBits(0, 2) + RawBits(hist[from..from + total], |old(w.bits)| + 2))
  {
    hide BitWriter.Valid, LowBits, ByteBits, Pow2, Zeros, Padding;
    Pow2Values();
    w.PutBits(0, 2);
    PadToByte(w);
    var t := total;
    w.PutBits(t % 65536, 16);
    t := 65535 - t;
    w.PutBits(t % 65536, 16);
    t := 65535 - t;
    PutBytes(w, dict, from, t, hist);
    ghost var data := hist[from..from + total];
    JoinRaw(old(w.bits), LowBits(0, 2), Zeros(Padding(|old(w.bits)| + 2)), LowBits(total, 16), LowBits(65535 - total, 16),
            ByteBits(data));
  }

  lemma JoinRaw(s: seq<bool>, a: seq<bool>, z: seq<bool>, b: seq<bool>, c: seq<bool>, d: seq<bool>)
    ensures ((((s + a) + z) + b) + c) + d == s + (a + (z + (b + c + d)))
  {
  }

  // ---------------------------------------------------------------- the choice

  lemma SamePlace(b: Block, final: bool, at: nat, at': nat)
    requires Good(b) && at % 8 == at' % 8
    ensures BlockBits(b, final, at) == BlockBits(b, final, at')
  {
    hide LowBits, Good, BodyBits;
    SameBody(b, at + 3, at' + 3);
  }

  /** A coded block, with the fixed codes or its own: neither outgrows the output buffer. */
  method CompressBlock(w: BitWriter, isStatic: bool, bytes: seq<byte>, lz: LzBuffer) returns (ok: bool, ghost b: Block)
    requires w.Valid() && lz.Shaped() && AllValid(lz.toks) && |lz.toks| < 65535 && bytes == Packed(lz.toks)
    requires |bytes| <= CODE_BUF_SIZE && w.out != lz.buf && (!isStatic ==> lz.Counted())
    modifies w, w.out, lz.litCount
    ensures w.Valid() && Good(b) && !b.Raw? && b.toks == lz.toks && b.Fixed? == isStatic && WellChosen(b)
    ensures w.bits == old(w.bits) + (LowBits(Type(b), 2) + BodyBits(b, 0))
    ensures |w.bits| <= |old(w.bits)| + BLOCK_BITS
    ensures ok <==> w.pos < w.limit
  {
    hide BitWriter.Valid, LowBits, BodyBits, Good, Packed, LitUses, DistUses, AllValid, WellChosen;
    if isStatic {
      ok := CompressStatic(w, bytes, lz.toks);
      b := Fixed(lz.toks);
      NoOwnCodes(b);
      FixedSmall(lz.toks, b);
    } else {
      ok, b := CompressDynamic(w, bytes, lz.litCount, lz.distCount, lz.toks);
    }
  }

  /** The writer can be put back to where it is now. */
  ghost predicate Savable(w: BitWriter)
    reads w, w.out
  {
    && w.Valid() && w.pos < w.limit && |w.bits| == 8 * w.pos + w.bitsIn
    && LowBits(w.buffer, w.bitsIn) == w.bits[8 * w.pos..]
  }

  lemma CanSave(w: BitWriter)
    requires w.Valid() && |w.bits| <= 24 && w.limit > 3
    ensures Savable(w)
  {
    hide LowBits, ByteBits, Pow2;
  }

  lemma BlockIs(b: Block, final: bool, start: seq<bool>, f: nat)
    requires Good(b) && f == if final then 1 else 0
    ensures (start + LowBits(f, 1)) + (LowBits(Type(b), 2) + BodyBits(b, |start| + 3)) == start + BlockBits(b, final, |start|)
  {
    hide LowBits, BodyBits, Good;
  }

  lemma RawIs(data: seq<byte>, at: nat)
    requires |data| < 65536
    ensures Good(Raw(data)) && Type(Raw(data)) == 0 && BodyBits(Raw(data), at) == RawBits(data, at)
    ensures |RawBits(data, at)| <= 7 + 32 + 8 * |data|
  {
    hide LowBits;
  }

  lemma CodedGives(b: Block, from: seq<byte>, to: seq<byte>)
    requires !b.Raw? && Expands(from, b.toks, to)
    ensures Gives(b, from, to)
  {
    hide Expands;
  }

  lemma CodedAnywhere(b: Block, at: nat)
    requires Good(b) && !b.Raw?
    ensures BodyBits(b, at) == BodyBits(b, 0)
  {
    hide Good, FixedLits, FixedDists;
  }

  /** What a flush needs to know of the parse: the tokens stand for the input from dictPos on, and,
      when little enough is pending, the dictionary still holds it. */
  ghost predicate Pending(lz: LzBuffer, dict: seq<byte>, hist: seq<byte>, dictPos: nat, pending: nat, dictSize: nat)
    reads lz
  {
    && lz.total <= pending && dictSize <= DICT_SIZE && dictPos + lz.total <= |hist| && |dict| == DICT_BUF
    && Expands(hist[..dictPos], lz.toks, hist[..dictPos + lz.total])
    && (pending <= dictSize ==> HoldsInput(dict, hist, dictPos, lz.total))
  }

  /** The block after its final flag: coded, raw if that is no larger, or with the fixed codes if
      the coded form did not fit. */
  method PutBody(w: BitWriter, lz: LzBuffer, dict: array<byte>, dictPos: nat, pending: nat, dictSize: nat,
                 forceRaw: bool, forceStatic: bool, bytes: seq<byte>, ghost hist: seq<byte>) returns (ghost b: Block)
    requires w.Valid() && Savable(w) && lz.Shaped() && AllValid(lz.toks) && lz.Counted() && |lz.toks| < 65535
    requires bytes == Packed(lz.toks) && |bytes| <= CODE_BUF_SIZE && w.out != lz.buf && w.out != dict
    requires Pending(lz, dict[..], hist, dictPos, pending, dictSize)
    modifies w, w.out, lz.litCount
    ensures w.Valid() && Good(b) && Gives(b, hist[..dictPos], hist[..dictPos + lz.total]) && WellChosen(b)
    ensures w.bits == old(w.bits) + (LowBits(Type(b), 2) + BodyBits(b, |old(w.bits)| + 2))
    ensures |w.bits| <= |old(w.bits)| + BLOCK_BITS
    ensures |old(w.bits)| + BLOCK_BITS < 8 * w.limit ==> RightKind(b, forceRaw, forceStatic, lz.total, pending, dictSize)
    ensures lz.total > 0 && pending <= dictSize && |old(w.bits)| + BLOCK_BITS < 8 * w.limit ==>
              |w.bits| <= |old(w.bits)| + 8 * lz.total + 41
  {
    hide BitWriter.Valid, LowBits, BodyBits, Good, Packed, LitUses, DistUses, AllValid, Expands, Savable, HoldsInput, Gives,
         RawBits, WellChosen;
    ghost var start, at := w.bits, |w.bits| + 2;
    var useRaw := forceRaw && pending <= dictSize;
    var savedPos, savedBuffer, savedBitsIn := w.pos, w.buffer, w.bitsIn;
    SavedFits(w);
    var ok := false;
    if !useRaw {
      ok, b := CompressBlock(w, forceStatic || lz.total < 48, bytes, lz);
      CodedGives(b, hist[..dictPos], hist[..dictPos + lz.total]);
      CodedAnywhere(b, at);
      Placed(w);
    }
    if (useRaw || (lz.total > 0 && w.pos - savedPos + 1 >= lz.total)) && pending <= dictSize {
      w.Rollback(savedPos, savedBuffer, savedBitsIn, start);
      ghost var data := hist[dictPos..dictPos + lz.total];
      PutRaw(w, dict, dictPos, lz.total, hist);
      b := Raw(data);
      NoOwnCodes(b);
      RawIs(data, at);
      RawGives(data, hist, dictPos, lz.total);
    } else if !ok {
      w.Rollback(savedPos, savedBuffer, savedBitsIn, start);
      ok, b := CompressBlock(w, true, bytes, lz);
      CodedGives(b, hist[..dictPos], hist[..dictPos + lz.total]);
      CodedAnywhere(b, at);
    }
  }

  lemma SavedFits(w: BitWriter)
    requires Savable(w)
    ensures w.pos < w.limit && |w.bits| == 8 * w.pos + w.bitsIn && LowBits(w.buffer, w.bitsIn) == w.bits[8 * w.pos..]
    ensures w.bitsIn < 8 && w.buffer < Pow2(w.bitsIn)
  {
    hide LowBits;
  }

  /** Stored raw exactly if that is asked for, or the codes save nothing, and the ring still holds the input; with
      the fixed codes if that is asked for or the input is short; and else with its own. */
  ghost predicate RightKind(b: Block, forceRaw: bool, forceStatic: bool, total: nat, pending: nat, dictSize: nat) {
    && (b.Raw? ==> pending <= dictSize) && (forceRaw && pending <= dictSize ==> b.Raw?)
    && (!b.Raw? ==> b.Fixed? == (forceStatic || total < 48))
  }

  /** Where the writer stands. */
  lemma Placed(w: BitWriter)
    requires w.Valid()
    ensures |w.bits| < 8 * w.limit ==> w.pos < w.limit
    ensures w.pos < w.limit ==> |w.bits| == 8 * w.pos + w.bitsIn && w.bitsIn < 8
  {
    hide LowBits, ByteBits, Pow2;
  }

  lemma FixedSmall(ts: seq<Token>, b: Block)
    requires AllValid(ts) && b == Fixed(ts) && Good(b) && |Packed(ts)| <= CODE_BUF_SIZE
    ensures |LowBits(Type(b), 2) + BodyBits(b, 0)| <= BLOCK_BITS
  {
    hide BodyBits, Good, Packed, AllValid;
    FixedFits(ts);
  }

  lemma RawGives(data: seq<byte>, hist: seq<byte>, from: nat, n: nat)
    requires from + n <= |hist| && data == hist[from..from + n]
    ensures Gives(Raw(data), hist[..from], hist[..from + n])
  {
    assert hist[..from + n] == hist[..from] + data;
  }

  // ---------------------------------------------------------------- around the block

  datatype FlushKind = NoFlush | SyncFlush | FullFlush | Finish

  /** The zlib header: 0x78, 0x01. */
  function ZlibHeader(): (r: seq<bool>)
    ensures |r| == 16
  {
    LowBits(0x78, 8) + LowBits(0x01, 8)
  }

  /** A 32-bit number, highest byte first. */
  function BigEndian(a: nat): (r: seq<bool>)
    requires a < 0x1_0000_0000
    ensures |r| == 32
  {
    LowBits(a / 0x100_0000, 8) + LowBits(a / 0x1_0000 % 256, 8) + LowBits(a / 256 % 256, 8) + LowBits(a % 256, 8)
  }

  /** What a flush puts before the block. */
  method PutPrefix(w: BitWriter, header: bool, final: bool)
    requires w.Valid()
    modifies w, w.out
    ensures w.Valid()
    ensures w.bits == old(w.bits) + (if header then ZlibHeader() else []) + LowBits(if final then 1 else 0, 1)
  {
    hide BitWriter.Valid, LowBits, Pow2;
    Pow2Values();
    ghost var start := w.bits;
    assert start + [] == start;
    if header {
      w.PutBits(0x78, 8);
      w.PutBits(0x01, 8);
      assert (start + LowBits(0x78, 8)) + LowBits(0x01, 8) == start + ZlibHeader();
    }
    w.PutBits(if final then 1 else 0, 1);
  }

  /** What a finishing flush puts after it: padding, and the checksum. */
  method PutEnd(w: BitWriter, zlib: bool, adler: nat)
    requires w.Valid() && adler < 0x1_0000_0000
    modifies w, w.out
    ensures w.Valid() && w.bits == old(w.bits) + Zeros(Padding(|old(w.bits)|)) + (if zlib then BigEndian(adler) else [])
  {
    hide BitWriter.Valid, LowBits, Pow2, Zeros, Padding;
    PadToByte(w);
    Pow2Values();
    ghost var start := w.bits;
    assert start + [] == start;
    if zlib {
      w.PutBits(adler / 0x100_0000, 8);
      w.PutBits(adler / 0x1_0000 % 256, 8);
      w.PutBits(adler / 256 % 256, 8);
      w.PutBits(adler % 256, 8);
      assert w.bits == start + BigEndian(adler);
    }
  }

  /** What any other flush puts after it: an empty raw block. */
  method PutMarker(w: BitWriter)
    requires w.Valid()
    modifies w, w.out
    ensures w.Valid() && Good(Raw([])) && w.bits == old(w.bits) + BlockBits(Raw([]), false, |old(w.bits)|)
    ensures |w.bits| % 8 == 0
  {
    hide BitWriter.Valid, LowBits, Pow2, Zeros, Padding;
    Pow2Values();
    MarkerIs(w.bits);
    w.PutBits(0, 3);
    PadToByte(w);
    w.PutBits(0, 16);
    w.PutBits(65535, 16);
  }

  lemma MarkerIs(start: seq<bool>)
    ensures Good(Raw([]))
    ensures start + LowBits(0, 3) + Zeros(Padding(|start| + 3)) + LowBits(0, 16) + LowBits(65535, 16)
         == start + BlockBits(Raw([]), false, |start|)
  {
    hide LowBits, Pow2, Zeros, Padding;
    ThreeZeros();
    NoBytes();
    RawIs([], |start| + 3);
    var z := Zeros(Padding(|start| + 3));
    assert start + (LowBits(0, 1) + LowBits(0, 2)) + z + LowBits(0, 16) + LowBits(65535, 16)
        == start + (LowBits(0, 1) + LowBits(0, 2) + (z + (LowBits(0, 16) + LowBits(65535, 16) + [])));
  }

  lemma ThreeZeros()
    ensures LowBits(0, 3) == LowBits(0, 1) + LowBits(0, 2)
  {
    LowBitsTake(0, 1, 3);
    assert Shr(0, 1) == 0;
  }

  /** A finished stream: header, blocks, padding, checksum. */
  function WholeStream(zlib: bool, bs: seq<Block>, last: Block, adler: nat): (r: seq<bool>)
    requires AllGood(bs) && Good(last) && adler < 0x1_0000_0000
  {
    var stream := StreamOf(bs, last, 0);
    (if zlib then ZlibHeader() else []) + stream + Zeros(Padding(|stream|)) + (if zlib then BigEndian(adler) else [])
  }

  /** Bits to a byte boundary depend on the position only modulo eight. */
  lemma PlaceOf(sent: nat, waiting: nat, start: nat, chain: nat)
    requires 8 * sent + waiting == start + chain && start % 8 == 0
    ensures waiting % 8 == chain % 8
  {
  }

  lemma JoinBlock(sent: seq<bool>, waiting: seq<bool>, prefix: seq<bool>, chain: seq<bool>, block: seq<bool>)
    requires sent + waiting == prefix + chain
    ensures sent + (waiting + block) == prefix + (chain + block)
  {
    assert sent + (waiting + block) == (sent + waiting) + block;
  }

  lemma JoinFirst(sent: seq<bool>, waiting: seq<bool>, header: seq<bool>, block: seq<bool>)
    requires sent == [] && waiting == []
    ensures sent + (waiting + header + block) == header + ([] + block)
  {
  }

  lemma HasRoom(w: BitWriter)
    requires w.Valid() && w.limit == OUT_LIMIT && |w.bits| <= 681439
    ensures w.pos < w.limit
  {
    hide LowBits, ByteBits, Pow2;
  }

  lemma MarkerSize(at: nat)
    requires Good(Raw([]))
    ensures |BlockBits(Raw([]), false, at)| <= 42
  {
    RawIs([], at + 3);
    hide LowBits, RawBits;
  }

  class Output {
    const w: BitWriter
    const forceRaw: bool
    const forceStatic: bool
    const zlib: bool
    var blockIndex: nat
    ghost var blocks: seq<Block>
    ghost var sink: seq<byte>  // all bytes of finished blocks so far

    constructor (forceRaw: bool, forceStatic: bool, zlib: bool)
      ensures fresh(w) && fresh(w.out) && Valid() && sink == [] && blocks == []
      ensures this.forceRaw == forceRaw && this.forceStatic == forceStatic && this.zlib == zlib
    {
      w := new BitWriter(OUT_BUF_SIZE, OUT_LIMIT);
      this.forceRaw, this.forceStatic, this.zlib := forceRaw, forceStatic, zlib;
      sink, blockIndex, blocks := [], 0, [];
      new;
      assert ByteBits([]) + [] == [] + [];
    }

    ghost function Prefix(index: nat): (r: seq<bool>)
      ensures |r| % 8 == 0
    {
      if zlib && index > 0 then ZlibHeader() else []
    }

    /** Everything sent or waiting is the blocks so far. */
    ghost predicate Valid()
      reads this, w, w.out
    {
      && w.Valid() && w.limit == OUT_LIMIT && w.pos == 0 && |w.bits| < 8 && AllGood(blocks)
      && ByteBits(sink) + w.bits == Prefix(blockIndex) + ChainBits(blocks, 0)
      && (blockIndex == 0 ==> sink == [] && w.bits == [] && blocks == [])
    }

    /** Prefix, final flag and block. */
    method PutBlock(lz: LzBuffer, dict: array<byte>, dictPos: nat, pending: nat, dictSize: nat, final: bool, bytes: seq<byte>,
                    ghost hist: seq<byte>) returns (ghost b: Block)
      requires Valid() && lz.Shaped() && AllValid(lz.toks) && lz.Counted() && |lz.toks| < 65535
      requires bytes == Packed(lz.toks) && |bytes| <= CODE_BUF_SIZE && w.out != lz.buf && w.out != dict
      requires Pending(lz, dict[..], hist, dictPos, pending, dictSize)
      modifies w, w.out, lz.litCount
      ensures w.Valid() && Good(b) && Gives(b, hist[..dictPos], hist[..dictPos + lz.total])
      ensures w.bits == old(w.bits) + (if zlib && blockIndex == 0 then ZlibHeader() else [])
                        + BlockBits(b, final, |ChainBits(blocks, 0)|)
      ensures |w.bits| <= 677240 && RightKind(b, forceRaw, forceStatic, lz.total, pending, dictSize) && WellChosen(b)
    {
      hide RightKind, WellChosen, BitWriter.Valid, LowBits, BodyBits, Good, Packed, LitUses, DistUses, AllValid, HoldsInput, Gives, ChainBits, ByteBits,
           Expands, BlockBits, Savable;
      ghost var chain := |ChainBits(blocks, 0)|;
      PlaceOf(|sink|, |w.bits|, |Prefix(blockIndex)|, chain);
      PutPrefix(w, zlib && blockIndex == 0, final);
      ghost var head := old(w.bits) + (if zlib && blockIndex == 0 then ZlibHeader() else []);
      CanSave(w);
      b := PutBody(w, lz, dict, dictPos, pending, dictSize, forceRaw, forceStatic, bytes, hist);
      BlockIs(b, final, head, if final then 1 else 0);
      SamePlace(b, final, |head|, chain);
    }

    /** Hands the buffer on, and starts it again.  What it requires is the assertion of line 2231,
        that nothing was dropped. */
    method Drain() returns (made: seq<byte>)
      requires w.Valid() && w.pos < w.limit
      modifies this`sink, w
      ensures sink == old(sink) + made
      ensures w.Valid() && w.pos == 0 && |w.bits| < 8 && w.bits == LowBits(w.buffer, w.bitsIn)
      ensures ByteBits(sink) + w.bits == old(ByteBits(sink) + w.bits) && |w.bits| == old(|w.bits|) % 8
    {
      hide LowBits, ByteBits, Pow2;
      w.Whole();
      made := w.out[..w.pos];
      ByteBitsAppend(sink, made);
      sink := sink + made;
      w.Restart();
    }

    /** tdefl_flush_block, when more will follow: the block joins the chain; after a sync or full
        flush an empty raw block follows it. */
    method FlushMore(lz: LzBuffer, dict: array<byte>, dictPos: nat, pending: nat, dictSize: nat, marker: bool,
                     ghost hist: seq<byte>) returns (made: seq<byte>, ghost b: Block)
      requires Valid() && lz.Valid() && lz.next < CODE_BUF_SIZE
      requires w.out != lz.buf && w.out != dict && lz.buf != dict
      requires Pending(lz, dict[..], hist, dictPos, pending, dictSize)
      modifies this, w, w.out, lz, lz.buf, lz.litCount, lz.distCount
      ensures lz.Valid() && lz.toks == [] && lz.next == 1
      ensures Good(b) && Gives(b, hist[..dictPos], hist[..dictPos + old(lz.total)])
      ensures RightKind(b, forceRaw, forceStatic, old(lz.total), pending, dictSize) && WellChosen(b)
      ensures sink == old(sink) + made
      ensures Valid() && blocks == old(blocks) + [b] + if marker then [Raw([])] else []
      ensures marker ==> w.bits == []
    {
      hide RightKind, WellChosen, BitWriter.Valid, LowBits, BodyBits, Good, Packed, LitUses, DistUses, AllValid, HoldsInput, Gives, ChainBits, ByteBits,
           Expands, BlockBits, Layout, TotalLength;
      lz.Finish();
      b := PutBlock(lz, dict, dictPos, pending, dictSize, false, lz.buf[..lz.next], hist);
      ghost var chain := AddBlock(b, old(w.bits));
      blockIndex := blockIndex + 1;
      if marker {
        ghost var before := w.bits;
        PutMarker(w);
        chain := AddMarker(chain, before);
        MarkerSize(|before|);
      }
      HasRoom(w);
      lz.Reset();
      made := Drain();
      blocks := chain;
    }

    /** The chain with the block just put. */
    lemma AddBlock(b: Block, waiting: seq<bool>) returns (chain: seq<Block>)
      requires Good(b) && AllGood(blocks) && ByteBits(sink) + waiting == Prefix(blockIndex) + ChainBits(blocks, 0)
      requires blockIndex == 0 ==> sink == [] && waiting == [] && blocks == []
      requires w.bits == waiting + (if zlib && blockIndex == 0 then ZlibHeader() else []) + BlockBits(b, false, |ChainBits(blocks, 0)|)
      ensures chain == blocks + [b] && AllGood(chain)
      ensures ByteBits(sink) + w.bits == Prefix(blockIndex + 1) + ChainBits(chain, 0)
    {
      hide Good, BlockBits;
      chain := blocks + [b];
      ChainAppend(blocks, b, 0);
      var block := BlockBits(b, false, |ChainBits(blocks, 0)|);
      if zlib && blockIndex == 0 {
        NoBytes();
        JoinFirst(ByteBits(sink), waiting, ZlibHeader(), block);
      } else {
        assert waiting + [] == waiting;
        JoinBlock(ByteBits(sink), waiting, Prefix(blockIndex), ChainBits(blocks, 0), block);
      }
    }

    lemma AddMarker(chain: seq<Block>, before: seq<bool>) returns (chain': seq<Block>)
      requires AllGood(chain) && ByteBits(sink) + before == Prefix(blockIndex) + ChainBits(chain, 0) && Good(Raw([]))
      requires w.bits == before + BlockBits(Raw([]), false, |before|)
      ensures chain' == chain + [Raw([])] && AllGood(chain')
      ensures ByteBits(sink) + w.bits == Prefix(blockIndex) + ChainBits(chain', 0)
    {
      hide Good, BlockBits, ByteBits;
      chain' := chain + [Raw([])];
      ChainAppend(chain, Raw([]), 0);
      PlaceOf(|sink|, |before|, |Prefix(blockIndex)|, |ChainBits(chain, 0)|);
      SamePlace(Raw([]), false, |before|, |ChainBits(chain, 0)|);
      JoinBlock(ByteBits(sink), before, Prefix(blockIndex), ChainBits(chain, 0), BlockBits(Raw([]), false, |before|));
    }

    ghost function Finished(last: Block, adler: nat): (r: seq<bool>)
      requires AllGood(blocks) && Good(last) && adler < 0x1_0000_0000
      reads this
    {
      WholeStream(zlib, blocks, last, adler)
    }

    /** tdefl_flush_block for TDEFL_FINISH: the last block, and the end of the stream. */
    method FlushLast(lz: LzBuffer, dict: array<byte>, dictPos: nat, pending: nat, dictSize: nat, adler: nat,
                     ghost hist: seq<byte>) returns (made: seq<byte>, ghost b: Block)
      requires Valid() && lz.Valid() && lz.next < CODE_BUF_SIZE && adler < 0x1_0000_0000
      requires w.out != lz.buf && w.out != dict && lz.buf != dict
      requires Pending(lz, dict[..], hist, dictPos, pending, dictSize)
      modifies this, w, w.out, lz, lz.buf, lz.litCount, lz.distCount
      ensures lz.Valid() && lz.toks == [] && lz.next == 1
      ensures Good(b) && Gives(b, hist[..dictPos], hist[..dictPos + old(lz.total)])
      ensures RightKind(b, forceRaw, forceStatic, old(lz.total), pending, dictSize) && WellChosen(b)
      ensures AllGood(blocks) && blocks == old(blocks)
      ensures sink == old(sink) + made && ByteBits(sink) == Finished(b, adler)
    {
      hide RightKind, WellChosen, BitWriter.Valid, LowBits, BodyBits, Good, Packed, LitUses, DistUses, AllValid, HoldsInput, Gives, ChainBits, ByteBits,
           Expands, BlockBits, Layout, TotalLength, Zeros, Padding;
      lz.Finish();
      b := PutBlock(lz, dict, dictPos, pending, dictSize, true, lz.buf[..lz.next], hist);
      ghost var sent, block := ByteBits(sink), w.bits;
      SentSoFar(b, old(w.bits));
      PutEnd(w, zlib, adler);
      EndsOnByte(sent, block, b, adler, w.bits);
      HasRoom(w);
      lz.Reset();
      made := Drain();
      blockIndex := blockIndex + 1;
      assert ByteBits(sink) + w.bits == ByteBits(sink) by { assert w.bits == []; }
    }

    lemma SentSoFar(b: Block, waiting: seq<bool>)
      requires Good(b) && AllGood(blocks) && ByteBits(sink) + waiting == Prefix(blockIndex) + ChainBits(blocks, 0)
      requires blockIndex == 0 ==> sink == [] && waiting == [] && blocks == []
      requires w.bits == waiting + (if zlib && blockIndex == 0 then ZlibHeader() else []) + BlockBits(b, true, |ChainBits(blocks, 0)|)
      ensures ByteBits(sink) + w.bits == (if zlib then ZlibHeader() else []) + StreamOf(blocks, b, 0)
    {
      hide Good, BlockBits;
      var block := BlockBits(b, true, |ChainBits(blocks, 0)|);
      if zlib && blockIndex == 0 {
        NoBytes();
        JoinFirst(ByteBits(sink), waiting, ZlibHeader(), block);
      } else {
        assert waiting + [] == waiting;
        JoinBlock(ByteBits(sink), waiting, Prefix(blockIndex), ChainBits(blocks, 0), block);
      }
    }

    lemma EndsOnByte(sent: seq<bool>, block: seq<bool>, b: Block, adler: nat, bits: seq<bool>)
      requires Good(b) && AllGood(blocks) && adler < 0x1_0000_0000 && |sent| % 8 == 0
      requires sent + block == (if zlib then ZlibHeader() else []) + StreamOf(blocks, b, 0)
      requires bits == block + Zeros(Padding(|block|)) + (if zlib then BigEndian(adler) else [])
      ensures |bits| % 8 == 0 && |bits| <= |block| + 39
      ensures sent + bits == Finished(b, adler)
    {
      hide Good, StreamOf, Zeros, BigEndian, ZlibHeader;
      var stream := StreamOf(blocks, b, 0);
      PlaceOf(|sent| / 8, |block|, if zlib then 16 else 0, |stream|);
      assert Padding(|block|) == Padding(|stream|);
      var z, e := Zeros(Padding(|block|)), if zlib then BigEndian(adler) else [];
      assert sent + (block + z + e) == (sent + block) + z + e;
    }
  }
}
