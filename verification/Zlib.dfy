/** Decompressing what the compressor sent: the zlib wrapper around tinfl_decompress, and the round
    trip from input to input. */
module Zlib {
  import opened Bits
  import opened BitIO
  import opened Blocks
  import opened InflateBlocks
  import opened BlockFlush
  import opened LzParse
  import opened Deflate
  import opened MzStream
  import Adler32

  datatype Status = Inflated | Failed | AdlerMismatch

  /** A stream that stands for data: its blocks, the last one, and the data's checksum. */
  ghost predicate StandsFor(input: seq<byte>, zlib: bool, bs: seq<Block>, last: Block, mid: seq<byte>, data: seq<byte>) {
    && AllGood(bs) && Good(last) && ChainGives(bs, [], mid) && Gives(last, mid, data)
    && ByteBits(input) == WholeStream(zlib, bs, last, Adler32.Adler(1, data))
  }

  /** TINFL_FLAG_PARSE_ZLIB_HEADER: two bytes, and their checks. */
  method ReadZlibHeader(r: BitReader, ghost more: seq<bool>) returns (ok: bool)
    requires r.Valid() && r.Rest() == ZlibHeader() + more
    modifies r
    ensures r.Valid() && ok && r.Rest() == more
  {
    hide LowBits, BitReader.Valid, BitReader.Rest;
    assert ZlibHeader() + more == LowBits(0x78, 8) + (LowBits(0x01, 8) + more);
    var zhdr0 := NextByte(r, 0x78, LowBits(0x01, 8) + more);
    var zhdr1 := NextByte(r, 0x01, more);
    ok := (zhdr0 as nat * 256 + zhdr1 as nat) % 31 == 0 && zhdr1 / 32 % 2 == 0 && zhdr0 % 16 == 8;
  }

  /** The checksum at the end, highest byte first. */
  method ReadAdler(r: BitReader, ghost a: nat, ghost more: seq<bool>) returns (v: nat)
    requires r.Valid() && a < 0x1_0000_0000 && r.Rest() == BigEndian(a) + more
    modifies r
    ensures r.Valid() && v == a && r.Rest() == more
  {
    hide LowBits, BitReader.Valid, BitReader.Rest;
    ghost var b3, b2, b1, b0 := a / 0x100_0000, a / 0x1_0000 % 256, a / 256 % 256, a % 256;
    assert BigEndian(a) + more == LowBits(b3, 8) + (LowBits(b2, 8) + (LowBits(b1, 8) + (LowBits(b0, 8) + more)));
    var s := NextByte(r, b3, LowBits(b2, 8) + (LowBits(b1, 8) + (LowBits(b0, 8) + more)));
    v := s;
    s := NextByte(r, b2, LowBits(b1, 8) + (LowBits(b0, 8) + more));
    v := v * 256 + s;
    s := NextByte(r, b1, LowBits(b0, 8) + more);
    v := v * 256 + s;
    s := NextByte(r, b0, more);
    v := v * 256 + s;
    FromBytes(a);
  }

  lemma FromBytes(a: nat)
    requires a < 0x1_0000_0000
    ensures ((a / 0x100_0000 * 256 + a / 0x1_0000 % 256) * 256 + a / 256 % 256) * 256 + a % 256 == a
  {
    assert a / 256 / 256 == a / 0x1_0000;
    assert a / 0x1_0000 / 256 == a / 0x100_0000;
  }

  lemma StreamParts(zlib: bool, bs: seq<Block>, last: Block, adler: nat)
    requires AllGood(bs) && Good(last) && adler < 0x1_0000_0000
    ensures var stream := StreamOf(bs, last, 0);
            var end := Zeros(Padding(|stream|)) + (if zlib then BigEndian(adler) else []);
            WholeStream(zlib, bs, last, adler) == (if zlib then ZlibHeader() else []) + (stream + end)
  {
    hide StreamOf, Zeros, Padding, BigEndian, ZlibHeader, Good;
  }

  /** Header, blocks and checksum of one stream. */
  method Decompress(input: seq<byte>, out: array<byte>, zlib: bool, ghost bs: seq<Block>, ghost last: Block,
                    ghost mid: seq<byte>, ghost data: seq<byte>) returns (status: Status, pos: nat)
    requires StandsFor(input, zlib, bs, last, mid, data) && |data| <= out.Length
    modifies out
    ensures status == Inflated && pos == |data| && out[..pos] == data
  {
    hide StreamOf, Zeros, Padding, BigEndian, ZlibHeader, Good, ByteBits, LowBits, Gives, ChainGives, BitReader.Valid,
         BitReader.Rest, WholeStream, Adler32.Adler;
    ghost var a, stream := Adler32.Adler(1, data), StreamOf(bs, last, 0);
    ghost var check := if zlib then BigEndian(a) else [];
    ghost var end := Zeros(Padding(|stream|)) + check;
    StreamParts(zlib, bs, last, a);
    var r := new BitReader(input);
    var ok := true;
    assert [] + (stream + end) == stream + end;
    if zlib { ok := ReadZlibHeader(r, stream + end); }
    assert ok;
    var t := new Inflater();
    ok, pos := t.InflateAll(r, out, bs, last, 0, mid, data, end);
    SkipToByte(r, |stream|, check);
    status := Inflated;
    if zlib {
      assert check + [] == check;
      var v := ReadAdler(r, a, []);
      var computed := Adler32.Compute(1, out[..pos]);
      if computed != v { status := AdlerMismatch; }
    }
  }

  function Flatten(pieces: seq<seq<byte>>): (data: seq<byte>) {
    if pieces == [] then [] else Flatten(pieces[..|pieces| - 1]) + pieces[|pieces| - 1]
  }

  /** Feeds one piece to the compressor, with the kind of flush the caller chose for it, until it is
      taken; room[calls] is what the caller has for each call's output. */
  method OnePiece(d: Deflater, piece: seq<byte>, kind: FlushKind, room: nat -> nat, calls0: nat)
    returns (out: seq<byte>, calls: nat)
    requires d.Ready() && d.prev == Okay && !d.wantsFinish && kind != Finish && forall i :: room(i) >= 1
    modifies d, d.parser, d.parser.dict, d.parser.next, d.parser.hash
    modifies d.parser.lz, d.parser.lz.buf, d.parser.lz.litCount, d.parser.lz.distCount
    modifies d.output, d.output.w, d.output.w.out
    ensures d.Ready() && d.prev == Okay && !d.wantsFinish
    ensures d.parser.hist == old(d.parser.hist) + piece && d.given == old(d.given) + out
  {
    hide Deflater.Ready, Deflater.Work;
    var used, first := 0, true;
    out, calls := [], calls0;
    ghost var hist0, given0 := d.parser.hist, d.given;
    assert hist0 + piece[..0] == hist0 && given0 + [] == given0;
    while first || used < |piece|
      invariant d.Ready() && d.prev == Okay && !d.wantsFinish && 0 <= used <= |piece|
      invariant d.parser.hist == hist0 + piece[..used] && d.given == given0 + out
      decreases first || used < |piece|, d.Work(|piece| - used), |d.waiting|
    {
      Unfinished(d);
      var n, part, status, rounds := MzDeflate(d, piece[used..], kind, room(calls));
      Unfinished(d);
      TookMore(hist0, piece, used, n, given0, out, part);
      used, out, calls, first := used + n, out + part, calls + 1, false;
    }
    assert piece[..used] == piece;
  }

  /** One call more: its input follows what was taken, its output what was given. */
  lemma TookMore(hist: seq<byte>, piece: seq<byte>, used: nat, n: nat, given: seq<byte>, out: seq<byte>, part: seq<byte>)
    requires used + n <= |piece|
    ensures (hist + piece[..used]) + piece[used..][..n] == hist + piece[..used + n]
    ensures (given + out) + part == given + (out + part)
  {
    assert piece[..used] + piece[used..][..n] == piece[..used + n];
    assert (hist + piece[..used]) + piece[used..][..n] == hist + (piece[..used] + piece[used..][..n]);
  }

  lemma Unfinished(d: Deflater)
    requires d.Ready() && !d.wantsFinish
    ensures !d.finished && d.prev != TdeflStatus.Done
  {
    hide Deflater.Complete, Deflater.Valid;
  }

  /** Ends the stream with the last of the input: calls again, offering what has not been taken, until
      the compressor says it is at its end. */
  method FinishStream(d: Deflater, piece: seq<byte>, room: nat -> nat, calls0: nat) returns (out: seq<byte>)
    requires d.Ready() && d.prev == Okay && !d.finished && forall i :: room(i) >= 1
    modifies d, d.parser, d.parser.dict, d.parser.next, d.parser.hash
    modifies d.parser.lz, d.parser.lz.buf, d.parser.lz.litCount, d.parser.lz.distCount
    modifies d.output, d.output.w, d.output.w.out
    ensures d.Complete() && d.adler == Adler32.Adler(1, d.parser.hist) && d.output.sink == d.given
    ensures d.parser.hist == old(d.parser.hist) + piece && d.given == old(d.given) + out
  {
    hide Deflater.Ready, Deflater.Work;
    var used, calls, status := 0, calls0, MzOk;
    out := [];
    ghost var hist0, given0 := d.parser.hist, d.given;
    assert hist0 + piece[..0] == hist0 && given0 + [] == given0;
    while status != MzStreamEnd
      invariant d.Ready() && (status == MzOk ==> d.prev == Okay) && (status == MzStreamEnd ==> d.prev == TdeflStatus.Done)
      invariant status == MzOk || status == MzStreamEnd
      invariant 0 <= used <= |piece| && (d.finished ==> used == |piece|)
      invariant d.parser.hist == hist0 + piece[..used] && d.given == given0 + out
      decreases status != MzStreamEnd, d.Work(|piece| - used), !d.finished, |d.waiting|
    {
      var n, part;
      ghost var rounds;
      n, part, status, rounds := MzDeflate(d, piece[used..], Finish, room(calls));
      TookMore(hist0, piece, used, n, given0, out, part);
      used, out, calls := used + n, out + part, calls + 1;
    }
    Ended(d);
    assert piece[..used] == piece;
  }

  lemma Ended(d: Deflater)
    requires d.Ready() && d.prev == TdeflStatus.Done
    ensures d.Complete() && d.finished && d.adler == Adler32.Adler(1, d.parser.hist) && d.output.sink == d.given
  {
    hide Deflater.Complete, Deflater.Valid;
  }

  /** Feeds every piece, then the last one, with which the stream ends. */
  method CompressPieces(d: Deflater, pieces: seq<seq<byte>>, kinds: seq<FlushKind>, last: seq<byte>, room: nat -> nat)
    returns (out: seq<byte>)
    requires d.Ready() && d.prev == Okay && !d.wantsFinish && d.parser.hist == [] && d.given == []
    requires |kinds| == |pieces| && Finish !in kinds && forall i :: room(i) >= 1
    modifies d, d.parser, d.parser.dict, d.parser.next, d.parser.hash
    modifies d.parser.lz, d.parser.lz.buf, d.parser.lz.litCount, d.parser.lz.distCount
    modifies d.output, d.output.w, d.output.w.out
    ensures d.Complete() && d.parser.hist == Flatten(pieces) + last && d.adler == Adler32.Adler(1, Flatten(pieces) + last)
    ensures out == d.output.sink
  {
    hide Deflater.Ready, Deflater.Complete;
    var i, calls := 0, 0;
    out := [];
    NoPieces(pieces);
    while i < |pieces|
      invariant 0 <= i <= |pieces| && d.Ready() && d.prev == Okay && !d.wantsFinish
      invariant d.parser.hist == Flatten(pieces[..i]) && d.given == out
    {
      var part;
      part, calls := OnePiece(d, pieces[i], kinds[i], room, calls);
      out := out + part;
      assert pieces[..i + 1][..i] == pieces[..i];
      i := i + 1;
    }
    assert pieces[..i] == pieces;
    Unfinished(d);
    var part := FinishStream(d, last, room, calls);
    out := out + part;
  }

  lemma NoPieces(pieces: seq<seq<byte>>)
    ensures Flatten(pieces[..0]) == []
  {
  }

  /** Whatever the options, however the input is cut up, the last of it or all offered with the finish,
      and however little room the caller has for each call's output: decompressing all that was given
      out gives the input back. */
  method RoundTrip(pieces: seq<seq<byte>>, kinds: seq<FlushKind>, last: seq<byte>, room: nat -> nat, options: Options,
                   forceStatic: bool, zlib: bool) returns (status: Status, back: seq<byte>)
    requires options.probes >= 1 && options.longProbes >= 1
    requires |kinds| == |pieces| && Finish !in kinds && forall i :: room(i) >= 1
    ensures status == Inflated && back == Flatten(pieces) + last
  {
    hide Deflater.Ready, WholeStream, ChainGives, Gives, Good, AllGood, ByteBits, Adler32.Adler;
    var d := new Deflater(options, forceStatic, zlib);
    var sent := CompressPieces(d, pieces, kinds, last, room);
    var data := Flatten(pieces) + last;
    var out := new byte[|data|];
    var pos;
    status, pos := Decompress(sent, out, zlib, d.output.blocks, d.last, data[..d.parser.dictPos], data);
    back := out[..pos];
  }
}
