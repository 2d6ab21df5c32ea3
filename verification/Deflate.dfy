/** The compressor as a whole (tdefl_compress and tdefl_compress_normal): however the input is split
    into calls, what it sends are blocks that stand for that input. */
module Deflate {
  import opened Bits
  import opened Tokens
  import opened CodeBuffer
  import opened BitIO
  import opened LzWindow
  import opened LzParse
  import opened Blocks
  import opened BlockFlush
  import Adler32
  import BlockWriter

  datatype TdeflStatus = BadParam | Okay | Done

  /** Only raw blocks, or none with codes of their own, if that is asked for; and own codes well chosen, for 48 bytes
      and more. */
  ghost predicate AsAsked(b: Block, raw: bool, fixed: bool) {
    && (raw ==> b.Raw?) && (fixed ==> !b.Dynamic?) && BlockWriter.WellChosen(b)
    && (b.Dynamic? ==> TotalLength(b.toks) >= 48) && (b.Fixed? && !fixed ==> TotalLength(b.toks) < 48)
  }

  ghost predicate AllAsked(bs: seq<Block>, raw: bool, fixed: bool) {
    forall i :: 0 <= i < |bs| ==> AsAsked(bs[i], raw, fixed)
  }

  lemma MarkerAsAsked(raw: bool, fixed: bool)
    ensures AsAsked(Raw([]), raw, fixed)
  {
  }

  /** What a flush puts is as asked. */
  lemma KindAsAsked(b: Block, raw: bool, fixed: bool, total: nat, pending: nat, dictSize: nat, from: seq<byte>, to: seq<byte>)
    requires RightKind(b, raw, fixed, total, pending, dictSize) && BlockWriter.WellChosen(b) && (raw ==> pending <= dictSize)
    requires Gives(b, from, to) && |to| == |from| + total
    ensures AsAsked(b, raw, fixed)
  {
    hide BlockWriter.WellChosen, Expands, TotalLength;
    if !b.Raw? { ExpandsLength(from, b.toks, to); }
  }

  class Deflater {
    const parser: Compressor
    const output: Output
    var adler: Adler32.u32
    var waiting: seq<byte>     // what of m_output_buf the caller has had no room for
    var finished: bool
    var wantsFinish: bool
    var prev: TdeflStatus
    ghost var last: Block      // once finished
    ghost var given: seq<byte> // all the caller has been given

    ghost predicate Apart() {
      && output.w.out != parser.dict && output.w.out != parser.lz.buf && parser.lz.buf != parser.dict
    }

    /** The blocks sent so far stand for the input up to the parser's current block, and are of the kinds asked for. */
    ghost predicate Sent()
      reads parser, output
    {
      && parser.dictPos <= |parser.hist| && ChainGives(output.blocks, [], parser.hist[..parser.dictPos])
      && AllAsked(output.blocks, parser.options.raw, output.forceStatic) && parser.options.raw == output.forceRaw
    }

    ghost predicate Valid()
      reads this`finished, parser, parser.dict, parser.next, parser.hash
      reads parser.lz, parser.lz.buf, parser.lz.litCount, parser.lz.distCount
      reads output, output.w, output.w.out
    {
      Apart() && parser.Valid() && output.Valid() && Sent() && !finished
    }

    /** What a finished compressor has sent: blocks that stand for all of the input. */
    ghost predicate Complete()
      reads this`finished, this`last, this`adler, parser, output, output.w
    {
      && finished && AllGood(output.blocks) && Good(last) && AsAsked(last, parser.options.raw, output.forceStatic)
      && Sent() && Gives(last, parser.hist[..parser.dictPos], parser.hist)
      && ByteBits(output.sink) == output.Finished(last, adler)
    }

    /** Between calls: running or finished, and every byte made is given or waits. */
    ghost predicate Ready()
      reads this, parser, parser.dict, parser.next, parser.hash
      reads parser.lz, parser.lz.buf, parser.lz.litCount, parser.lz.distCount
      reads output, output.w, output.w.out
    {
      && (if finished then Complete() && wantsFinish else Valid())
      && adler == Adler32.Adler(1, parser.hist) && output.sink == given + waiting
      && (prev == Done ==> finished && waiting == [])
    }

    /** What a finished stream is: raw blocks only, if that was asked for, and no codes but the fixed ones, if that was. */
    lemma BlocksAsAsked()
      requires Ready() && finished
      ensures AllGood(output.blocks) && Good(last) && ByteBits(output.sink) == output.Finished(last, adler)
      ensures forall b :: b in output.blocks + [last] ==> (parser.options.raw ==> b.Raw?) && (output.forceStatic ==> !b.Dynamic?)
      ensures forall b :: b in output.blocks + [last] && !b.Raw? && !output.forceStatic ==> (b.Fixed? <==> TotalLength(b.toks) < 48)
    {
      hide TotalLength, Good, ChainGives, Gives, Output.Finished, BlockWriter.WellChosen, Adler32.Adler, ByteBits;
    }

    /** All of the input so far is in the bytes given out so far. */
    ghost predicate Flushed()
      reads this, parser, output, output.w
    {
      !finished && output.w.bits == [] && parser.dictPos == |parser.hist| && given == output.sink
    }

    /** They are whole blocks, and expand to it. */
    lemma FlushedIsAll()
      requires Ready() && Flushed()
      ensures AllGood(output.blocks) && ByteBits(given) == output.Prefix(output.blockIndex) + ChainBits(output.blocks, 0)
      ensures ChainGives(output.blocks, [], parser.hist)
    {
      hide ChainGives, ByteBits, Good, Adler32.Adler, Compressor.Valid, BitWriter.Valid;
      assert parser.hist[..|parser.hist|] == parser.hist;
      assert ByteBits(given) + [] == ByteBits(given);
    }

    /** What a sync or full flush is asked for. */
    ghost predicate Synced(flush: FlushKind)
      reads this, parser, output, output.w
    {
      flush == SyncFlush || flush == FullFlush ==> Flushed() && (flush == FullFlush ==> parser.dictSize == 0)
    }

    /** The work left: input offered or taken in and not yet parsed. */
    ghost function Work(offered: nat): (n: nat)
      reads parser
    {
      offered + parser.ahead
    }

    constructor (options: Options, forceStatic: bool, zlib: bool)
      requires options.probes >= 1 && options.longProbes >= 1
      ensures Ready() && !finished && !wantsFinish && prev == Okay
      ensures parser.hist == [] && given == [] && output.zlib == zlib
      ensures parser.options == options && output.forceStatic == forceStatic
      ensures fresh(parser) && fresh(parser.dict) && fresh(parser.next) && fresh(parser.hash)
      ensures fresh(parser.lz) && fresh(parser.lz.buf) && fresh(parser.lz.litCount) && fresh(parser.lz.distCount)
      ensures fresh(output) && fresh(output.w) && fresh(output.w.out)
    {
      hide Compressor.Valid, Compressor.Running, Output.Valid, Valid, Ready, Window, ChainGives, Adler32.Adler;
      parser := new Compressor(options);
      output := new Output(options.raw, forceStatic, zlib);
      adler, waiting, finished, wantsFinish, prev, given := 1, [], false, false, Okay, [];
      new;
      StartsEmpty();
    }

    lemma StartsEmpty()
      requires output.w.out != parser.dict && output.w.out != parser.lz.buf && parser.Valid() && output.Valid() && parser.hist == [] && parser.dictPos == 0 && output.blocks == []
      requires adler == 1 && waiting == [] && !finished && prev == Okay && given == [] && output.sink == []
      requires parser.options.raw == output.forceRaw
      ensures Ready()
    {
      hide Compressor.Valid, Output.Valid, Complete;
      BuffersApart(parser);
    }

    // -------------------------------------------------------------- flushing blocks

    /** The end of tdefl_flush_block: copies what the caller has room for, keeps the rest. */
    method Hand(made: seq<byte>, room: nat) returns (out: seq<byte>)
      modifies this`waiting
      ensures made == out + waiting && |out| <= room && (waiting != [] ==> |out| == room)
    {
      var n := if |made| < room then |made| else room;
      out := made[..n];
      waiting := made[n..];
    }

    /** A flush in the middle of the input. */
    method FlushBlock(marker: bool, room: nat) returns (out: seq<byte>)
      requires Apart() && parser.Running() && output.Valid() && Sent() && !finished && waiting == []
      modifies this`waiting, parser`dictPos, parser.lz, parser.lz.buf, parser.lz.litCount, parser.lz.distCount
      modifies output, output.w, output.w.out
      ensures Valid() && parser.dictPos == parser.Parsed() && (marker ==> output.w.bits == [])
      ensures output.sink == old(output.sink) + (out + waiting) && |out| <= room && (waiting != [] ==> |out| == room)
    {
      hide Window, Layout, LitUses, DistUses, AllValid, TotalLength, Expands, ByteBits, LowBits, Good, ChainGives, Gives, Pending,
           HoldsInput, Repeats, ChainBits, BitWriter.Valid, Output.Valid, LzBuffer.Valid, LzBuffer.Counted, BlockWriter.WellChosen, RightKind, AsAsked;
      parser.ReadyToFlush();
      var n := parser.lz.total;
      ghost var hist, from, before := parser.hist, parser.dictPos, output.blocks;
      var made;
      ghost var b;
      made, b := output.FlushMore(parser.lz, parser.dict, parser.dictPos, parser.pos - parser.dictPos, parser.dictSize, marker,
                                  hist);
      ChainGivesAppend(before, b, [], hist[..from], hist[..from + n]);
      KindAsAsked(b, parser.options.raw, output.forceStatic, n, parser.pos - from, parser.dictSize, hist[..from], hist[..from + n]);
      if marker { EmptyBlock(before + [b], hist[..from + n]); MarkerAsAsked(parser.options.raw, output.forceStatic); }
      assert before + [b] + [] == before + [b];
      parser.Flushed(n);
      out := Hand(made, room);
    }

    /** The last flush of all. */
    method FlushLast(room: nat) returns (out: seq<byte>)
      requires Valid() && parser.ahead == 0 && waiting == []
      modifies this`waiting, this`finished, this`last, parser.lz, parser.lz.buf, parser.lz.litCount, parser.lz.distCount
      modifies output, output.w, output.w.out
      ensures Complete() && finished
      ensures output.sink == old(output.sink) + (out + waiting) && |out| <= room && (waiting != [] ==> |out| == room)
    {
      hide Window, Layout, LitUses, DistUses, AllValid, TotalLength, Expands, ByteBits, LowBits, Good, ChainGives, Gives, Pending,
           HoldsInput, Repeats, ChainBits, BitWriter.Valid, Output.Valid, LzBuffer.Valid, LzBuffer.Counted, Output.Finished, AllGood, BlockWriter.WellChosen, RightKind,
           AsAsked;
      NothingWaits();
      parser.ReadyToFlush();
      ghost var hist := parser.hist;
      var made;
      made, last := output.FlushLast(parser.lz, parser.dict, parser.dictPos, parser.pos - parser.dictPos, parser.dictSize, adler,
                                     hist);
      finished := true;
      assert hist[..parser.dictPos + old(parser.lz.total)] == hist;
      KindAsAsked(last, parser.options.raw, output.forceStatic, old(parser.lz.total), parser.pos - parser.dictPos, parser.dictSize,
                  hist[..parser.dictPos], hist);
      out := Hand(made, room);
    }

    /** With no lookahead left no match can still be waiting. */
    lemma NothingWaits()
      requires parser.Running() && parser.ahead == 0
      ensures parser.savedLen == 0 && parser.Parsed() == |parser.hist|
    {
      hide Window, Layout, LitUses, DistUses, AllValid, TotalLength, Expands;
    }

    /** Forgets the dictionary, as a full flush does. */
    method Forget()
      requires Valid() && parser.ahead == 0 && parser.dictPos == parser.pos
      modifies parser`dictSize, parser.next, parser.hash
      ensures Valid() && parser.dictSize == 0
    {
      hide LzBuffer.Valid, Output.Valid, Expands, ChainGives, Repeats, Window;
      WindowShrinks(parser.dict[..], parser.hist, parser.pos - parser.dictSize, parser.pos);
      parser.ClearChains();
      parser.dictSize := 0;
    }

    // -------------------------------------------------------------- parsing

    /** tdefl_compress_normal: takes input, parses, and flushes when it is time.  It stops early when
        a block does not fit the caller's room. */
    method CompressNormal(src: seq<byte>, flush: FlushKind, room: nat) returns (used: nat, out: seq<byte>)
      requires Valid() && waiting == []
      modifies this`waiting, parser, parser.dict, parser.next, parser.hash
      modifies parser.lz, parser.lz.buf, parser.lz.litCount, parser.lz.distCount
      modifies output, output.w, output.w.out
      ensures Valid() && used <= |src| && parser.hist == old(parser.hist) + src[..used]
      ensures output.sink == old(output.sink) + (out + waiting) && |out| <= room && (waiting != [] ==> |out| == room)
      ensures waiting == [] ==> used == |src| && (flush != NoFlush ==> parser.ahead == 0)
      ensures Work(|src| - used) <= old(Work(|src|)) && (waiting != [] ==> Work(|src| - used) < old(Work(|src|)))
    {
      hide Compressor.Running, Output.Valid, Window, ChainGives, Compressor.Sized, Compressor.Found, Compressor.Dropped,
           Compressor.StepTokens, Compressor.StepKeeps, Compressor.StepMoves, AllAsked, Synced, Flushed;
      used, out := 0, [];
      ghost var hist0, sink0 := parser.hist, output.sink;
      assert hist0 + src[..0] == hist0 && sink0 + ([] + []) == sink0;
      while used < |src| || (flush != NoFlush && parser.ahead > 0)
        invariant Valid() && used <= |src| && parser.hist == hist0 + src[..used]
        invariant waiting == [] && output.sink == sink0 + (out + []) && |out| <= room
        invariant Work(|src| - used) <= old(Work(|src|))
        decreases |src| - used + parser.ahead
      {
        ghost var before := used;
        used := parser.Take(src, used);
        assert src[..used] == src[..before] + src[before..used];
        assert hist0 + src[..before] + src[before..used] == hist0 + src[..used];
        SentStays(hist0 + src[..before], parser.hist);
        if flush == NoFlush && parser.ahead < LOOKAHEAD { break; }
        var move;
        ghost var dist, len, d, n;
        move, dist, len, d, n := parser.Parse();
        if parser.FlushDue() {
          var part := FlushBlock(false, room - |out|);
          assert sink0 + (out + []) + (part + waiting) == sink0 + ((out + part) + waiting);
          out := out + part;
          if waiting != [] { return; }
        } else {
          NoFlushNeeded();
        }
      }
    }

    lemma SentStays(hist0: seq<byte>, hist: seq<byte>)
      requires hist0 <= hist && parser.dictPos <= |hist0|
      ensures hist[..parser.dictPos] == hist0[..parser.dictPos]
    {
    }

    lemma NoFlushNeeded()
      requires parser.Running() && !parser.FlushDue()
      ensures parser.Valid()
    {
    }

    // -------------------------------------------------------------- a call

    /** tdefl_flush_output_buffer: what waits goes first into the caller's room. */
    method GiveWaiting(room: nat) returns (out: seq<byte>, status: TdeflStatus)
      modifies this`waiting
      ensures old(waiting) == out + waiting && |out| <= room && (waiting != [] ==> |out| == room)
      ensures status == if finished && waiting == [] then Done else Okay
    {
      out := Hand(waiting, room);
      status := if finished && waiting == [] then Done else Okay;
    }

    /** Parses and, when all is parsed and the caller asks for it, flushes. */
    method CompressMore(src: seq<byte>, flush: FlushKind, room: nat) returns (used: nat, out: seq<byte>)
      requires Valid() && waiting == [] && adler == Adler32.Adler(1, parser.hist)
      modifies this`waiting, this`finished, this`last, this`adler
      modifies parser, parser.dict, parser.next, parser.hash
      modifies parser.lz, parser.lz.buf, parser.lz.litCount, parser.lz.distCount
      modifies output, output.w, output.w.out
      ensures used <= |src| && parser.hist == old(parser.hist) + src[..used] && adler == Adler32.Adler(1, parser.hist)
      ensures if finished then Complete() && flush == Finish && used == |src| else Valid()
      ensures output.sink == old(output.sink) + (out + waiting) && |out| <= room && (waiting != [] ==> |out| == room)
      ensures Progress(flush, |src| - used, old(Work(|src|)))
      ensures waiting == [] && (flush == SyncFlush || flush == FullFlush) ==>
                !finished && output.w.bits == [] && parser.dictPos == |parser.hist| && (flush == FullFlush ==> parser.dictSize == 0)
    {
      hide Compressor.Running, Output.Valid, Window, ChainGives, Compressor.Sized, Adler32.Adler, Complete, Sent;
      used, out := CompressNormal(src, flush, room);
      ghost var sink0 := old(output.sink);
      Adler32.AdlerAppend(1, old(parser.hist), src[..used]);
      adler := Adler32.Compute(adler, src[..used]);
      if flush != NoFlush && parser.ahead == 0 && used == |src| && waiting == [] {
        NothingWaits();
        var part;
        if flush == Finish {
          part := FlushLast(room - |out|);
        } else {
          part := FlushBlock(true, room - |out|);
          if flush == FullFlush { Forget(); }
        }
        assert sink0 + (out + []) + (part + waiting) == sink0 + ((out + part) + waiting);
        out := out + part;
      }
    }

    /** A call that starts with nothing waiting: whatever it makes goes out, as far as there is room. */
    method ServeInput(src: seq<byte>, flush: FlushKind, room: nat) returns (used: nat, out: seq<byte>)
      requires Ready() && prev == Okay && (flush == Finish ==> wantsFinish) && waiting == [] && !finished
      modifies this`waiting, this`finished, this`last, this`adler, this`given
      modifies parser, parser.dict, parser.next, parser.hash
      modifies parser.lz, parser.lz.buf, parser.lz.litCount, parser.lz.distCount
      modifies output, output.w, output.w.out
      ensures Ready() && prev == Okay && used <= |src| && parser.hist == old(parser.hist) + src[..used]
      ensures given == old(given) + out && |out| <= room && (waiting != [] ==> |out| == room)
      ensures Progress(flush, |src| - used, old(Work(|src|))) && (finished ==> used == |src|)
      ensures waiting == [] ==> Synced(flush)
    {
      hide Valid, Complete, Adler32.Adler, Work;
      assert given + [] == given;
      used, out := CompressMore(src, flush, room);
      assert given + (out + waiting) == (given + out) + waiting;
      given := given + out;
    }

    /** tdefl_flush_output_buffer, at the end of every call. */
    method ServeWaiting(room: nat) returns (out: seq<byte>, status: TdeflStatus)
      requires Ready()
      modifies this`waiting, this`given, this`prev
      ensures Ready() && given == old(given) + out && prev == status
      ensures old(waiting) == out + waiting && |out| <= room && (waiting != [] ==> |out| == room)
      ensures status == if finished && waiting == [] then Done else Okay
    {
      hide Valid, Complete, Adler32.Adler;
      out, status := GiveWaiting(room);
      assert given + (out + waiting) == (given + out) + waiting;
      given := given + out;
      prev := status;
    }

    /** What a call that compresses achieves, with `left` of its input not taken: all that was asked,
        if nothing waits, and otherwise less work left than before. */
    ghost predicate Progress(flush: FlushKind, left: nat, before: nat)
      reads this, parser
    {
      && Work(left) <= before
      && (waiting == [] ==> left == 0 && (flush != NoFlush ==> parser.ahead == 0) && (flush == Finish ==> finished))
      && (left > 0 || (flush == Finish && !finished) ==> Work(left) < before)
    }

    /** tdefl_compress: one call, with any piece of the input, any kind of flush and any room.  After
        one bad call it refuses all others. */
    method Compress(src: seq<byte>, flush: FlushKind, room: nat) returns (used: nat, out: seq<byte>, status: TdeflStatus)
      requires Ready()
      modifies this, parser, parser.dict, parser.next, parser.hash
      modifies parser.lz, parser.lz.buf, parser.lz.litCount, parser.lz.distCount
      modifies output, output.w, output.w.out
      ensures Ready() && prev == status && used <= |src| && parser.hist == old(parser.hist) + src[..used]
      ensures given == old(given) + out && |out| <= room
      ensures status == BadParam <==> old(prev != Okay || (wantsFinish && flush != Finish))
      ensures status == BadParam ==> used == 0 && out == [] && finished == old(finished) && waiting == old(waiting)
      ensures status == BadParam ==> wantsFinish == old(wantsFinish) && parser.ahead == old(parser.ahead)
      ensures status != BadParam ==> wantsFinish == (old(wantsFinish) || flush == Finish) && (waiting != [] ==> |out| == room)
      ensures status != BadParam ==> status == if finished && waiting == [] then Done else Okay
      ensures finished && !old(finished) ==> used == |src|
      ensures status != BadParam ==>
                if old(waiting == [] && !finished)
                then Progress(flush, |src| - used, old(Work(|src|)))
                else used == 0 && finished == old(finished) && parser.ahead == old(parser.ahead) && old(waiting) == out + waiting
      ensures status != BadParam && old(waiting == [] && !finished) && waiting == [] ==> Synced(flush)
    {
      hide Ready, Work;
      if prev != Okay || (wantsFinish && flush != Finish) {
        used, out, status := 0, [], BadParam;
        Refuse();
        assert parser.hist + src[..0] == parser.hist && given + [] == given;
        return;
      }
      Want(flush);
      if waiting == [] && !finished {
        used, out := ServeInput(src, flush, room);
      } else {
        used, out := 0, [];
        assert parser.hist + src[..0] == parser.hist && given + [] == given;
      }
      var rest;
      rest, status := ServeWaiting(room - |out|);
      assert (given + out) + rest == given + (out + rest);
      out := out + rest;
    }

    method Want(flush: FlushKind)
      requires Ready()
      modifies this`wantsFinish
      ensures Ready() && wantsFinish == (old(wantsFinish) || flush == Finish)
    {
      hide Valid, Complete, Adler32.Adler;
      wantsFinish := wantsFinish || flush == Finish;
    }

    method Refuse()
      requires Ready()
      modifies this`prev
      ensures Ready() && prev == BadParam
    {
      hide Valid, Complete, Adler32.Adler;
      prev := BadParam;
    }
  }

  lemma BuffersApart(p: Compressor)
    requires p.Valid()
    ensures p.lz.buf != p.dict
  {
    hide LzBuffer.Valid, Compressor.Ringed, Compressor.SavedValid, Compressor.Recorded;
  }

  lemma EmptyBlock(bs: seq<Block>, to: seq<byte>)
    requires ChainGives(bs, [], to)
    ensures ChainGives(bs + [Raw([])], [], to)
  {
    hide ChainGives;
    ChainGivesAppend(bs, Raw([]), [], to, to);
  }
}
