/** mz_deflate: one call of the zlib-style interface, which may take several of tdefl_compress. */
module MzStream {
  import opened Bits
  import opened BlockFlush
  import opened LzParse
  import opened Deflate

  datatype MzStatus = MzOk | MzStreamEnd | MzStreamError | MzBufError

  /** What still has to happen before a call with these arguments can end a stream or a piece. */
  ghost predicate Nearer(d: Deflater, left: nat, work: nat, running: bool, waiting: nat)
    reads d, d.parser
  {
    || d.Work(left) < work
    || (d.Work(left) == work && running && d.finished)
    || (d.Work(left) == work && running == !d.finished && |d.waiting| < waiting)
  }

  /** mz_deflate: calls tdefl_compress until the room is full or nothing is left to do; never more
      than twice. */
  method MzDeflate(d: Deflater, src: seq<byte>, flush: FlushKind, room: nat)
    returns (used: nat, out: seq<byte>, status: MzStatus, ghost calls: nat)
    requires d.Ready()
    modifies d, d.parser, d.parser.dict, d.parser.next, d.parser.hash
    modifies d.parser.lz, d.parser.lz.buf, d.parser.lz.litCount, d.parser.lz.distCount
    modifies d.output, d.output.w, d.output.w.out
    ensures d.Ready() && used <= |src| && d.parser.hist == old(d.parser.hist) + src[..used]
    ensures d.given == old(d.given) + out && |out| <= room && calls <= 2
    ensures room == 0 ==> status == MzBufError && calls == 0
    ensures room > 0 && old(d.prev) == Done ==> status == if flush == Finish then MzStreamEnd else MzBufError
    ensures room > 0 && old(d.prev) != Done ==>
              (status == MzStreamError <==> old(d.prev == BadParam || (d.wantsFinish && flush != Finish)))
    ensures status == MzBufError && room > 0 && old(d.prev) != Done ==> used == |src| && flush == NoFlush && d.prev == Okay
    ensures status == MzOk ==> d.prev == Okay && (|out| == room || (flush != Finish && used == |src|))
    ensures d.finished && !old(d.finished) ==> used == |src|
    ensures status == MzOk && (used < |src| || flush == Finish) ==>
              Nearer(d, |src| - used, old(d.Work(|src|)), !old(d.finished), |old(d.waiting)|)
    ensures status == MzOk && old(d.waiting == [] && !d.finished) && d.waiting == [] ==> d.Synced(flush)
    ensures status == MzStreamEnd ==> d.prev == Done || old(d.prev) == Done
    ensures d.wantsFinish ==> old(d.wantsFinish) || flush == Finish
    ensures d.Work(|src| - used) <= old(d.Work(|src|))
  {
    hide Deflater.Ready, Deflater.Synced;
    used, out, calls := 0, [], 0;
    ghost var hist0, given0 := d.parser.hist, d.given;
    assert hist0 + src[..0] == hist0 && given0 + [] == given0;
    if room == 0 { return 0, [], MzBufError, 0; }
    if d.prev == Done { return 0, [], if flush == Finish then MzStreamEnd else MzBufError, 0; }
    while true
      invariant used == 0 && |out| < room && calls <= 1
      invariant d.Ready() && d.parser.hist == hist0 + src[..used] && d.given == given0 + out
      invariant calls == 0 ==> d.prev == old(d.prev) && d.wantsFinish == old(d.wantsFinish)
      invariant calls == 0 ==> d.finished == old(d.finished) && d.waiting == old(d.waiting)
      invariant calls == 1 ==> d.prev == Okay && old(d.prev == Okay && !(d.wantsFinish && flush != Finish))
      invariant calls == 1 ==> d.wantsFinish == (old(d.wantsFinish) || flush == Finish)
      invariant calls == 1 ==> d.waiting == [] && !d.finished && !old(d.finished)
      invariant d.Work(|src|) == old(d.Work(|src|))
      decreases 2 - calls
    {
      var n, part, s := d.Compress(src[used..], flush, room - |out|);
      assert src[used..] == src && (given0 + out) + part == given0 + (out + part);
      used, out, calls := used + n, out + part, calls + 1;
      if s == BadParam { return used, out, MzStreamError, calls; }
      if s == Done { return used, out, MzStreamEnd, calls; }
      if |out| == room { break; }
      if used == |src| && flush != Finish {
        if flush != NoFlush || used > 0 || |out| > 0 { break; }
        return used, out, MzBufError, calls;
      }
    }
    status := MzOk;
  }
}
