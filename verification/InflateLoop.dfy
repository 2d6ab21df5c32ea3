/** The symbol loop of tinfl_decompress: on the bits of a block's tokens it writes what the
    tokens expand to and stops just behind the end-of-block symbol. */
module InflateLoop {
  import opened Bits
  import opened Canonical
  import opened InflateTable
  import opened InflateBuild
  import opened BitIO
  import opened Tokens
  import opened CopyPaths

  /** A block's tokens and its end, as bits. */
  function StreamBits(us: seq<Token>, ls: seq<nat>, ds: seq<nat>): (r: seq<bool>)
    requires AllHaveCodes(us, ls, ds) && Uses(ls, END_OF_BLOCK)
  {
    TokensBits(us, ls, ds) + SymBits(ls, END_OF_BLOCK)
  }

  /** The stream still to come: the tokens us, the end, and whatever follows the block. */
  ghost predicate Streams(rest: seq<bool>, us: seq<Token>, ls: seq<nat>, ds: seq<nat>, tail: seq<bool>) {
    && AllHaveCodes(us, ls, ds) && Uses(ls, END_OF_BLOCK)
    && rest == StreamBits(us, ls, ds) + tail
  }

  /** The first literal/length symbol of the stream. */
  ghost function HeadSym(us: seq<Token>): (s: nat)
    requires us != [] ==> ValidToken(us[0])
  {
    if us == [] then END_OF_BLOCK else if us[0].Literal? then us[0].lit else LenSym(us[0].len - MIN_MATCH)
  }

  lemma TokensFirst(us: seq<Token>, ls: seq<nat>, ds: seq<nat>)
    requires AllHaveCodes(us, ls, ds) && us != []
    ensures HasCodes(us[0], ls, ds) && AllHaveCodes(us[1..], ls, ds)
    ensures TokensBits(us, ls, ds) == TokenBits(us[0], ls, ds) + TokensBits(us[1..], ls, ds)
  {
    hide TokenBits, HasCodes;
  }

  /** The stream stands inside a match. */
  ghost predicate InMatch(us: seq<Token>, ls: seq<nat>, ds: seq<nat>) {
    us != [] && us[0].Match? && HasCodes(us[0], ls, ds) && AllHaveCodes(us[1..], ls, ds) && Uses(ls, END_OF_BLOCK)
  }

  /** What follows the distance symbol of a match. */
  ghost function AfterDist(us: seq<Token>, ls: seq<nat>, ds: seq<nat>, tail: seq<bool>): (r: seq<bool>)
    requires InMatch(us, ls, ds)
  {
    var d := us[0].dist - 1;
    LowBits(Low(d, DistExtra(d)), DistExtra(d)) + (StreamBits(us[1..], ls, ds) + tail)
  }

  /** The stream stands at the distance symbol of a match. */
  ghost predicate AtDist(rest: seq<bool>, us: seq<Token>, ls: seq<nat>, ds: seq<nat>, tail: seq<bool>) {
    InMatch(us, ls, ds) && rest == SymBits(ds, DistSym(us[0].dist - 1)) + AfterDist(us, ls, ds, tail)
  }

  /** The stream stands just after the length symbol of a match. */
  ghost predicate AfterLength(rest: seq<bool>, us: seq<Token>, ls: seq<nat>, ds: seq<nat>, tail: seq<bool>) {
    InMatch(us, ls, ds)
    && var l := us[0].len - MIN_MATCH;
       rest == LowBits(Low(l, LenExtra(l)), LenExtra(l))
               + (SymBits(ds, DistSym(us[0].dist - 1)) + AfterDist(us, ls, ds, tail))
  }

  lemma EndAtHead(rest: seq<bool>, us: seq<Token>, ls: seq<nat>, ds: seq<nat>, tail: seq<bool>)
    requires Streams(rest, us, ls, ds, tail) && us == []
    ensures Uses(ls, END_OF_BLOCK) && SymBits(ls, END_OF_BLOCK) <= rest && rest[ls[END_OF_BLOCK]..] == tail
  {
    assert TokensBits(us, ls, ds) == [];
    hide SymBits, TokensBits;
  }

  lemma LiteralAtHead(rest: seq<bool>, us: seq<Token>, ls: seq<nat>, ds: seq<nat>, tail: seq<bool>)
    requires Streams(rest, us, ls, ds, tail) && us != [] && us[0].Literal?
    ensures Uses(ls, us[0].lit) && SymBits(ls, us[0].lit) <= rest
    ensures Streams(rest[ls[us[0].lit]..], us[1..], ls, ds, tail)
  {
    hide TokensBits, LowBits, Stored, AllHaveCodes;
    TokensFirst(us, ls, ds);
    var a, b, c := SymBits(ls, us[0].lit), TokensBits(us[1..], ls, ds), SymBits(ls, END_OF_BLOCK);
    assert ((a + b) + c) + tail == a + ((b + c) + tail);
  }

  lemma MatchAtHead(rest: seq<bool>, us: seq<Token>, ls: seq<nat>, ds: seq<nat>, tail: seq<bool>)
    requires Streams(rest, us, ls, ds, tail) && us != [] && us[0].Match?
    ensures ValidToken(us[0])
    ensures var s := LenSym(us[0].len - MIN_MATCH);
            Uses(ls, s) && SymBits(ls, s) <= rest && AfterLength(rest[ls[s]..], us, ls, ds, tail)
  {
    hide TokensBits, LowBits, Stored, AllHaveCodes, LenSym, DistSym, LenExtra, DistExtra, Low;
    TokensFirst(us, ls, ds);
    var l, d := us[0].len - MIN_MATCH, us[0].dist - 1;
    var a, p := SymBits(ls, LenSym(l)), LowBits(Low(l, LenExtra(l)), LenExtra(l));
    var q, r := SymBits(ds, DistSym(d)), LowBits(Low(d, DistExtra(d)), DistExtra(d));
    var b, c := TokensBits(us[1..], ls, ds), SymBits(ls, END_OF_BLOCK);
    assert (((a + p + q + r) + b) + c) + tail == a + (p + (q + (r + ((b + c) + tail))));
  }

  /** The code at the head of the stream is that of the next literal/length symbol. */
  lemma HeadCode(rest: seq<bool>, us: seq<Token>, ls: seq<nat>, ds: seq<nat>, tail: seq<bool>)
    requires Streams(rest, us, ls, ds, tail)
    ensures us != [] ==> ValidToken(us[0])
    ensures Uses(ls, HeadSym(us)) && SymBits(ls, HeadSym(us)) <= rest
    ensures us == [] ==> rest[ls[HeadSym(us)]..] == tail
    ensures us != [] && us[0].Literal? ==> Streams(rest[ls[HeadSym(us)]..], us[1..], ls, ds, tail)
    ensures us != [] && us[0].Match? ==> AfterLength(rest[ls[HeadSym(us)]..], us, ls, ds, tail)
  {
    hide Streams, SymBits, AfterLength, LenSym;
    if us == [] {
      EndAtHead(rest, us, ls, ds, tail);
    } else if us[0].Literal? {
      LiteralAtHead(rest, us, ls, ds, tail);
    } else {
      MatchAtHead(rest, us, ls, ds, tail);
    }
  }

  // ---------------------------------------------------------------- output room

  /** Writing one token's bytes at pos gives what the token means, and there is room. */
  lemma {:induction false} ExpandsGrows(a: seq<byte>, ts: seq<Token>, b: seq<byte>)
    requires Expands(a, ts, b)
    ensures a <= b && (ts != [] ==> |a| < |b|)
    decreases |ts|
  {
    hide Apply, CanFollow;
    if ts != [] { ExpandsGrows(Apply(a, ts[0]), ts[1..], b); }
  }

  lemma ExpandsFirst(a: seq<byte>, ts: seq<Token>, b: seq<byte>)
    requires Expands(a, ts, b) && ts != []
    ensures CanFollow(ts[0], a) && Expands(Apply(a, ts[0]), ts[1..], b) && |Apply(a, ts[0])| <= |b|
  {
    hide Apply, CanFollow;
    ExpandsGrows(Apply(a, ts[0]), ts[1..], b);
  }

  // ---------------------------------------------------------------- the tables of a block

  /** Both tables are built for these code lengths, and differ. */
  ghost predicate Tables(lt: HuffTable, ls: seq<nat>, dt: HuffTable, ds: seq<nat>)
    reads lt, lt.lookup, lt.tree, dt, dt.lookup, dt.tree
  {
    && lt.Shaped() && dt.Shaped() && Sizes(ls) && Sizes(ds)
    && Holds(lt.View(), ls, |ls|, |ls|) && Holds(dt.View(), ds, |ds|, |ds|)
  }

  /** One literal/length symbol, wherever its bits come from. */
  method NextSymbol(r: BitReader, lt: HuffTable, filled: bool, ghost us: seq<Token>, ghost ls: seq<nat>, ghost ds: seq<nat>,
                    ghost tail: seq<bool>) returns (sym: nat)
    requires r.Valid() && lt.Shaped() && Sizes(ls) && Holds(lt.View(), ls, |ls|, |ls|)
    requires Streams(r.Rest(), us, ls, ds, tail)
    requires filled ==> r.numBits >= 15
    modifies r
    ensures r.Valid()
    ensures filled ==> r.numBits >= old(r.numBits) - 15
    ensures us != [] ==> ValidToken(us[0])
    ensures sym == HeadSym(us)
    ensures us == [] ==> r.Rest() == tail
    ensures us != [] && us[0].Literal? ==> Streams(r.Rest(), us[1..], ls, ds, tail)
    ensures us != [] && us[0].Match? ==> AfterLength(r.Rest(), us, ls, ds, tail)
  {
    hide Streams, AfterLength, Holds, HeadSym, Uses, LowBits, Stored;
    HeadCode(r.Rest(), us, ls, ds, tail);
    UsedSize(ls, HeadSym(us));
    if filled {
      sym := r.TableDecode(lt, ls, HeadSym(us));
    } else {
      sym := r.HuffDecode(lt, ls, HeadSym(us));
    }
  }

  lemma UsedSize(ls: seq<nat>, s: nat)
    requires Uses(ls, s) && Sizes(ls)
    ensures ls[s] <= 15
  {
  }

  lemma HeadSymKind(us: seq<Token>)
    requires us != [] ==> ValidToken(us[0])
    ensures HeadSym(us) <= 285
    ensures HeadSym(us) < 256 <==> us != [] && us[0].Literal?
    ensures HeadSym(us) < 256 ==> HeadSym(us) == us[0].lit
    ensures HeadSym(us) == 256 <==> us == []
  {
  }

  /** Literals up to the next other symbol: two at a time while input and room last, else one. */
  method Literals(r: BitReader, lt: HuffTable, out: array<byte>, pos0: nat, ghost us0: seq<Token>, ghost final: seq<byte>,
                  ghost ls: seq<nat>, ghost ds: seq<nat>, ghost tail: seq<bool>)
    returns (counter: nat, pos: nat, ghost us: seq<Token>)
    requires r.Valid() && lt.Shaped() && Sizes(ls) && Holds(lt.View(), ls, |ls|, |ls|)
    requires Streams(r.Rest(), us0, ls, ds, tail)
    requires pos0 <= out.Length && |final| <= out.Length && Expands(out[..pos0], us0, final)
    modifies r, out
    ensures r.Valid() && pos <= out.Length && Expands(out[..pos], us, final)
    ensures |us| <= |us0|
    ensures us != [] ==> ValidToken(us[0]) && us[0].Match?
    ensures counter == HeadSym(us)
    ensures us == [] ==> r.Rest() == tail
    ensures us != [] ==> AfterLength(r.Rest(), us, ls, ds, tail)
  {
    hide Streams, AfterLength, Holds, HeadSym, Uses, Expands;
    counter, pos, us := 0, pos0, us0;
    while true
      invariant r.Valid() && lt.Shaped() && Holds(lt.View(), ls, |ls|, |ls|)
      invariant Streams(r.Rest(), us, ls, ds, tail) && |us| <= |us0|
      invariant pos <= out.Length && Expands(out[..pos], us, final)
      decreases |us|
    {
      if |r.input| - r.pos < 4 || out.Length - pos < 2 {
        counter := NextSymbol(r, lt, false, us, ls, ds, tail);
        HeadSymKind(us);
        if counter >= 256 { break; }
        pos, us := PutLiteral(out, pos, counter, us, final);
      } else {
        var stop;
        counter, pos, us, stop := LiteralPair(r, lt, out, pos, us, final, ls, ds, tail);
        if stop { break; }
      }
    }
  }

  /** The fast path: four bytes at once when fewer than 30 bits wait, then two symbols. */
  method LiteralPair(r: BitReader, lt: HuffTable, out: array<byte>, pos0: nat, ghost us0: seq<Token>, ghost final: seq<byte>,
                     ghost ls: seq<nat>, ghost ds: seq<nat>, ghost tail: seq<bool>)
    returns (counter: nat, pos: nat, ghost us: seq<Token>, stop: bool)
    requires r.Valid() && r.pos + 4 <= |r.input| && lt.Shaped() && Sizes(ls) && Holds(lt.View(), ls, |ls|, |ls|)
    requires Streams(r.Rest(), us0, ls, ds, tail)
    requires pos0 + 2 <= out.Length && |final| <= out.Length && Expands(out[..pos0], us0, final)
    modifies r, out
    ensures r.Valid() && pos <= out.Length && Expands(out[..pos], us, final)
    ensures |us| <= |us0|
    ensures !stop ==> |us| < |us0| && Streams(r.Rest(), us, ls, ds, tail)
    ensures stop && us != [] ==> ValidToken(us[0]) && us[0].Match? && AfterLength(r.Rest(), us, ls, ds, tail)
    ensures stop ==> counter == HeadSym(us)
    ensures stop && us == [] ==> r.Rest() == tail
  {
    hide Streams, AfterLength, Holds, HeadSym, Uses, Expands;
    pos, us, stop := pos0, us0, true;
    if r.numBits < 30 { r.FillFour(); }
    counter := NextSymbol(r, lt, true, us, ls, ds, tail);
    HeadSymKind(us);
    if counter / 256 % 2 == 0 {
      var sym2 := NextSymbol(r, lt, true, us[1..], ls, ds, tail);
      HeadSymKind(us[1..]);
      pos, us := PutLiteral(out, pos, counter, us, final);
      counter := sym2;
      if sym2 / 256 % 2 == 0 {
        pos, us := PutLiteral(out, pos, sym2, us, final);
        stop := false;
      }
    }
  }

  method PutLiteral(out: array<byte>, pos: nat, b: byte, ghost us: seq<Token>, ghost final: seq<byte>)
    returns (pos': nat, ghost us': seq<Token>)
    requires us != [] && us[0] == Literal(b) && pos <= out.Length
    requires |final| <= out.Length && Expands(out[..pos], us, final)
    modifies out
    ensures pos' == pos + 1 <= out.Length && us' == us[1..] && Expands(out[..pos'], us', final)
  {
    ExpandsFirst(out[..pos], us, final);
    ghost var before := out[..pos];
    out[pos] := b;
    pos', us' := pos + 1, us[1..];
    assert out[..pos'] == before + [b];
  }

  lemma SameExtra(b: nat, v: nat, n: nat)
    requires b < Pow2(n) && LowBits(b, n) == LowBits(Low(v, n), n)
    ensures b == Low(v, n)
  {
    SameLow(b, Low(v, n), n);
    LowOfSmall(b, n);
    LowOfSmall(Low(v, n), n);
  }

  /** Extra bits, when there are any. */
  method Extra(r: BitReader, n: nat, ghost v: nat, ghost more: seq<bool>) returns (b: nat)
    requires r.Valid() && n <= 13 && r.Rest() == LowBits(Low(v, n), n) + more
    modifies r
    ensures r.Valid() && b == Low(v, n) && r.Rest() == more
  {
    hide LowBits, Pow2, Low;
    b := 0;
    if n > 0 {
      b := r.GetBits(n);
      SameExtra(b, v, n);
    } else {
      NoExtra(v);
    }
  }

  lemma NoExtra(v: nat)
    ensures Low(v, 0) == 0 && LowBits(Low(v, 0), 0) == []
  {
  }

  lemma LengthOf(l: nat)
    requires l < 256
    ensures var k := LenSym(l) - 257;
            0 <= k < |LENGTH_EXTRA| == |LENGTH_BASE| && LENGTH_EXTRA[k] == LenExtra(l) <= 5 && LENGTH_BASE[k] + Low(l, LenExtra(l)) == l + MIN_MATCH
  {
    LengthAgrees(l);
  }

  lemma LengthParts(rest: seq<bool>, us: seq<Token>, ls: seq<nat>, ds: seq<nat>, tail: seq<bool>)
    requires AfterLength(rest, us, ls, ds, tail)
    ensures InMatch(us, ls, ds) && us != [] && us[0].Match? && ValidToken(us[0]) && Uses(ds, DistSym(us[0].dist - 1))
    ensures var l := us[0].len - MIN_MATCH;
            && HeadSym(us) == LenSym(l)
            && rest == LowBits(Low(l, LenExtra(l)), LenExtra(l))
                       + (SymBits(ds, DistSym(us[0].dist - 1)) + AfterDist(us, ls, ds, tail))
  {
    hide LowBits, Low, SymBits, AfterDist, LenSym, DistSym, LenExtra;
  }

  /** The extra bits of the length. */
  method ReadLength(r: BitReader, sym: nat, ghost us: seq<Token>, ghost ls: seq<nat>, ghost ds: seq<nat>,
                    ghost tail: seq<bool>) returns (len: nat)
    requires r.Valid() && AfterLength(r.Rest(), us, ls, ds, tail) && sym == HeadSym(us)
    modifies r
    ensures r.Valid() && AtDist(r.Rest(), us, ls, ds, tail) && len == us[0].len
  {
    hide LowBits, Low, SymBits, AfterDist, LenSym, DistSym, LenExtra, AfterLength, HeadSym, InMatch, LENGTH_BASE, LENGTH_EXTRA, Pow2, StreamBits;
    LengthParts(r.Rest(), us, ls, ds, tail);
    ghost var l := us[0].len - MIN_MATCH;
    LengthOf(l);
    var extra := Extra(r, LENGTH_EXTRA[sym - 257], l, SymBits(ds, DistSym(us[0].dist - 1)) + AfterDist(us, ls, ds, tail));
    len := LENGTH_BASE[sym - 257] + extra;
  }

  lemma DistParts(us: seq<Token>, ls: seq<nat>, ds: seq<nat>, tail: seq<bool>)
    requires InMatch(us, ls, ds)
    ensures us != [] && us[0].Match? && 1 <= us[0].dist <= MAX_DIST && Uses(ds, DistSym(us[0].dist - 1))
    ensures AllHaveCodes(us[1..], ls, ds) && Uses(ls, END_OF_BLOCK)
    ensures var d := us[0].dist - 1;
            AfterDist(us, ls, ds, tail) == LowBits(Low(d, DistExtra(d)), DistExtra(d)) + (StreamBits(us[1..], ls, ds) + tail)
    ensures Streams(StreamBits(us[1..], ls, ds) + tail, us[1..], ls, ds, tail)
  {
    hide LowBits, Low, SymBits, StreamBits, Uses, LenSym, DistSym, DistExtra;
  }

  /** The distance symbol and its extra bits. */
  method ReadDist(r: BitReader, dt: HuffTable, ghost us: seq<Token>, ghost ls: seq<nat>, ghost ds: seq<nat>,
                  ghost tail: seq<bool>) returns (dist: nat)
    requires r.Valid() && dt.Shaped() && Sizes(ds) && Holds(dt.View(), ds, |ds|, |ds|)
    requires AtDist(r.Rest(), us, ls, ds, tail)
    modifies r
    ensures r.Valid() && dist == us[0].dist && Streams(r.Rest(), us[1..], ls, ds, tail)
  {
    hide LowBits, Stored, Low, SymBits, AfterDist, StreamBits, DistSym, DistExtra, InMatch, Streams, Holds, AllHaveCodes;
    DistParts(us, ls, ds, tail);
    ghost var d := us[0].dist - 1;
    DistanceAgrees(d);
    DistHead(r.Rest(), ds, DistSym(d), AfterDist(us, ls, ds, tail));
    var dsym := r.HuffDecode(dt, ds, DistSym(d));
    var extra := Extra(r, DIST_EXTRA[dsym], d, StreamBits(us[1..], ls, ds) + tail);
    dist := DIST_BASE[dsym] + extra;
  }

  lemma DistHead(rest: seq<bool>, ds: seq<nat>, s: nat, dx: seq<bool>)
    requires Uses(ds, s) && Sizes(ds) && rest == SymBits(ds, s) + dx
    ensures ds[s] <= 15 && LowBits(Stored(ds, s), ds[s]) <= rest && rest[ds[s]..] == dx
  {
    hide Stored;
  }

  /** The copy, by whichever path; the distance never reaches back before the output's start. */
  method WriteMatch(out: array<byte>, pos: nat, len: nat, dist: nat, ghost us: seq<Token>, ghost final: seq<byte>)
    returns (pos': nat)
    requires us != [] && us[0] == Match(len, dist) && pos <= out.Length
    requires |final| <= out.Length && Expands(out[..pos], us, final)
    modifies out
    ensures pos' == pos + len <= out.Length && Expands(out[..pos'], us[1..], final)
    ensures dist <= pos
  {
    hide LzCopy, RingCopy, Expands;
    ExpandsFirst(out[..pos], us, final);
    ghost var before := out[..];
    RingIsLz(before, pos, len, dist);
    assert before[..pos] == out[..pos];
    var left := CopyMatch(out, pos, len, dist);
    pos' := pos + len;
    assert out[..pos'] == out[..][..pos'];
  }

  lemma MatchHere(rest: seq<bool>, us: seq<Token>, ls: seq<nat>, ds: seq<nat>, tail: seq<bool>)
    requires AtDist(rest, us, ls, ds, tail)
    ensures us != [] && us[0].Match?
  {
    hide AfterDist, SymBits;
  }

  /** The symbol loop of a block. */
  method InflateSymbols(r: BitReader, lt: HuffTable, dt: HuffTable, out: array<byte>, pos0: nat, ghost ts: seq<Token>,
                        ghost final: seq<byte>, ghost ls: seq<nat>, ghost ds: seq<nat>, ghost tail: seq<bool>)
    returns (pos: nat)
    requires r.Valid() && Tables(lt, ls, dt, ds)
    requires Streams(r.Rest(), ts, ls, ds, tail)
    requires pos0 <= out.Length && |final| <= out.Length && Expands(out[..pos0], ts, final)
    modifies r, out
    ensures r.Valid() && r.Rest() == tail
    ensures pos == |final| && out[..pos] == final
  {
    hide Streams, AfterLength, AtDist, InMatch, Holds, HeadSym, Uses, Expands;
    pos := pos0;
    ghost var us := ts;
    var counter: nat;
    while true
      invariant r.Valid() && Tables(lt, ls, dt, ds)
      invariant Streams(r.Rest(), us, ls, ds, tail)
      invariant pos <= out.Length && Expands(out[..pos], us, final)
      decreases |us|
    {
      counter, pos, us := Literals(r, lt, out, pos, us, final, ls, ds, tail);
      HeadSymKind(us);
      if counter == 256 { break; }
      var len := ReadLength(r, counter, us, ls, ds, tail);
      MatchHere(r.Rest(), us, ls, ds, tail);
      var dist := ReadDist(r, dt, us, ls, ds, tail);
      pos := WriteMatch(out, pos, len, dist, us, final);
      us := us[1..];
    }
    ExpandsNothing(out[..pos], final);
  }

  lemma ExpandsNothing(a: seq<byte>, b: seq<byte>)
    ensures Expands(a, [], b) ==> a == b
  {
  }
}
