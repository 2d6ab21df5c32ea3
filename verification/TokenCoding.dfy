/** From the code buffer to bits: tdefl_compress_lz_codes. */
module TokenCoding {
  import opened Bits
  import opened Canonical
  import opened InflateTable
  import opened EncoderTable
  import opened BitIO
  import opened Tokens
  import opened CodeBuffer

  method PutSymbol(w: BitWriter, codes: seq<nat>, sizes: seq<nat>, s: nat)
    requires w.Valid() && CodeTable(codes, sizes) && Uses(sizes, s)
    modifies w, w.out
    ensures w.Valid() && w.bits == old(w.bits) + SymBits(sizes, s)
  {
    hide BitWriter.Valid;
    Windows.PrefixBound(Code(sizes, s), sizes[s]);
    w.PutBits(codes[s], sizes[s]);
  }

  lemma MatchBits(len: nat, dist: nat, ls: seq<nat>, ds: seq<nat>)
    requires HasCodes(Match(len, dist), ls, ds)
    ensures MIN_MATCH <= len <= MAX_MATCH && 1 <= dist <= MAX_DIST
    ensures Uses(ls, LenSym(len - MIN_MATCH)) && Uses(ds, DistSym(dist - 1))
    ensures TokenBits(Match(len, dist), ls, ds) ==
      SymBits(ls, LenSym(len - MIN_MATCH)) + LowBits(Low(len - MIN_MATCH, LenExtra(len - MIN_MATCH)), LenExtra(len - MIN_MATCH))
      + SymBits(ds, DistSym(dist - 1)) + LowBits(Low(dist - 1, DistExtra(dist - 1)), DistExtra(dist - 1))
  {
    hide LowBits, Low, SymBits, LenSym, LenExtra, DistSym, DistExtra, Uses;
  }

  method PutMatch(w: BitWriter, lc: seq<nat>, ls: seq<nat>, dc: seq<nat>, ds: seq<nat>, l: nat, d: nat)
    requires w.Valid() && CodeTable(lc, ls) && CodeTable(dc, ds)
    requires HasCodes(Match(l + MIN_MATCH, d + 1), ls, ds)
    modifies w, w.out
    ensures w.Valid() && w.bits == old(w.bits) + TokenBits(Match(l + MIN_MATCH, d + 1), ls, ds)
  {
    hide BitWriter.Valid, LowBits, Low, SymBits, CodeTable, LenSym, LenExtra, DistSym, DistExtra, TokenBits, HasCodes, Pow2;
    MatchBits(l + MIN_MATCH, d + 1, ls, ds);
    ghost var b := w.bits;
    PutSymbol(w, lc, ls, LenSym(l));
    w.PutBits(Low(l, LenExtra(l)), LenExtra(l));
    PutSymbol(w, dc, ds, DistSym(d));
    w.PutBits(Low(d, DistExtra(d)), DistExtra(d));
    ghost var p, q, r, t := SymBits(ls, LenSym(l)), LowBits(Low(l, LenExtra(l)), LenExtra(l)),
                            SymBits(ds, DistSym(d)), LowBits(Low(d, DistExtra(d)), DistExtra(d));
    assert (((b + p) + q) + r) + t == b + (p + q + r + t);
  }

  // ---------------------------------------------------------------- reading the code buffer

  /** Where the reader stands: bytes of the open group's tokens, then whole groups. */
  ghost predicate Remaining(bytes: seq<byte>, flags: nat, m: nat, open: seq<Token>, rest: seq<Token>) {
    && AllValid(open) && AllValid(rest) && |open| <= m <= 8
    && (rest != [] ==> |open| == m)
    && bytes == Payloads(open) + Packed(rest)
    && flags == FromBits(Flags(open)) + Pow2(m)
  }

  function GroupSize(ts: seq<Token>): (n: nat)
    ensures n <= |ts| && (ts != [] ==> n >= 1)
  {
    if |ts| <= 8 then |ts| else 8
  }

  /** A sentinel above the flags shows when the group is used up. */
  lemma NextGroup(bytes: seq<byte>, flags: nat, m: nat, open: seq<Token>, rest: seq<Token>)
    requires Remaining(bytes, flags, m, open, rest) && bytes != []
    ensures flags == 1 <==> m == 0
    ensures m > 0 ==> open != []
    ensures m == 0 ==> open == [] && rest != []
    ensures m == 0 ==> Remaining(bytes[1..], bytes[0] as nat + 256, 8, rest[..GroupSize(rest)], rest[GroupSize(rest)..])
  {
    OpenIsNotEmpty(bytes, open, rest);
    if m == 0 {
      var g := rest[..GroupSize(rest)];
      assert open == [] && Flags(open) == [] && Payloads(open) == [];
      assert bytes == Packed(rest);
      assert rest != [];
      Pow2Values();
      GroupFirst(rest);
    }
  }

  lemma GroupFirst(rest: seq<Token>)
    requires AllValid(rest) && rest != []
    ensures var k := GroupSize(rest); Packed(rest) == [FromBits(Flags(rest[..k]))] + (Payloads(rest[..k]) + Packed(rest[k..]))
  {
    if |rest| <= 8 { assert rest[..|rest|] == rest; }
    FlagsFitByte(rest[..GroupSize(rest)]);
  }

  lemma NextFlag(flags: nat, m: nat, open: seq<Token>)
    requires flags == FromBits(Flags(open)) + Pow2(m) && m > 0 && open != []
    ensures flags % 2 == (if open[0].Match? then 1 else 0)
    ensures flags / 2 == FromBits(Flags(open[1..])) + Pow2(m - 1)
  {
    assert Flags(open)[1..] == Flags(open[1..]);
    var f, g, p := FromBits(Flags(open)), FromBits(Flags(open[1..])), Pow2(m - 1);
    assert f == (if open[0].Match? then 1 else 0) + 2 * g;
    assert Pow2(m) == 2 * p;
    hide Flags, FromBits, Pow2;
  }

  lemma NextToken(bytes: seq<byte>, flags: nat, m: nat, open: seq<Token>, rest: seq<Token>)
    requires Remaining(bytes, flags, m, open, rest) && bytes != [] && m > 0
    ensures open != [] && ValidToken(open[0])
    ensures flags % 2 == (if open[0].Match? then 1 else 0)
    ensures |Payload(open[0])| <= |bytes| && bytes[..|Payload(open[0])|] == Payload(open[0])
    ensures Remaining(bytes[|Payload(open[0])|..], flags / 2, m - 1, open[1..], rest)
  {
    hide Flags, FromBits, Pow2, Packed, Payloads, Payload, ValidToken;
    OpenIsNotEmpty(bytes, open, rest);
    NextFlag(flags, m, open);
    PayloadsFirst(open);
    HeadOff(bytes, Payload(open[0]), Payloads(open[1..]), Packed(rest));
  }

  lemma HeadOff(bytes: seq<byte>, p: seq<byte>, q: seq<byte>, r: seq<byte>)
    requires bytes == (p + q) + r
    ensures |p| <= |bytes| && bytes[..|p|] == p && bytes[|p|..] == q + r
  {
  }

  lemma PayloadsFirst(ts: seq<Token>)
    requires AllValid(ts) && ts != []
    ensures Payloads(ts) == Payload(ts[0]) + Payloads(ts[1..])
  {
  }

  lemma OpenIsNotEmpty(bytes: seq<byte>, open: seq<Token>, rest: seq<Token>)
    requires AllValid(open) && AllValid(rest) && bytes == Payloads(open) + Packed(rest) && bytes != []
    ensures open != [] || rest != []
  {
  }

  // ---------------------------------------------------------------- writing the bits

  /** tdefl_compress_lz_codes: walks the code buffer and writes the block's bits. */
  method CompressLzCodes(bytes: seq<byte>, lc: seq<nat>, ls: seq<nat>, dc: seq<nat>, ds: seq<nat>, w: BitWriter,
                         ghost ts: seq<Token>) returns (ok: bool)
    requires w.Valid() && CodeTable(lc, ls) && CodeTable(dc, ds)
    requires AllValid(ts) && bytes == Packed(ts) && AllHaveCodes(ts, ls, ds) && Uses(ls, END_OF_BLOCK)
    modifies w, w.out
    ensures w.Valid() && w.bits == old(w.bits) + TokensBits(ts, ls, ds) + SymBits(ls, END_OF_BLOCK)
    ensures ok <==> w.pos < w.limit
  {
    hide BitWriter.Valid, Remaining, SymBits, CodeTable, TokenBits, TokensBits, HasCodes, Uses, ValidToken, Packed;
    var p, flags: nat := 0, 1;
    ghost var k: nat, m: nat, open, rest := 0, 0, [], ts;
    ghost var start := w.bits;
    StartRemaining(bytes, ts);
    NoBits(ls, ds);
    assert ts[..0] == [] && bytes[0..] == bytes;
    while p < |bytes|
      invariant p <= |bytes| && k <= |ts| && ts[k..] == open + rest
      invariant Remaining(bytes[p..], flags, m, open, rest)
      invariant w.Valid() && w.bits == start + TokensBits(ts[..k], ls, ds)
      decreases |bytes| - p
    {
      p, flags, m, open, rest := LoadGroup(bytes, p, flags, m, open, rest);
      NextToken(bytes[p..], flags, m, open, rest);
      ghost var t, size := open[0], |Payload(open[0])|;
      assert ts[k] == t;
      assert bytes[p..][size..] == bytes[p + size..];
      p := PutToken(bytes, p, flags % 2 == 1, lc, ls, dc, ds, w, t);
      TokensBitsNext(ts, k, ls, ds);
      assert (start + TokensBits(ts[..k], ls, ds)) + TokenBits(t, ls, ds) == start + TokensBits(ts[..k + 1], ls, ds);
      flags := flags / 2;
      m, open, k := m - 1, open[1..], k + 1;
    }
    NothingLeft(bytes[p..], flags, m, open, rest);
    assert ts[..k] == ts;
    PutSymbol(w, lc, ls, END_OF_BLOCK);
    ok := w.pos < w.limit;
  }

  /** Reads the next flag byte, under a sentinel, when the last group is used up. */
  method LoadGroup(bytes: seq<byte>, p0: nat, flags0: nat, ghost m0: nat, ghost open0: seq<Token>, ghost rest0: seq<Token>)
    returns (p: nat, flags: nat, ghost m: nat, ghost open: seq<Token>, ghost rest: seq<Token>)
    requires p0 < |bytes| && Remaining(bytes[p0..], flags0, m0, open0, rest0)
    ensures p0 <= p < |bytes| && Remaining(bytes[p..], flags, m, open, rest)
    ensures m > 0 && open != [] && open + rest == open0 + rest0
  {
    hide Remaining;
    NextGroup(bytes[p0..], flags0, m0, open0, rest0);
    p, flags, m, open, rest := p0, flags0, m0, open0, rest0;
    if flags == 1 {
      flags := bytes[p] as nat + 256;
      assert bytes[p..][1..] == bytes[p + 1..];
      p := p + 1;
      m, open, rest := 8, rest[..GroupSize(rest)], rest[GroupSize(rest)..];
    }
    StillBytes(bytes[p..], flags, m, open, rest);
  }

  /** Codes one token from its bytes in the buffer. */
  method PutToken(bytes: seq<byte>, p0: nat, isMatch: bool, lc: seq<nat>, ls: seq<nat>, dc: seq<nat>, ds: seq<nat>,
                  w: BitWriter, ghost t: Token) returns (p: nat)
    requires w.Valid() && CodeTable(lc, ls) && CodeTable(dc, ds)
    requires HasCodes(t, ls, ds) && isMatch == t.Match? && p0 <= |bytes| && |Payload(t)| <= |bytes[p0..]|
    requires bytes[p0..][..|Payload(t)|] == Payload(t)
    modifies w, w.out
    ensures w.Valid() && w.bits == old(w.bits) + TokenBits(t, ls, ds)
    ensures p == p0 + |Payload(t)|
  {
    hide BitWriter.Valid, SymBits, CodeTable, LowBits, Low, LenSym, LenExtra, DistSym, DistExtra;
    ghost var head := bytes[p0..][..|Payload(t)|];
    p := p0;
    if isMatch {
      var l, d := bytes[p], bytes[p + 1] as nat + 256 * bytes[p + 2] as nat;
      assert l == head[0] && bytes[p + 1] == head[1] && bytes[p + 2] == head[2];
      assert l == t.len - MIN_MATCH && d == t.dist - 1;
      PutMatch(w, lc, ls, dc, ds, l, d);
      p := p + 3;
    } else {
      assert bytes[p] == head[0] == t.lit;
      PutSymbol(w, lc, ls, bytes[p]);
      p := p + 1;
    }
  }

  lemma StartRemaining(bytes: seq<byte>, ts: seq<Token>)
    requires AllValid(ts) && bytes == Packed(ts)
    ensures Remaining(bytes, 1, 0, [], ts)
  {
    assert Flags([]) == [];
    assert Payloads([]) + Packed(ts) == Packed(ts);
  }

  lemma NoBits(ls: seq<nat>, ds: seq<nat>)
    ensures TokensBits([], ls, ds) == []
  {
  }

  lemma StillBytes(bytes: seq<byte>, flags: nat, m: nat, open: seq<Token>, rest: seq<Token>)
    requires Remaining(bytes, flags, m, open, rest) && (open != [] || rest != [])
    ensures bytes != []
  {
  }

  lemma NothingLeft(bytes: seq<byte>, flags: nat, m: nat, open: seq<Token>, rest: seq<Token>)
    requires Remaining(bytes, flags, m, open, rest) && bytes == []
    ensures open == [] && rest == []
  {
  }

  lemma TokensBitsNext(ts: seq<Token>, k: nat, ls: seq<nat>, ds: seq<nat>)
    requires AllHaveCodes(ts, ls, ds) && k < |ts|
    ensures TokensBits(ts[..k + 1], ls, ds) == TokensBits(ts[..k], ls, ds) + TokenBits(ts[k], ls, ds)
  {
    var us := ts[..k + 1];
    TokensBitsSplit(us, k, ls, ds);
    assert us[..k] == ts[..k] && us[k..] == [ts[k]];
    assert TokensBits([ts[k]][1..], ls, ds) == [];
  }
}
