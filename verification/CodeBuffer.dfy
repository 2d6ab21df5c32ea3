/** The compressor's code buffer: tokens in groups of eight behind a byte of flags, and the
    symbol counts kept beside it (tdefl_record_literal, tdefl_record_match). */
module CodeBuffer {
  import opened Bits
  import opened Symbols
  import opened Tokens

  const CODE_BUF_SIZE := 65536

  function Payload(t: Token): (r: seq<byte>)
    requires ValidToken(t)
    ensures 1 <= |r| <= 3
  {
    match t
    case Literal(lit) => [lit]
    case Match(len, dist) => [len - MIN_MATCH, (dist - 1) % 256, (dist - 1) / 256]
  }

  ghost predicate AllValid(ts: seq<Token>) {
    forall i :: 0 <= i < |ts| ==> ValidToken(ts[i])
  }

  function Payloads(ts: seq<Token>): (r: seq<byte>)
    requires AllValid(ts)
    ensures |ts| <= |r| <= 3 * |ts|
  {
    if ts == [] then [] else Payload(ts[0]) + Payloads(ts[1..])
  }

  function Flags(ts: seq<Token>): (r: seq<bool>)
    ensures |r| == |ts|
  {
    seq(|ts|, i requires 0 <= i < |ts| => ts[i].Match?)
  }

  /** Up to eight tokens: their flags, first token lowest, then their bytes. */
  function Group(ts: seq<Token>): (r: seq<byte>)
    requires AllValid(ts) && |ts| <= 8
  {
    FlagsFitByte(ts);
    [FromBits(Flags(ts))] + Payloads(ts)
  }

  lemma FlagsFitByte(ts: seq<Token>)
    requires |ts| <= 8
    ensures FromBits(Flags(ts)) < 256
  {
    Pow2Mono(|ts|, 8);
    Pow2Values();
  }

  /** The code buffer of a list of tokens. */
  function Packed(ts: seq<Token>): (r: seq<byte>)
    requires AllValid(ts)
  {
    if ts == [] then [] else if |ts| <= 8 then Group(ts) else Group(ts[..8]) + Packed(ts[8..])
  }

  lemma {:induction false} PayloadsAppend(a: seq<Token>, b: seq<Token>)
    requires AllValid(a) && AllValid(b)
    ensures Payloads(a + b) == Payloads(a) + Payloads(b)
  {
    if a == [] {
      assert a + b == b;
    } else {
      assert (a + b)[1..] == a[1..] + b;
      PayloadsAppend(a[1..], b);
    }
  }

  lemma PayloadsOne(t: Token)
    requires ValidToken(t)
    ensures Payloads([t]) == Payload(t)
  {
    assert Payloads([t][1..]) == [];
  }

  lemma {:induction false} PackedAppend(a: seq<Token>, g: seq<Token>)
    requires AllValid(a) && AllValid(g) && |a| % 8 == 0 && |g| <= 8 && g != []
    ensures Packed(a + g) == Packed(a) + Group(g)
  {
    if a == [] {
      assert a + g == g;
    } else {
      assert (a + g)[..8] == a[..8] && (a + g)[8..] == a[8..] + g;
      PackedAppend(a[8..], g);
      if |a| == 8 { assert a[..8] == a && a[8..] == []; }
    }
  }

  lemma {:induction false} FromBitsAppend(s: seq<bool>, b: bool)
    ensures FromBits(s + [b]) == FromBits(s) + (if b then Pow2(|s|) else 0)
  {
    if s != [] {
      assert (s + [b])[1..] == s[1..] + [b];
      FromBitsAppend(s[1..], b);
    } else {
      assert (s + [b])[1..] == [];
    }
  }

  /** Shifting the flag byte down and setting its top bit appends a flag; the bits below
      the flags so far may be anything. */
  lemma FlagStep(f: byte, left: nat, b: bool)
    requires 1 <= left <= 8
    ensures f / 2 + (if b then 128 else 0) < 256
    ensures Shr(f / 2 + (if b then 128 else 0), left - 1) == Shr(f, left) + (if b then Pow2(8 - left) else 0)
  {
    assert Shr(f, left) == Shr(f / 2, left - 1);
    hide Shr, Pow2;
    if b {
      Pow2Add(left - 1, 8 - left);
      Pow2Values();
      ShrAdd(f / 2, left - 1, Pow2(8 - left));
      assert Pow2(8 - left) * Pow2(left - 1) == 128;
    }
  }

  lemma {:induction false} ShrAdd(v: nat, n: nat, x: nat)
    ensures Shr(v + x * Pow2(n), n) == Shr(v, n) + x
  {
    if n > 0 {
      var p := Pow2(n - 1);
      MulDouble(p, x);
      HalveSum(v, x * p);
      ShrAdd(v / 2, n - 1, x);
    } else {
      assert x * Pow2(0) == x;
    }
  }

  // ---------------------------------------------------------------- symbol counts

  /** The literal or length symbol of a token. */
  function LitSym(t: Token): (s: nat)
    requires ValidToken(t)
    ensures s <= 285
  {
    if t.Literal? then t.lit else LenSym(t.len - MIN_MATCH)
  }

  function LitUses(ts: seq<Token>, s: nat): (n: nat)
    requires AllValid(ts)
    ensures n <= |ts|
  {
    if ts == [] then 0 else LitUses(ts[..|ts| - 1], s) + if LitSym(ts[|ts| - 1]) == s then 1 else 0
  }

  function DistUses(ts: seq<Token>, s: nat): (n: nat)
    requires AllValid(ts)
    ensures n <= |ts|
  {
    if ts == [] then 0 else
      var t := ts[|ts| - 1];
      DistUses(ts[..|ts| - 1], s) + if t.Match? && DistSym(t.dist - 1) == s then 1 else 0
  }

  /** The number of bytes tokens stand for. */
  function TotalLength(ts: seq<Token>): (n: nat) {
    if ts == [] then 0 else TotalLength(ts[..|ts| - 1]) + if ts[|ts| - 1].Match? then ts[|ts| - 1].len else 1
  }

  // ---------------------------------------------------------------- the layout, as tokens arrive

  /** Whole groups up to flagsAt, then the open group of 8 - left tokens, whose flags are the
      top bits of its flag byte. */
  ghost predicate Layout(buf: seq<byte>, next: nat, flagsAt: nat, left: nat, toks: seq<Token>) {
    && left <= 8 && AllValid(toks) && 8 - left <= |toks| && (|toks| - (8 - left)) % 8 == 0
    && flagsAt < next <= |buf|
    && var k := |toks| - (8 - left);
       && buf[..flagsAt] == Packed(toks[..k])
       && buf[flagsAt + 1..next] == Payloads(toks[k..])
       && Shr(buf[flagsAt], left) == FromBits(Flags(toks[k..]))
  }

  lemma LayoutStart(buf: seq<byte>)
    requires |buf| >= 1
    ensures Layout(buf, 1, 0, 8, [])
  {
    Pow2Values();
    LowOfSmall(buf[0], 8);
  }

  lemma FlagsAppend(ts: seq<Token>, t: Token)
    ensures Flags(ts + [t]) == Flags(ts) + [t.Match?]
  {
  }

  /** One more token in the open group. */
  lemma LayoutRecord(buf: seq<byte>, buf': seq<byte>, next: nat, flagsAt: nat, left: nat, toks: seq<Token>, t: Token)
    requires Layout(buf, next, flagsAt, left, toks) && left >= 1 && ValidToken(t)
    requires |buf'| == |buf| && next + |Payload(t)| <= |buf|
    requires buf'[..flagsAt] == buf[..flagsAt] && buf'[flagsAt + 1..next] == buf[flagsAt + 1..next]
    requires buf'[next..next + |Payload(t)|] == Payload(t)
    requires buf'[flagsAt] == buf[flagsAt] / 2 + if t.Match? then 128 else 0
    ensures Layout(buf', next + |Payload(t)|, flagsAt, left - 1, toks + [t])
  {
    hide Packed, Payloads, Payload, Flags, ValidToken, FromBits, Shr;
    var k := |toks| - (8 - left);
    var open, next' := toks[k..], next + |Payload(t)|;
    assert (toks + [t])[..k] == toks[..k] && (toks + [t])[k..] == open + [t];
    PayloadsAppend(open, [t]);
    PayloadsOne(t);
    assert buf'[flagsAt + 1..next'] == buf'[flagsAt + 1..next] + buf'[next..next'];
    FlagStep(buf[flagsAt], left, t.Match?);
    FlagsAppend(open, t);
    FromBitsAppend(Flags(open), t.Match?);
  }

  lemma NoTokens()
    ensures Packed([]) == [] && Payloads([]) == [] && FromBits(Flags([])) == 0
  {
  }

  /** The bytes of the open group are the group, once its flags sit at the bottom. */
  lemma OpenIsGroup(bytes: seq<byte>, from: nat, to: nat, g: seq<Token>)
    requires AllValid(g) && |g| <= 8 && from < to <= |bytes|
    requires bytes[from] == FromBits(Flags(g)) && bytes[from + 1..to] == Payloads(g)
    ensures bytes[..to] == bytes[..from] + Group(g)
  {
    hide FromBits, Flags, Payloads;
  }

  /** A full group is closed by leaving room for the next flag byte. */
  lemma LayoutClose(buf: seq<byte>, next: nat, flagsAt: nat, toks: seq<Token>)
    requires Layout(buf, next, flagsAt, 0, toks) && next < |buf|
    ensures Layout(buf, next + 1, next, 8, toks)
  {
    hide Packed, Payloads, Flags, FromBits, Group, ValidToken;
    var k := |toks| - 8;
    var g := toks[k..];
    assert toks == toks[..k] + g && toks[..|toks|] == toks && toks[|toks|..] == [];
    assert Shr(buf[flagsAt], 0) == buf[flagsAt];
    hide Shr;
    PackedAppend(toks[..k], g);
    OpenIsGroup(buf, flagsAt, next, g);
    NoTokens();
    LowOfByte(buf[next]);
    assert buf[next + 1..next + 1] == [];
  }

  lemma LowOfByte(b: byte)
    ensures Shr(b, 8) == 0
  {
    Pow2Values();
    LowOfSmall(b, 8);
  }

  /** What the flush does to the last group: shift its flags down, or drop an unused flag byte. */
  lemma LayoutFinish(buf: seq<byte>, buf': seq<byte>, next: nat, flagsAt: nat, left: nat, toks: seq<Token>)
    requires Layout(buf, next, flagsAt, left, toks) && 1 <= left
    requires |buf'| == |buf| && buf'[..flagsAt] == buf[..flagsAt] && buf'[flagsAt + 1..] == buf[flagsAt + 1..]
    requires buf'[flagsAt] == Shr(buf[flagsAt], left)
    ensures buf'[..if left == 8 then next - 1 else next] == Packed(toks)
  {
    hide Packed, Payloads, Flags, FromBits, Group, ValidToken, Shr;
    var k := |toks| - (8 - left);
    var g := toks[k..];
    assert toks == toks[..k] + g;
    NoTokens();
    if left == 8 {
      assert g == [] && toks[..k] == toks;
      assert next == flagsAt + 1;
    } else {
      PackedAppend(toks[..k], g);
      assert buf'[flagsAt + 1..next] == buf[flagsAt + 1..][..next - flagsAt - 1] == buf[flagsAt + 1..next];
      OpenIsGroup(buf', flagsAt, next, g);
    }
  }

  // ---------------------------------------------------------------- literals alone

  ghost predicate AllLiterals(ts: seq<Token>) {
    forall i :: 0 <= i < |ts| ==> ts[i].Literal?
  }

  lemma {:induction false} LiteralPayloads(ts: seq<Token>)
    requires AllValid(ts) && AllLiterals(ts)
    ensures |Payloads(ts)| == |ts|
  {
    if ts != [] { LiteralPayloads(ts[1..]); }
  }

  lemma {:induction false} LiteralGroups(ts: seq<Token>)
    requires AllValid(ts) && AllLiterals(ts) && |ts| % 8 == 0
    ensures |Packed(ts)| == |ts| + |ts| / 8
  {
    hide Payloads, Flags, FromBits, ValidToken;
    if ts != [] {
      LiteralPayloads(ts[..8]);
      LiteralGroups(ts[8..]);
      if |ts| == 8 { assert ts[..8] == ts && ts[8..] == []; }
    }
  }

  lemma {:induction false} LiteralTotal(ts: seq<Token>)
    requires AllLiterals(ts)
    ensures TotalLength(ts) == |ts|
  {
    if ts != [] { LiteralTotal(ts[..|ts| - 1]); }
  }

  /** Literals take nine eighths of a byte each. */
  lemma LiteralLayout(buf: seq<byte>, next: nat, flagsAt: nat, left: nat, toks: seq<Token>)
    requires Layout(buf, next, flagsAt, left, toks) && 1 <= left && AllLiterals(toks)
    ensures next == |toks| + |toks| / 8 + 1
  {
    hide Payloads, Flags, FromBits, ValidToken, Packed, Shr;
    var k := |toks| - (8 - left);
    LiteralPayloads(toks[k..]);
    LiteralGroups(toks[..k]);
  }

  class LzBuffer {
    const buf: array<byte>
    var next: nat        // m_pLZ_code_buf
    var flagsAt: nat     // m_pLZ_flags
    var left: nat        // m_num_flags_left
    var total: nat       // m_total_lz_bytes
    const litCount: array<u16>
    const distCount: array<u16>
    ghost var toks: seq<Token>  // the tokens recorded since the last reset

    constructor ()
      ensures Valid() && toks == [] && fresh(buf) && fresh(litCount) && fresh(distCount) && next == 1
    {
      buf := new byte[CODE_BUF_SIZE];
      litCount := new u16[288](_ => 0);
      distCount := new u16[32](_ => 0);
      next, flagsAt, left, total, toks := 1, 0, 8, 0, [];
      new;
      LayoutStart(buf[..]);
    }

    ghost predicate Shaped() {
      buf.Length == CODE_BUF_SIZE && litCount.Length == 288 && distCount.Length == 32 && litCount != distCount
    }

    ghost predicate Counted()
      reads this, litCount, distCount
      requires Shaped() && AllValid(toks)
    {
      && (forall s :: 0 <= s < 288 ==> litCount[s] == LitUses(toks, s))
      && (forall s :: 0 <= s < 32 ==> distCount[s] == DistUses(toks, s))
    }

    ghost predicate Valid()
      reads this, buf, litCount, distCount
    {
      && Shaped() && Layout(buf[..], next, flagsAt, left, toks) && 1 <= left
      && Counted() && |toks| < next && total == TotalLength(toks)
    }

    /** Appends the flag of the token just written, closing the group when it is full. */
    method PushFlag(isMatch: bool, ghost t: Token, ghost before: seq<byte>, ghost size: nat)
      requires Shaped() && ValidToken(t) && isMatch == t.Match? && size == |Payload(t)| <= next
      requires Layout(before, next - size, flagsAt, left, toks) && 1 <= left && next < buf.Length
      requires |before| == buf.Length && buf[..next - size] == before[..next - size]
      requires buf[next - size..next] == Payload(t)
      modifies this`next, this`flagsAt, this`left, this`toks, buf
      ensures Layout(buf[..], next, flagsAt, left, toks) && 1 <= left
      ensures toks == old(toks) + [t] && old(next) <= next <= old(next) + 1
    {
      hide Layout, Payload, ValidToken;
      ghost var start := next - size;
      LayoutBounds(before, start, flagsAt, left, toks);
      FlagStep(buf[flagsAt], left, isMatch);
      buf[flagsAt] := buf[flagsAt] / 2 + if isMatch then 128 else 0;
      LayoutRecord(before, buf[..], start, flagsAt, left, toks, t);
      toks := toks + [t];
      left := left - 1;
      if left == 0 {
        LayoutClose(buf[..], next, flagsAt, toks);
        left, flagsAt, next := 8, next, next + 1;
      }
    }

    /** Counts the symbols of the token just recorded; the counts cannot wrap, since the
        buffer has room for fewer than 65536 tokens. */
    method CountSymbols(ghost before: seq<Token>, t: Token)
      requires Shaped() && AllValid(before) && ValidToken(t) && |before| + 1 < CODE_BUF_SIZE
      requires forall s :: 0 <= s < 288 ==> litCount[s] == LitUses(before, s)
      requires forall s :: 0 <= s < 32 ==> distCount[s] == DistUses(before, s)
      modifies litCount, distCount
      ensures forall s :: 0 <= s < 288 ==> litCount[s] == LitUses(before + [t], s)
      ensures forall s :: 0 <= s < 32 ==> distCount[s] == DistUses(before + [t], s)
    {
      UsesAppend(before, t);
      hide LitUses, DistUses, ValidToken, LenSym, DistSym;
      if t.Match? {
        var d := DistSym(t.dist - 1);
        distCount[d] := distCount[d] + 1;
      }
      var l := LitSym(t);
      litCount[l] := litCount[l] + 1;
    }

    /** tdefl_record_literal. */
    method RecordLiteral(lit: byte)
      requires Valid() && next + 2 <= CODE_BUF_SIZE
      modifies this, buf, litCount, distCount
      ensures Valid() && toks == old(toks) + [Literal(lit)]
      ensures old(next) < next <= old(next) + 2
    {
      hide Layout, LitUses, DistUses, Payload, TotalLength, AllValid, ValidToken;
      var t := Literal(lit);
      ghost var before, toks0 := buf[..], toks;
      TotalLengthAppend(toks, t);
      LayoutBounds(before, next, flagsAt, left, toks);
      LiteralPayload(lit);
      total := total + 1;
      buf[next] := lit;
      next := next + 1;
      assert buf[next - 1..next] == Payload(t);
      PushFlag(false, t, before, 1);
      CountSymbols(toks0, t);
    }

    /** The three bytes of a match. */
    method WriteMatch(len: nat, dist: nat)
      requires Shaped() && next + 3 <= CODE_BUF_SIZE && MIN_MATCH <= len <= MAX_MATCH && 1 <= dist <= MAX_DIST
      modifies this`next, buf
      ensures next == old(next) + 3
      ensures buf[..next - 3] == old(buf[..next])
      ensures buf[next - 3..next] == [len - MIN_MATCH, (dist - 1) % 256, (dist - 1) / 256]
    {
      var d := dist - 1;
      buf[next] := len - MIN_MATCH;
      buf[next + 1] := d % 256;
      buf[next + 2] := d / 256;
      next := next + 3;
    }

    /** tdefl_record_match. */
    method RecordMatch(len: nat, dist: nat)
      requires Valid() && next + 4 <= CODE_BUF_SIZE
      requires MIN_MATCH <= len <= MAX_MATCH && 1 <= dist <= MAX_DIST
      modifies this, buf, litCount, distCount
      ensures Valid() && toks == old(toks) + [Match(len, dist)]
      ensures old(next) < next <= old(next) + 4
    {
      hide Layout, LitUses, DistUses, Payload, TotalLength, AllValid, ValidToken;
      var t := Match(len, dist);
      ghost var before, toks0 := buf[..], toks;
      TotalLengthAppend(toks, t);
      LayoutBounds(before, next, flagsAt, left, toks);
      MatchPayload(len, dist);
      total := total + len;
      WriteMatch(len, dist);
      PushFlag(true, t, before, 3);
      CountSymbols(toks0, t);
    }

    /** What tdefl_flush_block does to the buffer before it is coded. */
    method Finish()
      requires Valid()
      modifies this`next, buf
      ensures next <= buf.Length && AllValid(toks)
      ensures buf[..next] == Packed(toks)
    {
      hide Packed;
      ghost var before := buf[..];
      buf[flagsAt] := Shr(buf[flagsAt], left);
      LayoutFinish(before, buf[..], next, flagsAt, left, toks);
      if left == 8 { next := next - 1; }
      assert buf[..][..next] == buf[..next];
    }

    /** What tdefl_flush_block does to it afterwards. */
    method Reset()
      requires Shaped()
      modifies this, litCount, distCount
      ensures Valid() && toks == [] && next == 1
    {
      forall s | 0 <= s < 288 { litCount[s] := 0; }
      forall s | 0 <= s < 32 { distCount[s] := 0; }
      next, flagsAt, left, total, toks := 1, 0, 8, 0, [];
      LayoutStart(buf[..]);
    }
  }

  lemma LiteralPayload(lit: byte)
    ensures Payload(Literal(lit)) == [lit] && ValidToken(Literal(lit))
  {
  }

  lemma MatchPayload(len: nat, dist: nat)
    requires MIN_MATCH <= len <= MAX_MATCH && 1 <= dist <= MAX_DIST
    ensures ValidToken(Match(len, dist))
    ensures Payload(Match(len, dist)) == [len - MIN_MATCH, (dist - 1) % 256, (dist - 1) / 256]
  {
  }

  lemma TotalLengthAppend(ts: seq<Token>, t: Token)
    ensures TotalLength(ts + [t]) == TotalLength(ts) + if t.Match? then t.len else 1
  {
    assert (ts + [t])[..|ts|] == ts;
  }

  lemma UsesAppend(ts: seq<Token>, t: Token)
    requires AllValid(ts) && ValidToken(t)
    ensures AllValid(ts + [t])
    ensures forall s :: LitUses(ts + [t], s) == LitUses(ts, s) + if LitSym(t) == s then 1 else 0
    ensures forall s ::
      DistUses(ts + [t], s) == DistUses(ts, s) + if t.Match? && DistSym(t.dist - 1) == s then 1 else 0
  {
    assert (ts + [t])[..|ts|] == ts;
  }

  lemma LayoutBounds(buf: seq<byte>, next: nat, flagsAt: nat, left: nat, toks: seq<Token>)
    requires Layout(buf, next, flagsAt, left, toks)
    ensures left <= 8 && flagsAt < next <= |buf| && AllValid(toks)
  {
  }
}
