/** The message that carries a piece of a bundle: how much the sender takes, the bit-field header it
    packs, and what the parser makes of it (bundle_piece.c). */
module PieceMessage {
  import opened Bits

  const MB := 0x10_0000          // offsets below this use the short header
  const MAX_PIECE := 0x7ff       // 11 bits of length

  // ---------------------------------------------------------------- how much is sent

  datatype Plan = GiveUp | Nothing | Send(bytes: nat, more: bool)

  /** Bytes that may be sent, of the room left in the packet. */
  function MaxBytes(start: nat, room: int): (m: int) {
    if start >= MB then (if room - 23 < 0 then 0 else room - 23) else room - 21
  }

  /** The size decisions of sync_append_some_bundle_bytes; more is not_end_of_item. */
  function PlanPiece(start: nat, len: nat, room: int, bitmap: bool): (r: Plan) {
    var max, available := MaxBytes(start, room), len - start;
    if max < 1 then GiveUp
    else
      var more := available >= max;
      var take := if !more then available else if bitmap then max - (start + max) % 64 else max;
      if more && take < 1 then Nothing
      else if take > MAX_PIECE then Send(MAX_PIECE, more)
      else if take < 0 then GiveUp
      else Send(take, more)
  }

  /** What is sent is there to be sent. */
  lemma PlanFits(start: nat, len: nat, room: int, bitmap: bool)
    requires PlanPiece(start, len, room, bitmap).Send?
    ensures var r := PlanPiece(start, len, room, bitmap);
            start + r.bytes <= len && r.bytes <= MAX_PIECE && 1 <= MaxBytes(start, room) && r.bytes <= MaxBytes(start, room)
  {
  }

  /** Nothing can be sent at all if there is no room for a byte, or the stream has already ended; nothing is sent for
      now if there is room, more is left than that, and no 64-byte unit would end in it. */
  lemma NotSentIff(start: nat, len: nat, room: int, bitmap: bool)
    ensures var r, max := PlanPiece(start, len, room, bitmap), MaxBytes(start, room);
            && (r.GiveUp? <==> max < 1 || len < start)
            && (r.Nothing? <==> bitmap && 1 <= max <= len - start && start / 64 == (start + max) / 64)
  {
    var max := MaxBytes(start, room);
    if max >= 1 {
      var q, r := start / 64, start % 64;
      assert start + max == 64 * q + (r + max);
      UnitsPassed(q, r, max);
    }
  }

  lemma UnitsPassed(q: nat, r: nat, max: nat)
    requires r < 64
    ensures (64 * q + r + max) / 64 == q + (r + max) / 64 && (64 * q + r + max) % 64 == (r + max) % 64
    ensures r + max < 64 <==> (r + max) / 64 == 0
  {
  }

  /** A piece marked as the end reaches the end, unless more than 11 bits of length were left and
      would have fitted the packet. */
  lemma EndIsRight(start: nat, len: nat, room: int, bitmap: bool)
    requires PlanPiece(start, len, room, bitmap).Send?
    ensures var r := PlanPiece(start, len, room, bitmap);
            (!r.more ==> start + r.bytes == len) <==> !(2047 < len - start < MaxBytes(start, room))
  {
  }

  /** So in packets of at most 255 bytes a piece marked as the end is the end. */
  lemma EndIsReached(start: nat, len: nat, room: int, bitmap: bool)
    requires room <= 255 && PlanPiece(start, len, room, bitmap).Send? && !PlanPiece(start, len, room, bitmap).more
    ensures start + PlanPiece(start, len, room, bitmap).bytes == len
  {
    EndIsRight(start, len, room, bitmap);
  }

  /** A piece that reaches the end is marked so, unless what was left just filled the packet. */
  lemma EndIsMarked(start: nat, len: nat, room: int, bitmap: bool)
    requires PlanPiece(start, len, room, bitmap).Send?
    ensures var r, max := PlanPiece(start, len, room, bitmap), MaxBytes(start, room);
            (start + r.bytes == len ==> !r.more) <==> !(len - start == max <= 2047 && (!bitmap || len % 64 == 0))
  {
    var r, max := PlanPiece(start, len, room, bitmap), MaxBytes(start, room);
    if r.more && bitmap && r.bytes < MAX_PIECE && start + r.bytes == len {
      assert (start + max) % 64 == 0;
    }
  }

  /** A piece that is not the last ends where a 64-byte unit does. */
  lemma EndsOnUnit(start: nat, len: nat, room: int)
    requires PlanPiece(start, len, room, true).Send? && PlanPiece(start, len, room, true).more
    requires MaxBytes(start, room) <= MAX_PIECE
    ensures (start + PlanPiece(start, len, room, true).bytes) % 64 == 0
  {
    var m := start + MaxBytes(start, room);
    assert m - m % 64 == 64 * (m / 64);
  }

  /** Bytes that a piece takes up in its packet. */
  function MessageSize(start: nat, x: Plan): (n: nat) {
    if x.Send? then (if start >= MB then 25 else 23) + x.bytes else 0
  }

  /** The header is two bytes longer than what is reserved for it, so a message outgrows its packet
      exactly if the piece leaves less than two of the bytes it might have taken. */
  lemma OutgrowsIff(start: nat, len: nat, room: int, bitmap: bool)
    requires room <= 255 && PlanPiece(start, len, room, bitmap).Send?
    ensures var max := MaxBytes(start, room);
            MessageSize(start, PlanPiece(start, len, room, bitmap)) > room
            <==> len - start == max - 1 || (len - start >= max && (!bitmap || (start + max) % 64 <= 1))
    ensures MessageSize(start, PlanPiece(start, len, room, bitmap)) <= room + 2
  {
  }

  /** 151 bytes into 149. */
  lemma Outgrown()
    ensures PlanPiece(0, 128, 149, true) == Send(128, true) && MessageSize(0, PlanPiece(0, 128, 149, true)) == 151
  {
  }

  // ---------------------------------------------------------------- the header

  /** n bytes of v, least significant first. */
  function LittleEndian(v: nat, n: nat): (s: seq<byte>)
    ensures |s| == n
  {
    if n == 0 then [] else [v % 256] + LittleEndian(v / 256, n - 1)
  }

  function FromLittleEndian(s: seq<byte>): (v: nat) {
    if s == [] then 0 else s[0] + 256 * FromLittleEndian(s[1..])
  }

  function Pow256(n: nat): (p: nat)
    ensures p >= 1
  {
    if n == 0 then 1 else 256 * Pow256(n - 1)
  }

  lemma {:induction false} LittleEndianReads(v: nat, n: nat)
    requires v < Pow256(n)
    ensures FromLittleEndian(LittleEndian(v, n)) == v
  {
    if n > 0 {
      LittleEndianReads(v / 256, n - 1);
      assert LittleEndian(v, n)[1..] == LittleEndian(v / 256, n - 1);
    }
  }

  /** Byte i of v: v >> (8 * i) & 0xff. */
  function ByteOf(v: nat, i: nat): (b: byte) {
    v / Pow256(i) % 256
  }

  lemma {:induction false} LittleEndianAt(v: nat, n: nat, i: nat)
    requires i < n
    ensures LittleEndian(v, n)[i] == ByteOf(v, i)
  {
    if i > 0 {
      LittleEndianAt(v / 256, n - 1, i - 1);
      DivDiv(v, 256, Pow256(i - 1));
    }
  }

  lemma TwoSteps(v: nat, a: nat, b: nat, q: nat, r: nat, q': nat, r': nat)
    requires v == a * q + r && q == b * q' + r' && r < a && r' < b
    ensures v == (a * b) * q' + (a * r' + r) && 0 <= a * r' + r < a * b
  {
    Spread(a, b * q', r');
    assert a * (b * q') == (a * b) * q';
    Under(a, r', b);
  }

  lemma Spread(a: nat, x: nat, y: nat)
    ensures a * (x + y) == a * x + a * y
  {
  }

  lemma Under(a: nat, r: nat, b: nat)
    requires r < b
    ensures a * r + a <= a * b
  {
    Spread(a, r, b - r);
    assert a * (b - r) >= a;
  }

  lemma DivDiv(v: nat, a: nat, b: nat)
    requires a > 0 && b > 0
    ensures a * b > 0 && v / (a * b) == v / a / b
  {
    var q, r := v / a, v % a;
    var q', r' := q / b, q % b;
    TwoSteps(v, a, b, q, r, q', r');
    DividesTo(v, a * b, q', a * r' + r);
  }

  lemma DividesTo(v: nat, d: nat, q: nat, r: nat)
    requires v == d * q + r && r < d
    ensures v / d == q
  {
    QuotientUnique(d, v / d, v % d, q, r);
  }

  /** The sum of the bytes read so far, each shifted to its place. */
  function Gathered(s: seq<byte>, i: nat): (v: nat)
    requires i <= |s|
  {
    if i == 0 then 0 else Gathered(s, i - 1) + s[i - 1] * Pow256(i - 1)
  }

  lemma {:induction false} GatheredIs(s: seq<byte>, i: nat)
    requires i <= |s|
    ensures Gathered(s, i) == FromLittleEndian(s[..i])
  {
    if i > 0 {
      GatheredIs(s, i - 1);
      assert s[..i] == s[..i - 1] + [s[i - 1]];
      FromLittleEndianSnoc(s[..i - 1], s[i - 1]);
    }
  }

  lemma {:induction false} FromLittleEndianSnoc(s: seq<byte>, b: byte)
    ensures FromLittleEndian(s + [b]) == FromLittleEndian(s) + b * Pow256(|s|)
  {
    if s != [] {
      FromLittleEndianSnoc(s[1..], b);
      assert (s + [b])[1..] == s[1..] + [b];
      assert 256 * (b * Pow256(|s| - 1)) == b * Pow256(|s|);
    }
  }

  lemma {:induction false} FromLittleEndianBound(s: seq<byte>)
    ensures FromLittleEndian(s) < Pow256(|s|)
  {
    if s != [] {
      FromLittleEndianBound(s[1..]);
    }
  }

  // ---------------------------------------------------------------- the message

  datatype Header = Header(start: nat, bytes: nat, more: bool, manifest: bool, to: (byte, byte), bid: seq<byte>, version: nat)

  ghost predicate ValidHeader(h: Header) {
    h.start < 0x8000_0000 && h.bytes <= MAX_PIECE && |h.bid| == 8 && h.version < Pow256(8)
  }

  function Kind(h: Header): (k: byte) {
    (if h.start >= MB then 0x50 else 0x70) + (if h.more then 1 else 0)
  }

  /** The low 32 bits of offset_compound: 20 of offset, 11 of length, and the manifest bit. */
  function Compound(h: Header): (c: nat) {
    h.start % MB + h.bytes % 0x800 * MB + (if h.manifest then 0x8000_0000 else 0)
  }

  /** Its two bytes more for offsets of 20 bits and over. */
  function Extension(h: Header): (s: seq<byte>) {
    if h.start >= MB then LittleEndian(h.start / MB % 65536, 2) else []
  }

  function HeaderBytes(h: Header): (s: seq<byte>)
    requires ValidHeader(h)
    ensures |s| == if h.start >= MB then 25 else 23
  {
    [Kind(h), h.to.0, h.to.1] + h.bid + LittleEndian(h.version, 8) + LittleEndian(Compound(h), 4) + Extension(h)
  }

  /** A message's letter: p and q below 2^20, P and Q from there on, q and Q when it is not the last. */
  lemma LetterOf(h: Header)
    requires ValidHeader(h)
    ensures var letter := if h.start < 0x10_0000 then (if h.more then 'q' else 'p') else if h.more then 'Q' else 'P';
            HeaderBytes(h)[0] as char == letter
  {
    hide LittleEndian, Compound;
  }

  /** Four bytes as a number, the lowest first. */
  function Four(a: nat, b: nat, c: nat, d: nat): nat {
    a + 0x100 * b + 0x1_0000 * c + 0x100_0000 * d
  }

  lemma FourBytes(s: seq<byte>)
    requires |s| == 4
    ensures FromLittleEndian(s) == Four(s[0], s[1], s[2], s[3])
  {
    assert s[1..][1..][1..][1..] == [];
    assert FromLittleEndian(s[1..]) == s[1] + 256 * FromLittleEndian(s[1..][1..]);
    assert FromLittleEndian(s[1..][1..]) == s[2] + 256 * FromLittleEndian(s[1..][1..][1..]);
  }

  lemma TwoBytes(v: nat)
    requires v < 65536
    ensures LittleEndian(v, 2) == [v % 256, v / 256]
  {
    assert LittleEndian(v / 256, 1) == [v / 256 % 256] + LittleEndian(v / 256 / 256, 0);
  }

  /** Where everything stands behind the letter: the recipient, the bundle's id and version, the low 20 bits of the
      offset with the length and the manifest's mark, and the offset's other bits; lowest bytes first. */
  lemma HeaderLayout(h: Header)
    requires ValidHeader(h)
    ensures var s := HeaderBytes(h);
            && (s[1], s[2]) == h.to && s[3..11] == h.bid && FromLittleEndian(s[11..19]) == h.version
            && Four(s[19], s[20], s[21], s[22])
               == h.start % 0x10_0000 + 0x10_0000 * h.bytes + (if h.manifest then 0x8000_0000 else 0)
            && s[23..] == if h.start < 0x10_0000 then [] else [h.start / 0x10_0000 % 256, h.start / 0x1000_0000]
  {
    hide LittleEndian, FromLittleEndian, Kind, Compound, Extension;
    var s := HeaderBytes(h);
    PartsOf(h, seq(h.bytes, _ => 0), []);
    assert s + seq(h.bytes, _ => 0) + [] == s + seq(h.bytes, _ => 0);
    assert (s + seq(h.bytes, _ => 0))[3..11] == s[3..11] && (s + seq(h.bytes, _ => 0))[11..19] == s[11..19]
        && (s + seq(h.bytes, _ => 0))[19..23] == s[19..23];
    LittleEndianReads(h.version, 8);
    assert Pow256(4) == 0x1_0000_0000;
    CompoundIs(h);
    LittleEndianReads(Compound(h), 4);
    FourBytes(s[19..23]);
    ExtensionIs(h);
    assert s[23..] == Extension(h);
  }

  lemma CompoundIs(h: Header)
    requires ValidHeader(h)
    ensures Compound(h) == h.start % 0x10_0000 + 0x10_0000 * h.bytes + (if h.manifest then 0x8000_0000 else 0)
    ensures Compound(h) < 0x1_0000_0000
  {
    CompoundReads(h);
  }

  lemma ExtensionIs(h: Header)
    requires ValidHeader(h)
    ensures Extension(h) == if h.start < 0x10_0000 then [] else [h.start / 0x10_0000 % 256, h.start / 0x1000_0000]
  {
    hide LittleEndian;
    if h.start >= 0x10_0000 {
      TwoBytes(h.start / MB);
      DivDiv(h.start, 0x10_0000, 256);
    }
  }

  /** What the parser makes of a message: too short, or a piece. */
  datatype Parsed = TooShort | Parsed(forMe: bool, bid: seq<byte>, version: nat, start: nat, bytes: nat, end: bool, manifest: bool,
                                      data: seq<byte>, used: nat)

  function Cut(s: seq<byte>, a: nat, n: nat): (r: seq<byte>) {
    if a + n <= |s| then s[a..a + n] else if a <= |s| then s[a..] else []
  }

  /** piece_offset, from a 32-bit compound. */
  function OffsetOf(c: nat): (o: nat) {
    c % MB + c / 0x1000 / MB % 0x1000 * MB
  }

  /** message_parser_50, on the rest of a packet. */
  function ParsePiece(msg: seq<byte>, sid: (byte, byte)): (r: Parsed) {
    if |msg| < 25 then TooShort else
      var c := FromLittleEndian(msg[19..23]);
      var at := if msg[0] / 0x20 % 2 == 0 then 25 else 23;
      Parsed((msg[1], msg[2]) == sid, msg[3..11], FromLittleEndian(msg[11..19]), OffsetOf(c), c / MB % 0x800, msg[0] % 2 == 0,
             c / 0x8000_0000 % 2 == 1, Cut(msg, at, c / MB % 0x800), at + c / MB % 0x800)
  }

  lemma OffsetIsLow(c: nat)
    requires c < 0x1_0000_0000
    ensures OffsetOf(c) == c % MB
  {
    assert c / 0x1000 < MB;
  }

  lemma CompoundReads(h: Header)
    requires ValidHeader(h)
    ensures var c := Compound(h);
            && c < 0x1_0000_0000 && c % MB == h.start % MB && c / MB % 0x800 == h.bytes && (c / 0x8000_0000 % 2 == 1 <==> h.manifest)
  {
    var c, m, b := Compound(h), if h.manifest then 1 else 0, h.bytes;
    assert b % 0x800 == b;
    assert c == h.start % MB + MB * (b + 0x800 * m);
    DividesTo(c, MB, b + 0x800 * m, h.start % MB);
    DividesTo(c, 0x8000_0000, m, h.start % MB + b * MB);
  }

  lemma KindReads(h: Header)
    ensures (Kind(h) / 0x20 % 2 == 0 <==> h.start >= MB) && (Kind(h) % 2 == 0 <==> !h.more)
  {
  }

  /** Where the parts of a message lie. */
  lemma PartsOf(h: Header, data: seq<byte>, rest: seq<byte>)
    requires ValidHeader(h) && |data| == h.bytes
    ensures var msg := HeaderBytes(h) + data + rest;
            && |msg| >= 23 && msg[0] == Kind(h) && (msg[1], msg[2]) == h.to && msg[3..11] == h.bid
            && msg[11..19] == LittleEndian(h.version, 8) && msg[19..23] == LittleEndian(Compound(h), 4)
            && msg[|HeaderBytes(h)|..|HeaderBytes(h)| + h.bytes] == data
  {
    hide LittleEndian, Kind, Compound, Extension;
    var b := HeaderBytes(h);
    var msg := b + data + rest;
    assert |Extension(h)| == |b| - 23;
    assert b[0] == Kind(h) && b[1] == h.to.0 && b[2] == h.to.1;
    assert msg[3..11] == h.bid;
    assert msg[11..19] == LittleEndian(h.version, 8);
    assert msg[19..23] == LittleEndian(Compound(h), 4);
  }

  /** What the parser recovers of a message that the sender built, whatever follows it: everything, but
      only 20 bits of the offset; unless the packet ends too soon after the header. */
  lemma ParseBuilt(h: Header, data: seq<byte>, rest: seq<byte>, sid: (byte, byte))
    requires ValidHeader(h) && |data| == h.bytes
    ensures ParsePiece(HeaderBytes(h) + data + rest, sid) ==
            if |HeaderBytes(h)| + |data| + |rest| < 25 then TooShort
            else Parsed(h.to == sid, h.bid, h.version, h.start % MB, h.bytes, !h.more, h.manifest, data, |HeaderBytes(h)| + h.bytes)
  {
    hide LittleEndian, FromLittleEndian, Kind, Compound, OffsetOf, HeaderBytes;
    var msg := HeaderBytes(h) + data + rest;
    if |msg| >= 25 {
      PartsOf(h, data, rest);
      KindReads(h);
      CompoundReads(h);
      OffsetIsLow(Compound(h));
      assert Pow256(4) == 0x1_0000_0000;
      LittleEndianReads(Compound(h), 4);
      LittleEndianReads(h.version, 8);
    }
  }

  /** Last in its packet, a message is too short for the parser exactly if it carries at most one byte
      from below 2^20. */
  lemma TooShortIff(h: Header, data: seq<byte>, sid: (byte, byte))
    requires ValidHeader(h) && |data| == h.bytes
    ensures ParsePiece(HeaderBytes(h) + data, sid) == TooShort <==> h.start < 0x10_0000 && h.bytes <= 1
  {
    hide HeaderBytes, ParsePiece;
    ParseBuilt(h, data, [], sid);
    assert HeaderBytes(h) + data + [] == HeaderBytes(h) + data;
  }

  /** Such is the piece that tells the end of a stream whose bytes have all been sent. */
  lemma EmptyEnd(h: Header, room: int, bitmap: bool, sid: (byte, byte))
    requires ValidHeader(h) && h.bytes == 0 && MaxBytes(h.start, room) >= 1
    ensures PlanPiece(h.start, h.start, room, bitmap) == Send(0, false)
    ensures ParsePiece(HeaderBytes(h), sid) == TooShort <==> h.start < 0x10_0000
  {
    hide HeaderBytes, ParsePiece;
    TooShortIff(h, [], sid);
    assert HeaderBytes(h) + [] == HeaderBytes(h);
  }

  /** So the start is recovered exactly if it is below 2^20. */
  lemma StartRecovered(h: Header, data: seq<byte>, rest: seq<byte>, sid: (byte, byte))
    requires ValidHeader(h) && |data| == h.bytes && |HeaderBytes(h)| + |data| + |rest| >= 25
    ensures ParsePiece(HeaderBytes(h) + data + rest, sid).start == h.start <==> h.start < 0x10_0000
  {
    hide HeaderBytes, ParsePiece;
    ParseBuilt(h, data, rest, sid);
  }
}
