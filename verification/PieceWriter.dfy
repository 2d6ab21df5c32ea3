/** Writing a piece message into a packet through an advancing offset, and reading it back. */
module PieceWriter {
  import opened Bits
  import opened PieceMessage

  /** s has been written at a position. */
  ghost predicate Wrote(before: seq<byte>, after: seq<byte>, at: nat, s: seq<byte>) {
    && |after| == |before| && at + |s| <= |before|
    && after[..at + |s|] == before[..at] + s && after[at + |s|..] == before[at + |s|..]
  }

  lemma WroteTwice(a: seq<byte>, b: seq<byte>, c: seq<byte>, at: nat, s: seq<byte>, t: seq<byte>)
    requires Wrote(a, b, at, s) && Wrote(b, c, at + |s|, t)
    ensures Wrote(a, c, at, s + t)
  {
    assert c[..at + |s| + |t|] == a[..at] + s + t;
    assert a[at + |s| + |t|..] == a[at + |s|..][|t|..];
    assert b[at + |s| + |t|..] == b[at + |s|..][|t|..];
    assert a[..at] + s + t == a[..at] + (s + t);
  }

  lemma WroteOne(a: seq<byte>, at: nat, s: seq<byte>, b: seq<byte>, x: byte)
    requires Wrote(a, b, at, s) && at + |s| < |a|
    ensures Wrote(a, b[at + |s| := x], at, s + [x])
  {
    var c := b[at + |s| := x];
    assert c[..at + |s| + 1] == b[..at + |s|] + [x];
    assert a[..at] + s + [x] == a[..at] + (s + [x]);
    assert a[at + |s| + 1..] == a[at + |s|..][1..];
    assert b[at + |s| + 1..] == b[at + |s|..][1..];
    assert c[at + |s| + 1..] == b[at + |s| + 1..];
  }

  /** bcopy, and the loop over the bundle id. */
  method PutBytes(msg: array<byte>, at: nat, s: seq<byte>) returns (offset: nat)
    requires at + |s| <= msg.Length
    modifies msg
    ensures offset == at + |s| && Wrote(old(msg[..]), msg[..], at, s)
  {
    hide Wrote;
    ghost var before := msg[..];
    offset := at;
    WroteNone(before, at);
    var i := 0;
    while i < |s|
      invariant 0 <= i <= |s| && offset == at + i && Wrote(before, msg[..], at, s[..i])
    {
      ghost var now := msg[..];
      WroteOne(before, at, s[..i], now, s[i]);
      msg[offset] := s[i];
      assert msg[..] == now[at + i := s[i]];
      assert s[..i] + [s[i]] == s[..i + 1];
      offset := offset + 1;
      i := i + 1;
    }
    assert s[..|s|] == s;
  }

  lemma WroteNone(a: seq<byte>, at: nat)
    requires at <= |a|
    ensures Wrote(a, a, at, [])
  {
  }

  /** The loops over the bytes of a number. */
  method PutNumber(msg: array<byte>, at: nat, v: nat, n: nat) returns (offset: nat)
    requires at + n <= msg.Length
    modifies msg
    ensures offset == at + n && Wrote(old(msg[..]), msg[..], at, LittleEndian(v, n))
  {
    hide Wrote, ByteOf, LittleEndian;
    ghost var before, s := msg[..], LittleEndian(v, n);
    offset := at;
    WroteNone(before, at);
    var i := 0;
    while i < n
      invariant 0 <= i <= n && offset == at + i && Wrote(before, msg[..], at, s[..i])
    {
      ghost var now := msg[..];
      LittleEndianAt(v, n, i);
      WroteOne(before, at, s[..i], now, ByteOf(v, i));
      msg[offset] := ByteOf(v, i);
      assert msg[..] == now[at + i := ByteOf(v, i)];
      assert s[..i] + [s[i]] == s[..i + 1];
      offset := offset + 1;
      i := i + 1;
    }
    assert s[..n] == s;
  }

  /** sync_append_some_bundle_bytes: what it appends to the packet being built, and the sign of its
      result; the message may go two bytes past the MTU. */
  method AppendPiece(msg: array<byte>, at: nat, mtu: nat, stream: seq<byte>, start: nat, manifest: bool, to: (byte, byte),
                     bid: seq<byte>, version: nat, bitmap: bool) returns (offset: nat, r: int)
    requires at <= msg.Length && mtu + 2 <= msg.Length && start < 0x8000_0000 && |bid| == 8 && version < Pow256(8)
    modifies msg
    ensures var p := PlanPiece(start, |stream|, mtu - at, bitmap);
            if p.Send? then
              && start + p.bytes <= |stream| && r == p.bytes && offset <= mtu + 2
              && ValidHeader(Header(start, p.bytes, p.more, manifest, to, bid, version))
              && Wrote(old(msg[..]), msg[..], at, HeaderBytes(Header(start, p.bytes, p.more, manifest, to, bid, version))
                                                  + stream[start..start + p.bytes])
              && offset == at + MessageSize(start, p)
            else msg[..] == old(msg[..]) && offset == at && r == if p.Nothing? then 0 else -1
  {
    hide Wrote, PlanPiece, HeaderBytes;
    offset := at;
    var p := Decide(start, |stream|, mtu - at, bitmap);
    if p.GiveUp? { return at, -1; }
    if p.Nothing? { return at, 0; }
    PlanFits(start, |stream|, mtu - at, bitmap);
    offset := PutPiece(msg, at, Header(start, p.bytes, p.more, manifest, to, bid, version), stream[start..start + p.bytes]);
    r := p.bytes;
  }

  /** The number of bytes to send, and whether more is to come after. */
  method Decide(start: nat, len: nat, room: int, bitmap: bool) returns (p: Plan)
    ensures p == PlanPiece(start, len, room, bitmap)
  {
    var max, available := room - 21, len - start;
    if start > 0xfffff {
      max := max - 2;
      if max < 0 { max := 0; }
    }
    if max < 1 { return GiveUp; }
    var bytes, more := available, false;
    if available >= max {
      bytes, more := max, true;
    }
    if more {
      var end := start + bytes;
      if bitmap && end % 64 != 0 { bytes := bytes - end % 64; }
      if bytes < 1 { return Nothing; }
    }
    if bytes > 0x7ff { bytes := 0x7ff; }
    if bytes < 0 { return GiveUp; }
    p := Send(bytes, more);
  }

  /** Header and data. */
  method PutPiece(msg: array<byte>, at: nat, h: Header, data: seq<byte>) returns (offset: nat)
    requires ValidHeader(h) && at + |HeaderBytes(h)| + |data| <= msg.Length
    modifies msg
    ensures offset == at + |HeaderBytes(h)| + |data| && Wrote(old(msg[..]), msg[..], at, HeaderBytes(h) + data)
  {
    hide Wrote, LittleEndian, Kind, Compound;
    ghost var m0 := msg[..];
    offset := PutBytes(msg, at, [Kind(h), h.to.0, h.to.1]);
    ghost var m1 := msg[..];
    offset := PutBytes(msg, offset, h.bid);
    ghost var m2 := msg[..];
    offset := PutNumber(msg, offset, h.version, 8);
    ghost var m3 := msg[..];
    offset := PutNumber(msg, offset, Compound(h), 4);
    ghost var m4 := msg[..];
    WroteTwice(m0, m1, m2, at, [Kind(h), h.to.0, h.to.1], h.bid);
    WroteTwice(m0, m2, m3, at, [Kind(h), h.to.0, h.to.1] + h.bid, LittleEndian(h.version, 8));
    WroteTwice(m0, m3, m4, at, [Kind(h), h.to.0, h.to.1] + h.bid + LittleEndian(h.version, 8), LittleEndian(Compound(h), 4));
    ghost var so := [Kind(h), h.to.0, h.to.1] + h.bid + LittleEndian(h.version, 8) + LittleEndian(Compound(h), 4);
    if h.start > 0xfffff {
      offset := PutNumber(msg, offset, h.start / MB % 65536, 2);
      WroteTwice(m0, m4, msg[..], at, so, LittleEndian(h.start / MB % 65536, 2));
    } else {
      assert so + [] == so;
    }
    ghost var m5 := msg[..];
    offset := PutBytes(msg, offset, data);
    WroteTwice(m0, m5, msg[..], at, HeaderBytes(h), data);
  }

  // ---------------------------------------------------------------- reading

  /** A number of n bytes, gathered byte by byte. */
  method GetNumber(msg: array<byte>, at: nat, n: nat) returns (v: nat)
    requires at + n <= msg.Length
    ensures v == FromLittleEndian(msg[at..at + n])
  {
    hide FromLittleEndian;
    ghost var s := msg[at..at + n];
    v := 0;
    var i := 0;
    while i < n
      invariant 0 <= i <= n && v == Gathered(s, i)
    {
      assert msg[at + i] == s[i];
      v := v + msg[at + i] * Pow256(i);
      i := i + 1;
    }
    GatheredIs(s, n);
    assert s[..n] == s;
  }

  /** offset_compound: six bytes are gathered, into 32 bits. */
  method GetCompound(msg: array<byte>, at: nat) returns (c: nat)
    requires at + 6 <= msg.Length
    ensures c == FromLittleEndian(msg[at..at + 4]) < 0x1_0000_0000
  {
    hide FromLittleEndian;
    ghost var s := msg[at..at + 4];
    FromLittleEndianBound(s);
    assert Pow256(4) == 0x1_0000_0000;
    c := 0;
    var i := 0;
    while i < 6
      invariant 0 <= i <= 6 && c == Gathered(s, if i < 4 then i else 4) < 0x1_0000_0000
    {
      if i < 4 {
        assert msg[at + i] == s[i];
        GatheredGrows(s, i + 1);
      } else {
        Beyond(c, msg[at + i], i);
      }
      c := (c + msg[at + i] * Pow256(i)) % 0x1_0000_0000;
      i := i + 1;
    }
    GatheredIs(s, 4);
    assert s[..4] == s;
  }

  lemma GatheredGrows(s: seq<byte>, i: nat)
    requires |s| == 4 && i <= 4
    ensures Gathered(s, i) < 0x1_0000_0000
  {
    GatheredIs(s, i);
    FromLittleEndianBound(s[..i]);
    assert Pow256(4) == 0x1_0000_0000;
    Pow256Mono(i, 4);
  }

  lemma {:induction false} Pow256Mono(a: nat, b: nat)
    requires a <= b
    ensures Pow256(a) <= Pow256(b)
  {
    if a < b { Pow256Mono(a, b - 1); }
  }

  /** A byte shifted by 32 bits or more is lost. */
  lemma Beyond(c: nat, b: byte, i: nat)
    requires i == 4 || i == 5
    requires c < 0x1_0000_0000
    ensures (c + b * Pow256(i)) % 0x1_0000_0000 == c
  {
    assert Pow256(4) == 0x1_0000_0000;
    assert Pow256(5) == 256 * 0x1_0000_0000;
    var k: nat := if i == 4 then b else 256 * b;
    assert b * Pow256(i) == 0x1_0000_0000 * k;
    DividesTo(c + 0x1_0000_0000 * k, 0x1_0000_0000, k, c);
  }

  /** message_parser_50: what it hands to saw_piece. */
  method ReadPiece(msg: array<byte>, from: nat, end: nat, sid: (byte, byte)) returns (r: Parsed)
    requires from <= end <= msg.Length
    ensures r == ParsePiece(msg[from..end], sid)
  {
    hide FromLittleEndian, OffsetOf, Cut;
    ghost var s := msg[from..end];
    var length := end - from;
    if length < 25 { return TooShort; }
    var above := msg[from] / 0x20 % 2 == 0;
    var isEnd := msg[from] % 2 == 0;
    var offset := from + 1;
    var forMe := sid.0 == msg[offset] && sid.1 == msg[offset + 1];
    offset := offset + 2;
    var bid := msg[offset..offset + 8];
    offset := offset + 8;
    var version := GetNumber(msg, offset, 8);
    offset := offset + 8;
    var c := GetCompound(msg, offset);
    offset := offset + 4;
    if above { offset := offset + 2; }
    var start := OffsetOf(c);
    var bytes := c / MB % 0x800;
    assert s[3..11] == bid && msg[from + 11..from + 19] == s[11..19] && msg[from + 19..from + 23] == s[19..23];
    r := Parsed(forMe, bid, version, start, bytes, isEnd, c / 0x8000_0000 % 2 == 1,
                Cut(msg[from..end], offset - from, bytes), offset - from + bytes);
  }
}
