/** The message that announces how long a bundle's body is (bundlelength.c). */
module PieceLength {
  import opened Bits
  import opened PieceMessage
  import opened PieceWriter

  function LengthBytes(bid: seq<byte>, version: nat, n: nat): (s: seq<byte>)
    requires |bid| == 8
    ensures |s| == 21
  {
    [0x4c] + bid + LittleEndian(version, 8) + LittleEndian(n, 4)
  }

  /** The letter L, the bundle's id, its version and the length, both with the lowest byte first. */
  lemma LengthLayout(bid: seq<byte>, version: nat, n: nat)
    requires |bid| == 8 && version < Pow256(8) && n < 0x1_0000_0000
    ensures var s := LengthBytes(bid, version, n);
            && s[0] as char == 'L' && s[1..9] == bid && FromLittleEndian(s[9..17]) == version
            && Four(s[17], s[18], s[19], s[20]) == n
  {
    hide LittleEndian, FromLittleEndian;
    var s := LengthBytes(bid, version, n);
    LittleEndianReads(version, 8);
    assert s[9..17] == LittleEndian(version, 8) && s[17..21] == LittleEndian(n, 4);
    assert Pow256(4) == 0x1_0000_0000;
    LittleEndianReads(n, 4);
    FourBytes(s[17..21]);
  }

  /** announce_bundle_length: the message, if more than it takes is left. */
  method AnnounceLength(msg: array<byte>, at: nat, mtu: nat, bid: seq<byte>, version: nat, n: nat) returns (offset: nat)
    requires mtu <= msg.Length && |bid| == 8 && version < Pow256(8) && n < 0x1_0000_0000
    modifies msg
    ensures if mtu - at > 21 then offset == at + 21 && Wrote(old(msg[..]), msg[..], at, LengthBytes(bid, version, n))
            else offset == at && msg[..] == old(msg[..])
  {
    hide Wrote, LittleEndian;
    offset := at;
    if mtu - at > 1 + 8 + 8 + 4 {
      ghost var m0 := msg[..];
      offset := PutBytes(msg, at, [0x4c]);
      ghost var m1 := msg[..];
      offset := PutBytes(msg, offset, bid);
      ghost var m2 := msg[..];
      offset := PutNumber(msg, offset, version, 8);
      ghost var m3 := msg[..];
      offset := PutNumber(msg, offset, n, 4);
      WroteTwice(m0, m1, m2, at, [0x4c], bid);
      WroteTwice(m0, m2, m3, at, [0x4c] + bid, LittleEndian(version, 8));
      WroteTwice(m0, m3, msg[..], at, [0x4c] + bid + LittleEndian(version, 8), LittleEndian(n, 4));
    }
  }

  datatype Announced = NoLength | BodyLength(bid: seq<byte>, version: nat, n: nat)

  function ParseLength(msg: seq<byte>): (r: Announced) {
    if |msg| < 21 then NoLength else BodyLength(msg[1..9], FromLittleEndian(msg[9..17]), FromLittleEndian(msg[17..21]))
  }

  /** message_parser_4C: what it hands to saw_length. */
  method ReadLength(msg: array<byte>, from: nat, end: nat) returns (r: Announced, used: int)
    requires from <= end <= msg.Length
    ensures r == ParseLength(msg[from..end]) && used == if r.NoLength? then -3 else 21
  {
    hide FromLittleEndian;
    ghost var s := msg[from..end];
    if end - from < 1 + 8 + 8 + 4 { return NoLength, -3; }
    used := 1;
    var bid := msg[from + used..from + used + 8];
    used := used + 8;
    var version := GetNumber(msg, from + used, 8);
    used := used + 8;
    var n := GetNumber(msg, from + used, 4);
    used := used + 4;
    assert msg[from + 1..from + 9] == s[1..9] && msg[from + 9..from + 17] == s[9..17] && msg[from + 17..from + 21] == s[17..21];
    r := BodyLength(bid, version, n);
  }

  /** What was announced is read back, whatever follows. */
  lemma LengthReadBack(bid: seq<byte>, version: nat, n: nat, rest: seq<byte>)
    requires |bid| == 8 && version < Pow256(8) && n < 0x1_0000_0000
    ensures ParseLength(LengthBytes(bid, version, n) + rest) == BodyLength(bid, version, n)
  {
    hide LittleEndian, FromLittleEndian;
    var msg := LengthBytes(bid, version, n) + rest;
    assert msg[1..9] == bid && msg[9..17] == LittleEndian(version, 8) && msg[17..21] == LittleEndian(n, 4);
    assert Pow256(4) == 0x1_0000_0000;
    LittleEndianReads(version, 8);
    LittleEndianReads(n, 4);
  }
}
