/** The streaming hash (sha1.c): sixteen words of buffer that hold first the block and then, rolling,
    the schedule. */
module Sha1 {
  import opened Sha1Spec

  // ---------------------------------------------------------------- bytes in words

  function Byte0(w: bv32): bv8 { (w >> 24) as bv8 }
  function Byte1(w: bv32): bv8 { ((w >> 16) & 0xff) as bv8 }
  function Byte2(w: bv32): bv8 { ((w >> 8) & 0xff) as bv8 }
  function Byte3(w: bv32): bv8 { (w & 0xff) as bv8 }

  function With0(w: bv32, x: bv8): bv32 { (w & 0x00ffffff) | ((x as bv32) << 24) }
  function With1(w: bv32, x: bv8): bv32 { (w & 0xff00ffff) | ((x as bv32) << 16) }
  function With2(w: bv32, x: bv8): bv32 { (w & 0xffff00ff) | ((x as bv32) << 8) }
  function With3(w: bv32, x: bv8): bv32 { (w & 0xffffff00) | (x as bv32) }

  /** Byte k of a word, from the most significant. */
  function ByteAt(w: bv32, k: nat): bv8
    requires k < 4
  {
    if k == 0 then Byte0(w) else if k == 1 then Byte1(w) else if k == 2 then Byte2(w) else Byte3(w)
  }

  /** The word with byte k replaced. */
  function WithByte(w: bv32, k: nat, x: bv8): bv32
    requires k < 4
  {
    if k == 0 then With0(w, x) else if k == 1 then With1(w, x) else if k == 2 then With2(w, x) else With3(w, x)
  }

  lemma Replace0(w: bv32, x: bv8)
    ensures Byte0(With0(w, x)) == x
    ensures Byte1(With0(w, x)) == Byte1(w) && Byte2(With0(w, x)) == Byte2(w) && Byte3(With0(w, x)) == Byte3(w)
  {
  }

  lemma Replace1(w: bv32, x: bv8)
    ensures Byte1(With1(w, x)) == x
    ensures Byte0(With1(w, x)) == Byte0(w) && Byte2(With1(w, x)) == Byte2(w) && Byte3(With1(w, x)) == Byte3(w)
  {
  }

  lemma Replace2(w: bv32, x: bv8)
    ensures Byte2(With2(w, x)) == x
    ensures Byte0(With2(w, x)) == Byte0(w) && Byte1(With2(w, x)) == Byte1(w) && Byte3(With2(w, x)) == Byte3(w)
  {
  }

  lemma Replace3(w: bv32, x: bv8)
    ensures Byte3(With3(w, x)) == x
    ensures Byte0(With3(w, x)) == Byte0(w) && Byte1(With3(w, x)) == Byte1(w) && Byte2(With3(w, x)) == Byte2(w)
  {
  }

  lemma WithByteAt(w: bv32, k: nat, x: bv8, j: nat)
    requires k < 4 && j < 4
    ensures ByteAt(WithByte(w, k, x), j) == if j == k then x else ByteAt(w, j)
  {
    hide Byte0, Byte1, Byte2, Byte3, With0, With1, With2, With3;
    Replace0(w, x);
    Replace1(w, x);
    Replace2(w, x);
    Replace3(w, x);
  }

  lemma WordOfBytes(w: bv32)
    ensures Word(ByteAt(w, 0), ByteAt(w, 1), ByteAt(w, 2), ByteAt(w, 3)) == w
  {
  }

  // ---------------------------------------------------------------- the round, as written

  function Choose(t: nat, b: bv32, c: bv32, d: bv32): bv32 {
    if t < 20 then d ^ (b & (c ^ d)) else if t < 40 then b ^ c ^ d else if t < 60 then (b & c) | (d & (b | c)) else b ^ c ^ d
  }

  lemma ChooseIsF(t: nat, b: bv32, c: bv32, d: bv32)
    ensures Choose(t, b, c, d) == F(t, b, c, d)
  {
    hide Ch, Maj;
    ChooseIsCh(b, c, d);
    MostIsMaj(b, c, d);
  }

  lemma ChooseIsCh(b: bv32, c: bv32, d: bv32)
    ensures d ^ (b & (c ^ d)) == Ch(b, c, d)
  {
  }

  lemma MostIsMaj(b: bv32, c: bv32, d: bv32)
    ensures (b & c) | (d & (b | c)) == Maj(b, c, d)
  {
  }

  /** The sum as the code adds it up. */
  function Added(f: bv32, k: bv32, r: bv32, e: bv32, w: bv32): bv32 { (f + k) + (r + e + w) }

  lemma SumOrder(f: bv32, k: bv32, r: bv32, e: bv32, w: bv32)
    ensures Added(f, k, r, e, w) == Sum(r, f, e, k, w)
  {
  }

  // ---------------------------------------------------------------- the rolling schedule

  /** Sixteen words, the last of the schedule up to word n, each at its number modulo 16. */
  ghost predicate Rolling(buf: seq<bv32>, m: seq<bv32>, n: nat) {
    && |buf| == 16 && |m| == 16 && n >= 16
    && forall t: nat :: n - 16 <= t < n ==> buf[t % 16] == W(m, t)
  }

  lemma RollingStart(m: seq<bv32>)
    requires |m| == 16
    ensures Rolling(m, m, 16)
  {
  }

  /** One word on: from the four words it is made of, in their places. */
  lemma RollingStep(buf: seq<bv32>, m: seq<bv32>, n: nat)
    requires Rolling(buf, m, n)
    ensures Rotl1(buf[(n + 13) % 16] ^ buf[(n + 8) % 16] ^ buf[(n + 2) % 16] ^ buf[n % 16]) == W(m, n)
    ensures Rolling(buf[n % 16 := W(m, n)], m, n + 1)
  {
    hide Rotl1, W;
    SamePlace(n);
    assert buf[(n - 3) % 16] == W(m, n - 3) && buf[(n - 8) % 16] == W(m, n - 8);
    assert buf[(n - 14) % 16] == W(m, n - 14) && buf[(n - 16) % 16] == W(m, n - 16);
    WordAt(m, n);
    var next := buf[n % 16 := W(m, n)];
    forall t: nat | n - 15 <= t < n + 1
      ensures next[t % 16] == W(m, t)
    {
      if t < n { OtherPlace(n, t); }
    }
  }

  lemma WordAt(m: seq<bv32>, n: nat)
    requires |m| == 16 && n >= 16
    ensures W(m, n) == Rotl1(W(m, n - 3) ^ W(m, n - 8) ^ W(m, n - 14) ^ W(m, n - 16))
  {
  }

  lemma SamePlace(n: nat)
    requires n >= 16
    ensures (n + 13) % 16 == (n - 3) % 16 && (n + 8) % 16 == (n - 8) % 16 && (n + 2) % 16 == (n - 14) % 16
    ensures n % 16 == (n - 16) % 16
  {
  }

  lemma OtherPlace(n: nat, t: nat)
    requires n - 16 < t < n
    ensures t % 16 != n % 16
  {
  }

  // ---------------------------------------------------------------- the hash state

  ghost function Vals(state: seq<bv32>): Vars
    requires |state| == 5
  {
    Vars(state[0], state[1], state[2], state[3], state[4])
  }

  /** The first n bytes of the buffer. */
  ghost predicate Buffered(buf: seq<bv32>, s: seq<bv8>) {
    |buf| == 16 && |s| <= 64 && forall j: nat :: j < |s| ==> ByteAt(buf[j / 4], j % 4) == s[j]
  }

  lemma BufferedFull(buf: seq<bv32>, s: seq<bv8>)
    requires Buffered(buf, s) && |s| == 64
    ensures buf == Words(s)
  {
    hide ByteAt, Word;
    forall i: nat | i < 16
      ensures buf[i] == Words(s)[i]
    {
      WordOfBytes(buf[i]);
      QuarterOf(i);
      assert ByteAt(buf[(4 * i) / 4], (4 * i) % 4) == s[4 * i];
      assert ByteAt(buf[(4 * i + 1) / 4], (4 * i + 1) % 4) == s[4 * i + 1];
      assert ByteAt(buf[(4 * i + 2) / 4], (4 * i + 2) % 4) == s[4 * i + 2];
      assert ByteAt(buf[(4 * i + 3) / 4], (4 * i + 3) % 4) == s[4 * i + 3];
    }
  }

  lemma QuarterOf(i: nat)
    ensures (4 * i) / 4 == i && (4 * i) % 4 == 0 && (4 * i + 1) / 4 == i && (4 * i + 1) % 4 == 1
    ensures (4 * i + 2) / 4 == i && (4 * i + 2) % 4 == 2 && (4 * i + 3) / 4 == i && (4 * i + 3) % 4 == 3
  {
  }

  lemma BufferedMore(buf: seq<bv32>, s: seq<bv8>, x: bv8)
    requires Buffered(buf, s) && |s| < 64
    ensures Buffered(buf[|s| / 4 := WithByte(buf[|s| / 4], |s| % 4, x)], s + [x])
  {
    hide ByteAt, WithByte;
    var n := |s|;
    var next := buf[n / 4 := WithByte(buf[n / 4], n % 4, x)];
    forall j: nat | j <= n
      ensures ByteAt(next[j / 4], j % 4) == (s + [x])[j]
    {
      WithByteAt(buf[n / 4], n % 4, x, j % 4);
      if j < n && j / 4 == n / 4 { assert j % 4 != n % 4; }
    }
  }

  class Hash {
    const buffer: array<bv32>
    const state: array<bv32>
    var byteCount: nat          // 32 bits
    var bufferOffset: nat
    ghost var fed: seq<bv8>     // what has been added, padding included

    ghost predicate Shaped()
      reads this
    {
      Sized() && bufferOffset < 64 && byteCount < 0x1_0000_0000
    }

    ghost predicate Sized() {
      buffer != state && buffer.Length == 16 && state.Length == 5
    }

    /** Whole blocks are in the state, the rest is in the buffer. */
    ghost predicate Valid()
      reads this, buffer, state
    {
      Shaped() && Fed(state[..], buffer[..], bufferOffset, fed)
    }

    constructor ()
      ensures Valid() && fed == [] && byteCount == 0 && fresh(buffer) && fresh(state)
    {
      buffer, state := new bv32[16], new bv32[5];
      byteCount, bufferOffset, fed := 0, 0, [];
      new;
      state[0] := 0x67452301;
      state[1] := 0xefcdab89;
      state[2] := 0x98badcfe;
      state[3] := 0x10325476;
      state[4] := 0xc3d2e1f0;
    }

    /** The word for round i, rolling the buffer on from round 16. */
    method Roll(i: nat, ghost m: seq<bv32>)
      requires Sized() && Rolling(buffer[..], m, if i < 16 then 16 else i)
      modifies buffer
      ensures Rolling(buffer[..], m, if i < 16 then 16 else i + 1) && buffer[i % 16] == W(m, i)
    {
      hide Rotl1, W;
      if i >= 16 {
        ghost var buf := buffer[..];
        RollingStep(buf, m, i);
        var t := buffer[(i + 13) % 16] ^ buffer[(i + 8) % 16] ^ buffer[(i + 2) % 16] ^ buffer[i % 16];
        buffer[i % 16] := Rotl1(t);
        assert buffer[..] == buf[i % 16 := W(m, i)];
      }
      InPlace(buffer[..], m, i);
    }

    /** sha1_hashBlock: eighty rounds over the rolling buffer. */
    method HashBlock()
      requires Sized()
      modifies buffer, state
      ensures Vals(state[..]) == Compress(old(Vals(state[..])), old(buffer[..]))
    {
      hide Choose, K, W, F, Rotl1, Rotl5, Rotl30, Rolling, Rounds, Round, Plus, Mixed;
      ghost var m, h := buffer[..], Vals(state[..]);
      var a, b, c, d, e := state[0], state[1], state[2], state[3], state[4];
      RollingStart(m);
      RoundsStart(h, m);
      var i := 0;
      while i < 80
        invariant 0 <= i <= 80 && Vars(a, b, c, d, e) == Rounds(h, m, i)
        invariant Rolling(buffer[..], m, if i < 16 then 16 else i) && state[..] == old(state[..])
      {
        Roll(i, m);
        RoundsNext(h, m, i);
        var t := Mixed(i, a, b, c, d, e, buffer[i % 16]);
        e := d;
        d := c;
        c := Rotl30(b);
        b := a;
        a := t;
        i := i + 1;
      }
      AddAll(a, b, c, d, e);
    }

    method AddAll(a: bv32, b: bv32, c: bv32, d: bv32, e: bv32)
      requires Sized()
      modifies state
      ensures Vals(state[..]) == Plus(old(Vals(state[..])), Vars(a, b, c, d, e))
    {
      hide Add;
      state[0] := Add(state[0], a);
      state[1] := Add(state[1], b);
      state[2] := Add(state[2], c);
      state[3] := Add(state[3], d);
      state[4] := Add(state[4], e);
    }

    /** sha1_addUncounted: on a little-endian machine offset ^ 3 is byte offset % 4 of the word from its
        most significant. */
    method AddUncounted(x: bv8)
      requires Valid()
      modifies this`bufferOffset, this`fed, buffer, state
      ensures Valid() && fed == old(fed) + [x]
    {
      hide WithByte, Compress, Fed;
      ghost var buf, st := buffer[..], state[..];
      buffer[bufferOffset / 4] := WithByte(buffer[bufferOffset / 4], bufferOffset % 4, x);
      assert buffer[..] == buf[bufferOffset / 4 := WithByte(buf[bufferOffset / 4], bufferOffset % 4, x)];
      ghost var buf1 := buffer[..];
      bufferOffset := bufferOffset + 1;
      if bufferOffset == BLOCK {
        HashBlock();
        bufferOffset := 0;
        FedBlock(st, buf, fed, x, state[..], buffer[..]);
      } else {
        FedMore(st, buf, bufferOffset - 1, fed, x);
      }
      fed := fed + [x];
    }

    method WriteByte(x: bv8)
      requires Valid()
      modifies this`bufferOffset, this`fed, this`byteCount, buffer, state
      ensures Valid() && fed == old(fed) + [x] && byteCount == (old(byteCount) + 1) % 0x1_0000_0000
    {
      byteCount := (byteCount + 1) % 0x1_0000_0000;
      AddUncounted(x);
    }

    /** sha1_write */
    method Write(data: seq<bv8>)
      requires Valid()
      modifies this`bufferOffset, this`fed, this`byteCount, buffer, state
      ensures Valid() && fed == old(fed) + data && byteCount == (old(byteCount) + |data|) % 0x1_0000_0000
    {
      hide Fed;
      var i := 0;
      while i < |data|
        invariant 0 <= i <= |data| && Valid() && fed == old(fed) + data[..i]
        invariant byteCount == (old(byteCount) + i) % 0x1_0000_0000
      {
        WriteByte(data[i]);
        i := i + 1;
        assert data[..i] == data[..i - 1] + [data[i - 1]];
      }
      assert data[..i] == data;
    }

    /** sha1_pad, after a message of byteCount bytes. */
    method Pad()
      requires Valid() && byteCount == |fed| < 0x1_0000_0000
      modifies this`bufferOffset, this`fed, buffer, state
      ensures Valid() && fed == old(fed) + Padding(byteCount)
    {
      hide Fed, Zeros, ByteOf;
      ghost var msg, n := fed, 0;
      ghost var k := (119 - |msg| % 64) % 64;
      OffsetIs();
      AddUncounted(0x80);
      OffsetIs();
      ZerosNext(0);
      PadStart(|msg|);
      while bufferOffset != 56
        invariant Valid() && 0 <= n <= k && fed == msg + [0x80] + Zeros(n) && bufferOffset == (|msg| + 1 + n) % 64
        decreases k - n
      {
        PadGoesOn(|msg|, n);
        AddUncounted(0);
        n := n + 1;
        ZerosNext(n - 1);
        OffsetIs();
      }
      PadEnds(|msg|, n);
      AddLength(byteCount);
      assert msg + [0x80] + Zeros(k) + Length(8 * |msg|) == msg + Padding(|msg|);
    }

    /** sha1_result: pads, swaps the bytes of the state, and points at it, least significant byte of
        each word first. */
    method Result() returns (hash: seq<bv8>)
      requires Valid() && byteCount == |fed|
      modifies this`bufferOffset, this`fed, buffer, state
      ensures hash == Digest(old(fed))
    {
      hide Fed, Padding, Swapped, Blocks;
      Pad();
      StateIs(state[..], buffer[..], bufferOffset, fed);
      ghost var h := state[..];
      var i := 0;
      while i < 5
        invariant 0 <= i <= 5
        invariant forall j :: 0 <= j < 5 ==> state[j] == if j < i then Swapped(h[j]) else h[j]
      {
        state[i] := Swapped(state[i]);
        i := i + 1;
      }
      SwappedBytes(h[0]);
      SwappedBytes(h[1]);
      SwappedBytes(h[2]);
      SwappedBytes(h[3]);
      SwappedBytes(h[4]);
      hash := InMemory(state[0]) + InMemory(state[1]) + InMemory(state[2]) + InMemory(state[3]) + InMemory(state[4]);
    }

    lemma OffsetIs()
      requires Valid()
      ensures bufferOffset == |fed| % 64
    {
    }

    /** The last eight bytes: the count of bytes, shifted to count bits. */
    method AddLength(count: nat)
      requires Valid() && count < 0x1_0000_0000
      modifies this`bufferOffset, this`fed, buffer, state
      ensures Valid() && fed == old(fed) + Length(8 * count)
    {
      hide Fed, ByteOf;
      LengthBytes(count);
      AddUncounted(0);
      AddUncounted(0);
      AddUncounted(0);
      AddUncounted(ByteOf(count, 0x2000_0000));
      AddUncounted(ByteOf(count, 0x20_0000));
      AddUncounted(ByteOf(count, 0x2000));
      AddUncounted(ByteOf(count, 0x20));
      AddUncounted(ByteOf(count * 8, 1));
    }
  }

  lemma ZerosNext(n: nat)
    ensures Zeros(0) == [] && Zeros(n + 1) == Zeros(n) + [0]
  {
  }

  lemma PadStart(len: nat)
    ensures (len % 64 + 1) % 64 == (len + 1) % 64
  {
  }

  /** As long as the offset is not 56, more zeros are due. */
  lemma PadGoesOn(len: nat, n: nat)
    requires n <= (119 - len % 64) % 64 && (len + 1 + n) % 64 != 56
    ensures n < (119 - len % 64) % 64
  {
    PadFills(len);
  }

  lemma PadEnds(len: nat, n: nat)
    requires n <= (119 - len % 64) % 64 && (len + 1 + n) % 64 == 56
    ensures n == (119 - len % 64) % 64
  {
    PadFills(len);
  }

  lemma LengthBytes(count: nat)
    requires count < 0x1_0000_0000
    ensures Length(8 * count) == [0, 0, 0, ByteOf(count, 0x2000_0000), ByteOf(count, 0x20_0000), ByteOf(count, 0x2000),
                                  ByteOf(count, 0x20), ByteOf(count * 8, 1)]
  {
    ShiftThree(count);
    var b := 8 * count;
    assert b / 0x100_0000_0000_0000 == 0 && b / 0x1_0000_0000_0000 == 0 && b / 0x100_0000_0000 == 0;
  }

  lemma ShiftThree(count: nat)
    ensures 8 * count / 0x1_0000_0000 == count / 0x2000_0000 && 8 * count / 0x100_0000 == count / 0x20_0000
    ensures 8 * count / 0x1_0000 == count / 0x2000 && 8 * count / 0x100 == count / 0x20
  {
  }

  lemma FedMore(state: seq<bv32>, buf: seq<bv32>, offset: nat, fed: seq<bv8>, x: bv8)
    requires Fed(state, buf, offset, fed) && offset < 63
    ensures Fed(state, buf[offset / 4 := WithByte(buf[offset / 4], offset % 4, x)], offset + 1, fed + [x])
  {
    hide WithByte, Blocks, Vals;
    var tail := fed[|fed| - offset..];
    BufferedMore(buf, tail, x);
    assert (fed + [x])[|fed| - offset..] == tail + [x];
    assert (fed + [x])[..|fed| - offset] == fed[..|fed| - offset];
  }

  lemma FedBlock(state: seq<bv32>, buf: seq<bv32>, fed: seq<bv8>, x: bv8, state': seq<bv32>, buf': seq<bv32>)
    requires Fed(state, buf, 63, fed) && |buf| == 16 && |state'| == 5 && |buf'| == 16
    requires Vals(state') == Compress(Vals(state), buf[63 / 4 := WithByte(buf[63 / 4], 63 % 4, x)])
    ensures Fed(state', buf', 0, fed + [x])
  {
    hide WithByte, Vals, Compress, Words;
    hide Blocks, Buffered;
    var all, head, tail := fed + [x], fed[..|fed| - 63], fed[|fed| - 63..];
    BufferedMore(buf, tail, x);
    BufferedFull(buf[63 / 4 := WithByte(buf[63 / 4], 63 % 4, x)], tail + [x]);
    BlocksNext(head, tail + [x]);
    assert all == head + (tail + [x]);
    assert all[..|all|] == all && all[|all|..] == [];
    NoneBuffered(buf');
  }

  lemma NoneBuffered(buf: seq<bv32>)
    requires |buf| == 16
    ensures Buffered(buf, [])
  {
  }

  lemma BlocksNext(head: seq<bv8>, block: seq<bv8>)
    requires |head| % BLOCK == 0 && |block| == BLOCK
    ensures |head + block| % BLOCK == 0 && Blocks(INITIAL, head + block) == Compress(Blocks(INITIAL, head), Words(block))
  {
    hide Compress, Words;
    var all := head + block;
    assert all[..|all| - BLOCK] == head && all[|all| - BLOCK..] == block;
  }

  /** The new first word of a round, as the code adds it up. */
  function Mixed(i: nat, a: bv32, b: bv32, c: bv32, d: bv32, e: bv32, w: bv32): bv32 {
    Added(Choose(i, b, c, d), K(i), Rotl5(a), e, w)
  }

  lemma RoundsStart(h: Vars, m: seq<bv32>)
    requires |m| == 16
    ensures Rounds(h, m, 0) == h
  {
  }

  lemma RoundsNext(h: Vars, m: seq<bv32>, i: nat)
    requires |m| == 16
    ensures var v := Rounds(h, m, i);
            Rounds(h, m, i + 1) == Vars(Mixed(i, v.a, v.b, v.c, v.d, v.e, W(m, i)), v.a, Rotl30(v.b), v.c, v.d)
  {
    hide Choose, K, W, F, Rotl5, Rotl30, Added, Sum;
    var v := Rounds(h, m, i);
    ChooseIsF(i, v.b, v.c, v.d);
    SumOrder(F(i, v.b, v.c, v.d), K(i), Rotl5(v.a), v.e, W(m, i));
  }

  lemma InPlace(buf: seq<bv32>, m: seq<bv32>, i: nat)
    requires Rolling(buf, m, if i < 16 then 16 else i + 1)
    ensures buf[i % 16] == W(m, i)
  {
  }

  ghost predicate Fed(state: seq<bv32>, buf: seq<bv32>, offset: nat, fed: seq<bv8>) {
    && |state| == 5 && offset == |fed| % 64
    && Vals(state) == Blocks(INITIAL, fed[..|fed| - offset]) && Buffered(buf, fed[|fed| - offset..])
  }

  // ---------------------------------------------------------------- the digest

  function Swapped(w: bv32): bv32 {
    ((w << 24) & 0xff000000) | ((w << 8) & 0x00ff0000) | ((w >> 8) & 0x0000ff00) | ((w >> 24) & 0x000000ff)
  }

  /** A word's bytes in a little-endian memory. */
  function InMemory(w: bv32): seq<bv8> {
    [Byte3(w), Byte2(w), Byte1(w), Byte0(w)]
  }

  lemma SwappedBytes(w: bv32)
    ensures InMemory(Swapped(w)) == Bytes(w)
  {
    SwapEach(w);
  }

  lemma SwapEach(w: bv32)
    ensures Byte3(Swapped(w)) == ((w >> 24) & 0xff) as bv8
    ensures Byte2(Swapped(w)) == ((w >> 16) & 0xff) as bv8
    ensures Byte1(Swapped(w)) == ((w >> 8) & 0xff) as bv8
    ensures Byte0(Swapped(w)) == (w & 0xff) as bv8
  {
  }

  lemma StateIs(state: seq<bv32>, buf: seq<bv32>, offset: nat, fed: seq<bv8>)
    requires Fed(state, buf, offset, fed) && |fed| % BLOCK == 0
    ensures Vals(state) == Blocks(INITIAL, fed)
  {
    hide Blocks, Buffered, Vals;
    assert fed[..|fed|] == fed;
  }

  function Flatten(pieces: seq<seq<bv8>>): (s: seq<bv8>) {
    if pieces == [] then [] else Flatten(pieces[..|pieces| - 1]) + pieces[|pieces| - 1]
  }

  lemma {:induction false} FlattenGrows(pieces: seq<seq<bv8>>, n: nat)
    requires n <= |pieces|
    ensures |Flatten(pieces[..n])| <= |Flatten(pieces)|
    decreases |pieces|
  {
    if n < |pieces| {
      FlattenGrows(pieces[..|pieces| - 1], n);
      assert pieces[..|pieces| - 1][..n] == pieces[..n];
    } else {
      assert pieces[..n] == pieces;
    }
  }

  /** Streaming: however a message under 2^32 bytes is cut into writes, the result is the digest of
      the whole. */
  method HashPieces(pieces: seq<seq<bv8>>) returns (hash: seq<bv8>)
    requires |Flatten(pieces)| < 0x1_0000_0000
    ensures hash == Digest(Flatten(pieces))
  {
    hide Digest, Fed;
    var h := new Hash();
    var i := 0;
    while i < |pieces|
      invariant 0 <= i <= |pieces| && h.Valid() && h.fed == Flatten(pieces[..i]) && h.byteCount == |h.fed|
      invariant fresh(h) && fresh(h.buffer) && fresh(h.state)
    {
      FlattenGrows(pieces, i + 1);
      assert pieces[..i + 1][..i] == pieces[..i];
      h.Write(pieces[i]);
      i := i + 1;
    }
    assert pieces[..i] == pieces;
    hash := h.Result();
  }
}
