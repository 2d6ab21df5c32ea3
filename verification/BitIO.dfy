/** Bits to bytes and back: the compressor's bit buffer (TDEFL_PUT_BITS) and the
    decompressor's (TINFL_GET_BITS and TINFL_HUFF_DECODE). */
module BitIO {
  import opened Bits
  import opened Windows
  import opened Canonical
  import opened InflateTable
  import opened InflateBuild

  /** The compressor's output: bytes already stored, and fewer than eight bits waiting.
      Bytes that find no room below `limit` are dropped, which leaves pos == limit. */
  class BitWriter {
    var buffer: nat
    var bitsIn: nat
    const out: array<byte>
    var pos: nat
    const limit: nat
    ghost var bits: seq<bool>  // all bits put since the buffer was last empty

    constructor (size: nat, limit: nat)
      requires 0 < limit <= size
      ensures Valid() && fresh(out) && bits == [] && this.limit == limit
    {
      out := new byte[size](_ => 0);
      this.limit := limit;
      buffer, bitsIn, pos, bits := 0, 0, 0, [];
    }

    ghost predicate Valid()
      reads this, out
    {
      && bitsIn < 8 && Holding()
    }

    /** Up to the room, what was stored are the first bits put; what waits are the last. */
    ghost predicate Holding()
      reads this, out
    {
      && bitsIn <= 23 && buffer < Pow2(bitsIn) && bitsIn <= |bits| && (|bits| - bitsIn) % 8 == 0
      && 0 < limit <= out.Length && pos == (if (|bits| - bitsIn) / 8 < limit then (|bits| - bitsIn) / 8 else limit)
      && LowBits(buffer, bitsIn) == bits[|bits| - bitsIn..]
      && ByteBits(out[..pos]) == bits[..8 * pos]
    }

    /** TDEFL_PUT_BITS: the buffer's bits and the new ones do not overlap, so | adds. */
    method PutBits(b: nat, l: nat)
      requires Valid() && b < Pow2(l) && l <= 16
      modifies this, out
      ensures Valid() && bits == old(bits) + LowBits(b, l)
    {
      hide LowBits, ByteBits, Pow2;
      LowBitsConcat(buffer, bitsIn, b, l);
      JoinBound(buffer, bitsIn, b, l);
      AppendWaiting(bits, bitsIn, LowBits(b, l), pos);
      buffer := buffer + b * Pow2(bitsIn);
      bitsIn := bitsIn + l;
      bits := bits + LowBits(b, l);
      while bitsIn >= 8
        invariant Holding() && bits == old(bits) + LowBits(b, l)
        decreases bitsIn
      {
        Store();
      }
    }

    /** Moves the low eight bits to the output. */
    method Store()
      requires Holding() && bitsIn >= 8
      modifies this, out
      ensures Holding() && bitsIn == old(bitsIn) - 8 && bits == old(bits)
    {
      hide LowBits, ByteBits, Pow2, Low;
      StoreBits(buffer, bitsIn);
      StoredByte(bits, bitsIn, LowBits(buffer % 256, 8), LowBits(buffer / 256, bitsIn - 8));
      if pos < limit {
        ghost var stored := out[..pos];
        ByteBitsAppend(stored, [buffer % 256]);
        OneByteBits(buffer % 256);
        out[pos] := buffer % 256;
        pos := pos + 1;
        assert out[..pos] == stored + [buffer % 256];
      }
      buffer := buffer / 256;
      bitsIn := bitsIn - 8;
    }

    /** Starts on an empty buffer, as a flush does; the bits that wait go first. */
    method Restart()
      requires Valid()
      modifies this
      ensures Valid() && pos == 0 && bits == LowBits(buffer, bitsIn)
      ensures buffer == old(buffer) && bitsIn == old(bitsIn)
    {
      pos := 0;
      bits := LowBits(buffer, bitsIn);
      assert out[..0] == [];
    }

    /** Puts back a saved position and the bits that waited there. */
    method Rollback(savedPos: nat, savedBuffer: nat, savedBitsIn: nat, ghost savedBits: seq<bool>)
      requires Valid() && savedBits <= bits && savedBitsIn < 8 && savedBuffer < Pow2(savedBitsIn)
      requires |savedBits| == 8 * savedPos + savedBitsIn && savedPos < limit
      requires LowBits(savedBuffer, savedBitsIn) == savedBits[8 * savedPos..]
      modifies this
      ensures Valid() && bits == savedBits && pos == savedPos && buffer == savedBuffer && bitsIn == savedBitsIn
    {
      hide LowBits, ByteBits, Pow2;
      ByteBitsTake(out[..pos], savedPos);
      assert out[..pos][..savedPos] == out[..savedPos];
      pos, buffer, bitsIn, bits := savedPos, savedBuffer, savedBitsIn, savedBits;
    }

    /** With room left, nothing was dropped. */
    lemma Whole()
      requires Valid() && pos < limit
      ensures |bits| == 8 * pos + bitsIn && ByteBits(out[..pos]) + LowBits(buffer, bitsIn) == bits
    {
    }
  }

  /** More bits wait; what is stored stays. */
  lemma AppendWaiting(bits: seq<bool>, bitsIn: nat, more: seq<bool>, pos: nat)
    requires bitsIn <= |bits| && 8 * pos <= |bits|
    ensures (bits + more)[|bits| - bitsIn..] == bits[|bits| - bitsIn..] + more
    ensures (bits + more)[..8 * pos] == bits[..8 * pos]
  {
  }

  /** The next eight waiting bits follow those stored. */
  lemma StoredByte(bits: seq<bool>, bitsIn: nat, b: seq<bool>, rest: seq<bool>)
    requires 8 <= bitsIn <= |bits| && |b| == 8 && bits[|bits| - bitsIn..] == b + rest
    ensures bits[|bits| - (bitsIn - 8)..] == rest
    ensures bits[..|bits| - bitsIn + 8] == bits[..|bits| - bitsIn] + b
  {
    var k := |bits| - bitsIn;
    assert bits[k..][..8] == b;
    assert bits[k..][8..] == rest;
  }

  lemma {:induction false} ByteBitsTake(s: seq<byte>, k: nat)
    requires k <= |s|
    ensures ByteBits(s[..k]) == ByteBits(s)[..8 * k]
  {
    ByteBitsAppend(s[..k], s[k..]);
    assert s[..k] + s[k..] == s;
  }

  lemma JoinBound(a: nat, n: nat, b: nat, m: nat)
    requires a < Pow2(n) && b < Pow2(m)
    ensures a + b * Pow2(n) < Pow2(n + m)
  {
    Pow2Add(n, m);
    var p, q := Pow2(n), Pow2(m);
    hide Pow2;
    assert (b + 1) * p <= q * p;
    assert b * p + p == (b + 1) * p;
    assert q * p == p * q;
  }

  lemma StoreBits(v: nat, n: nat)
    requires v < Pow2(n) && n >= 8
    ensures LowBits(v, n) == LowBits(v % 256, 8) + LowBits(v / 256, n - 8)
    ensures v / 256 < Pow2(n - 8)
  {
    hide LowBits, Low, Shr, Pow2;
    LowBitsTake(v, 8, n);
    LowIsRemainder(v, 8);
    Pow2Values();
    LowBitsOfLow(v, 8);
    ShrBound(v, 8, n);
  }

  lemma OneByteBits(b: byte)
    ensures ByteBits([b]) == LowBits(b, 8)
  {
    assert ByteBits([b][1..]) == [];
  }

  // ---------------------------------------------------------------- reading

  /** The bit buffer holds a whole code. */
  lemma HeadComplete(buf: nat, numBits: nat, more: seq<bool>, sizes: seq<nat>, s: nat)
    requires Canonical.Fits(sizes) && Uses(sizes, s) && sizes[s] <= numBits
    requires LowBits(Stored(sizes, s), sizes[s]) <= LowBits(buf, numBits) + more
    ensures Begins(sizes, s, buf)
  {
    hide LowBits, Stored, Code, Canonical.Fits, Prefix;
    var w, n := Stored(sizes, s), sizes[s];
    LowBitsTake(buf, n, numBits);
    assert LowBits(buf, n) == (LowBits(buf, numBits) + more)[..n] == LowBits(w, n);
    SameLow(buf, w, n);
    PrefixLow(buf, n, n);
    PrefixLow(w, n, n);
    StoredReads(sizes, s, n);
  }

  /** The bit buffer holds only the first bits of a code. */
  lemma HeadPartial(buf: nat, numBits: nat, more: seq<bool>, sizes: seq<nat>, s: nat)
    requires Uses(sizes, s) && numBits < sizes[s]
    requires LowBits(Stored(sizes, s), sizes[s]) <= LowBits(buf, numBits) + more
    ensures forall d :: 0 <= d <= numBits ==> Prefix(buf, d) == Prefix(Stored(sizes, s), d)
    ensures more != []
  {
    hide LowBits, Stored, Prefix;
    var w, n := Stored(sizes, s), sizes[s];
    LowBitsTake(w, numBits, n);
    assert LowBits(buf, numBits) == (LowBits(buf, numBits) + more)[..n][..numBits] == LowBits(w, n)[..numBits];
    assert LowBits(w, n)[..numBits] == LowBits(w, numBits);
    SameLow(buf, w, numBits);
    forall d | 0 <= d <= numBits
      ensures Prefix(buf, d) == Prefix(w, d)
    {
      PrefixLow(buf, d, numBits);
      PrefixLow(w, d, numBits);
    }
  }

  lemma SameLow(a: nat, b: nat, n: nat)
    requires LowBits(a, n) == LowBits(b, n)
    ensures Low(a, n) == Low(b, n)
  {
    FromLowBits(a, n);
    FromLowBits(b, n);
  }

  /** The decompressor's input: bytes not yet read, and bits read but not used. */
  class BitReader {
    const input: seq<byte>
    var pos: nat
    var buf: nat
    var numBits: nat

    constructor (input: seq<byte>)
      ensures Valid() && this.input == input && pos == 0 && Rest() == ByteBits(input)
    {
      this.input := input;
      pos, buf, numBits := 0, 0, 0;
      new;
      assert input[0..] == input;
      assert LowBits(0, 0) == [];
    }

    ghost predicate Valid()
      reads this
    {
      pos <= |input| && buf < Pow2(numBits) && numBits <= 64
    }

    /** The bits still to come. */
    ghost function Rest(): (r: seq<bool>)
      requires pos <= |input|
      reads this
    {
      LowBits(buf, numBits) + ByteBits(input[pos..])
    }

    /** TINFL_GET_BYTE into the bit buffer; past the end of the input it supplies zeros. */
    method Refill()
      requires Valid() && numBits <= 56
      modifies this
      ensures Valid() && numBits == old(numBits) + 8
      ensures old(pos) < |input| ==> Rest() == old(Rest())
    {
      hide LowBits, ByteBits, Pow2;
      var c: byte := 0;
      if pos < |input| {
        c := input[pos];
        FirstByte(input[pos..]);
        assert input[pos..][1..] == input[pos + 1..];
        pos := pos + 1;
      }
      LowBitsConcat(buf, numBits, c, 8);
      ByteBound(c);
      JoinBound(buf, numBits, c, 8);
      ghost var a, b, r := LowBits(buf, numBits), LowBits(c, 8), ByteBits(input[pos..]);
      assert (a + b) + r == a + (b + r);
      buf := buf + c * Pow2(numBits);
      numBits := numBits + 8;
    }

    /** TINFL_GET_BITS, on input that holds that many bits. */
    method GetBits(n: nat) returns (b: nat)
      requires Valid() && n <= 16
      modifies this
      ensures Valid()
      ensures |old(Rest())| >= n ==> LowBits(b, n) == old(Rest())[..n] && b < Pow2(n) && Rest() == old(Rest())[n..]
    {
      hide LowBits, ByteBits, Pow2, Low, Shr;
      ghost var rest := Rest();
      while numBits < n
        invariant Valid()
        invariant |rest| >= n ==> Rest() == rest
        decreases 64 - numBits
      {
        Refill();
      }
      TakeBits(buf, numBits, n);
      ghost var old_buf, tail := buf, ByteBits(input[pos..]);
      b := Low(buf, n);
      buf := Shr(buf, n);
      numBits := numBits - n;
      assert LowBits(old_buf, numBits + n) + tail == LowBits(b, n) + (LowBits(buf, numBits) + tail);
    }

    /** The stream begins with the code of s, and the table can decode it. */
    ghost predicate AtCode(table: HuffTable, sizes: seq<nat>, s: nat)
      reads this, table, table.lookup, table.tree
    {
      && Valid() && table.Shaped() && Holds(table.View(), sizes, |sizes|, |sizes|)
      && Uses(sizes, s) && sizes[s] <= 15 && LowBits(Stored(sizes, s), sizes[s]) <= Rest()
    }

    /** Whether the bits at hand already decode: one round of TINFL_HUFF_BITBUF_FILL. */
    method Probe(table: HuffTable, ghost sizes: seq<nat>, ghost s: nat) returns (enough: bool)
      requires AtCode(table, sizes, s) && numBits < 15
      ensures enough <==> numBits >= sizes[s]
      ensures !enough ==> pos < |input|
    {
      hide Holds, Stored, LowBits, Prefix, Nodes, Uses;
      ProbeFacts(table.View(), sizes, s, buf, numBits, ByteBits(input[pos..]));
      var temp := table.lookup[buf % FAST_SIZE];
      if temp >= 0 {
        var codeLen := temp / 512;
        enough := codeLen != 0 && numBits >= codeLen;
      } else if numBits > FAST_BITS {
        var sym := table.WalkAvailable(buf, temp, numBits, sizes, s);
        enough := sym >= 0;
      } else {
        enough := false;
      }
    }

    /** TINFL_HUFF_BITBUF_FILL: near the end of the input, a byte at a time until the next
        code is complete, and never a byte more. */
    method FillSlowly(table: HuffTable, ghost sizes: seq<nat>, ghost s: nat)
      requires AtCode(table, sizes, s) && numBits < 15
      modifies this
      ensures AtCode(table, sizes, s) && Rest() == old(Rest())
      ensures sizes[s] <= numBits <= 22
      ensures pos != old(pos) ==> numBits < sizes[s] + 8
    {
      hide Holds, Stored, LowBits;
      var enough := Probe(table, sizes, s);
      while !enough
        invariant AtCode(table, sizes, s) && Rest() == old(Rest()) && numBits <= 22
        invariant enough <==> numBits >= sizes[s] || numBits >= 15
        invariant pos != old(pos) ==> numBits < sizes[s] + 8
        invariant !enough ==> pos < |input|
        decreases 64 - numBits
      {
        Refill();
        if numBits >= 15 {
          enough := true;
        } else {
          enough := Probe(table, sizes, s);
        }
      }
    }

    /** Two bytes at once, while two are left. */
    method FillTwo()
      requires Valid() && numBits < 15 && pos + 2 <= |input|
      modifies this
      ensures Valid() && Rest() == old(Rest()) && 15 <= numBits <= 30
    {
      Refill();
      Refill();
    }

    /** MZ_READ_LE32 into the bit buffer. */
    method FillFour()
      requires Valid() && numBits < 30 && pos + 4 <= |input|
      modifies this
      ensures Valid() && Rest() == old(Rest()) && 32 <= numBits
    {
      Refill();
      Refill();
      Refill();
      Refill();
    }

    /** The lookup and the tree, on a bit buffer that holds the whole code. */
    method TableDecode(table: HuffTable, ghost sizes: seq<nat>, ghost s: nat) returns (sym: nat)
      requires AtCode(table, sizes, s) && numBits >= sizes[s]
      modifies this
      ensures sym == s && Valid() && numBits == old(numBits) - sizes[s]
      ensures Rest() == old(Rest())[sizes[s]..]
    {
      hide Holds, Stored, LowBits, Uses, Begins, Pow2, Shr;
      ghost var rest, more := Rest(), ByteBits(input[pos..]);
      HoldsFits(table.View(), sizes);
      HeadComplete(buf, numBits, more, sizes, s);
      var len;
      sym, len := table.Decode(buf, sizes, s);
      TakeBits(buf, numBits, len);
      ghost var head := LowBits(Low(buf, len), len);
      buf := Shr(buf, len);
      numBits := numBits - len;
      assert rest == head + (LowBits(buf, numBits) + more);
    }

    /** TINFL_HUFF_DECODE: decodes the code at the head of the stream and uses exactly its bits. */
    method HuffDecode(table: HuffTable, ghost sizes: seq<nat>, ghost s: nat) returns (sym: nat)
      requires AtCode(table, sizes, s)
      modifies this
      ensures sym == s && Valid()
      ensures Rest() == old(Rest())[sizes[s]..]
    {
      hide Holds, Stored, LowBits, Uses;
      if numBits < 15 {
        if |input| - pos < 2 { FillSlowly(table, sizes, s); } else { FillTwo(); }
      }
      sym := TableDecode(table, sizes, s);
    }
  }

  lemma ProbeFacts(t: Trie, sizes: seq<nat>, s: nat, buf: nat, numBits: nat, more: seq<bool>)
    requires Holds(t, sizes, |sizes|, |sizes|) && Uses(sizes, s)
    requires LowBits(Stored(sizes, s), sizes[s]) <= LowBits(buf, numBits) + more
    ensures buf % FAST_SIZE < |t.lookup| && Nodes(t.node)
    ensures numBits < sizes[s] ==> more != []
    ensures forall d :: 0 <= d <= numBits && d <= sizes[s] ==> Prefix(buf, d) == Prefix(Stored(sizes, s), d)
    ensures var temp := t.lookup[buf % FAST_SIZE];
            && (temp >= 0 ==> (temp / 512 != 0 && numBits >= temp / 512 <==> numBits >= sizes[s]))
            && (temp < 0 && numBits <= FAST_BITS ==> numBits < sizes[s])
            && (temp < 0 && numBits > FAST_BITS ==>
                  sizes[s] > FAST_BITS && RootLabel(buf) in t.node && temp == Ref(t.node[RootLabel(buf)]))
  {
    SymbolBound(t, sizes, s);
    HoldsFits(t, sizes);
    hide Holds, Stored, LowBits, Prefix, Begins, Canonical.Fits;
    if numBits >= sizes[s] {
      HeadComplete(buf, numBits, more, sizes, s);
      LookupOf(t, sizes, s, buf);
      forall d | 0 <= d <= sizes[s]
        ensures Prefix(buf, d) == Prefix(Stored(sizes, s), d)
      {
        BeginsReads(sizes, s, buf, d);
      }
    } else {
      HeadPartial(buf, numBits, more, sizes, s);
      NoFalseShort(t, sizes, s, buf, numBits);
      if numBits > FAST_BITS { PartialRoot(t, sizes, s, buf, numBits); }
    }
  }

  lemma HoldsFits(t: Trie, sizes: seq<nat>)
    requires Holds(t, sizes, |sizes|, |sizes|)
    ensures Canonical.Fits(sizes)
  {
  }

  /** The lookup when only part of a long code, but ten bits of it, is there. */
  lemma PartialRoot(t: Trie, sizes: seq<nat>, s: nat, buf: nat, numBits: nat)
    requires Holds(t, sizes, |sizes|, |sizes|) && Uses(sizes, s) && FAST_BITS <= numBits < sizes[s]
    requires Prefix(buf, FAST_BITS) == Prefix(Stored(sizes, s), FAST_BITS)
    ensures buf % FAST_SIZE < |t.lookup| && RootLabel(buf) in t.node
    ensures t.lookup[buf % FAST_SIZE] == Ref(t.node[RootLabel(buf)])
  {
    StoredBegins(t, sizes, s);
    hide Holds, Begins, Prefix, Stored;
    LookupOf(t, sizes, s, Stored(sizes, s));
    SameWindow(buf, Stored(sizes, s));
  }

  lemma SameWindow(x: nat, y: nat)
    requires Prefix(x, FAST_BITS) == Prefix(y, FAST_BITS)
    ensures x % FAST_SIZE == y % FAST_SIZE
  {
    LowIsMod(x);
    LowIsMod(y);
    WindowLow(x, FAST_BITS);
    WindowLow(y, FAST_BITS);
    WindowInjective(Low(x, FAST_BITS), Low(y, FAST_BITS));
  }

  /** Nothing shorter than the code at the head is found with only part of it. */
  lemma NoFalseShort(t: Trie, sizes: seq<nat>, s: nat, buf: nat, numBits: nat)
    requires Holds(t, sizes, |sizes|, |sizes|) && Uses(sizes, s) && numBits < sizes[s]
    requires forall d :: 0 <= d <= numBits ==> Prefix(buf, d) == Prefix(Stored(sizes, s), d)
    ensures buf % FAST_SIZE < |t.lookup|
    ensures var temp := t.lookup[buf % FAST_SIZE]; temp > 0 ==> temp / 512 > numBits
  {
    var x := buf % FAST_SIZE;
    LowIsMod(buf);
    if t.lookup[x] > 0 {
      assert FromShort(t.lookup, sizes, |sizes|, x);
      var u :| 0 <= u < |sizes| && 1 <= sizes[u] <= FAST_BITS && Begins(sizes, u, x) && t.lookup[x] == sizes[u] * 512 + u;
      hide Holds, Stored, Code, Prefix;
      WindowLow(buf, sizes[u]);
      if sizes[u] <= numBits { FalseShort(t, sizes, s, u, buf); }
    }
  }

  lemma FalseShort(t: Trie, sizes: seq<nat>, s: nat, u: nat, buf: nat)
    requires Canonical.Fits(sizes) && Uses(sizes, s) && Uses(sizes, u) && sizes[u] < sizes[s] && Begins(sizes, u, buf)
    ensures Prefix(buf, sizes[u]) != Prefix(Stored(sizes, s), sizes[u])
  {
    StoredReads(sizes, s, sizes[s]);
    if Prefix(buf, sizes[u]) == Prefix(Stored(sizes, s), sizes[u]) { BeginsOnce(sizes, s, u, Stored(sizes, s)); }
  }

  lemma FirstByte(s: seq<byte>)
    requires s != []
    ensures ByteBits(s) == LowBits(s[0], 8) + ByteBits(s[1..])
  {
  }

  lemma ByteBound(c: byte)
    ensures c < Pow2(8)
  {
    Pow2Values();
  }

  lemma TakeBits(v: nat, n: nat, k: nat)
    requires v < Pow2(n) && k <= n
    ensures LowBits(v, n) == LowBits(Low(v, k), k) + LowBits(Shr(v, k), n - k)
    ensures Shr(v, k) < Pow2(n - k) && Low(v, k) < Pow2(k)
  {
    LowBitsTake(v, k, n);
    LowBitsOfLow(v, k);
    ShrBound(v, k, n);
  }
}
