/** The inflate side's three ways to copy a match (tinfl_decompress, lines 1617 to 1670):
    byte by byte with wrapped indices, eight bytes at a time, and three at a time. */
module CopyPaths {
  import opened Bits
  import opened Tokens

  /** One byte at a time, each read after the writes before it, with indices wrapped to the
      buffer: what a match means. */
  function RingCopy(s: seq<byte>, cur: nat, len: nat, dist: nat): (r: seq<byte>)
    requires cur + len <= |s|
    ensures |r| == |s|
    decreases len
  {
    if len == 0 then s else RingCopy(s[cur := s[(cur - dist) % |s|]], cur + 1, len - 1, dist)
  }

  /** The same with a plain source index. */
  function LinearCopy(s: seq<byte>, cur: nat, src: nat, len: nat): (r: seq<byte>)
    requires cur + len <= |s| && src + len <= |s|
    ensures |r| == |s|
    decreases len
  {
    if len == 0 then s else LinearCopy(s[cur := s[src]], cur + 1, src + 1, len - 1)
  }

  lemma WrapStep(x: int, n: nat)
    requires n > 0 && x % n + 1 < n
    ensures (x + 1) % n == x % n + 1
  {
    var q, r := x / n, x % n;
    assert x + 1 == q * n + (r + 1);
    QuotientUnique(n, (x + 1) / n, (x + 1) % n, q, r + 1);
  }

  /** While the source does not run off the end, wrapping changes nothing after the start. */
  lemma {:induction false} RingIsLinear(s: seq<byte>, cur: nat, len: nat, dist: nat)
    requires 0 < |s| && cur + len <= |s| && (cur - dist) % |s| + len <= |s|
    ensures RingCopy(s, cur, len, dist) == LinearCopy(s, cur, (cur - dist) % |s|, len)
    decreases len
  {
    if len > 0 {
      var src := (cur - dist) % |s|;
      if len > 1 {
        WrapStep(cur - dist, |s|);
        RingIsLinear(s[cur := s[src]], cur + 1, len - 1, dist);
      } else {
        var t := s[cur := s[src]];
        assert RingCopy(t, cur + 1, 0, dist) == t;
        assert LinearCopy(t, cur + 1, src + 1, 0) == t;
      }
    }
  }

  lemma {:induction false} LinearSplit(s: seq<byte>, cur: nat, src: nat, a: nat, b: nat)
    requires cur + a + b <= |s| && src + a + b <= |s|
    ensures LinearCopy(s, cur, src, a + b) == LinearCopy(LinearCopy(s, cur, src, a), cur + a, src + a, b)
    decreases a
  {
    if a > 0 { LinearSplit(s[cur := s[src]], cur + 1, src + 1, a - 1, b); }
  }

  /** In a buffer that does not wrap this is the LZ77 copy of the format. */
  lemma {:induction false} RingIsLz(s: seq<byte>, cur: nat, len: nat, dist: nat)
    requires 1 <= dist <= cur && cur + len <= |s|
    ensures RingCopy(s, cur, len, dist)[..cur + len] == LzCopy(s[..cur], len, dist)
    decreases len
  {
    if len > 0 {
      var b := s[cur - dist];
      assert (cur - dist) % |s| == cur - dist;
      var t := s[cur := b];
      RingIsLz(t, cur + 1, len - 1, dist);
      assert t[..cur + 1] == s[..cur] + [b];
    }
  }

  /** How much of a copy there is room for. */
  function Fitting(size: nat, cur: nat, len: nat): nat
    requires cur <= size
  {
    if cur + len <= size then len else size - cur
  }

  /** The byte loop, for copies that may reach past the end of the buffer, where it stops and waits. A
      copy taken up again at the start of the buffer still counts its source on from the end. */
  method CopyWrapped(buf: array<byte>, cur: nat, source: nat, len: nat, dist: nat) returns (left: nat)
    requires cur <= buf.Length && (source == cur || (cur == 0 && source == buf.Length))
    modifies buf
    ensures left == len - Fitting(buf.Length, cur, len)
    ensures buf[..] == RingCopy(old(buf[..]), cur, len - left, dist)
  {
    hide RingCopy;
    var at, from := cur, source;
    left := len;
    ghost var fitting := Fitting(buf.Length, cur, len);
    while left > 0
      invariant len - fitting <= left <= len && at == cur + (len - left) && from == source + (len - left)
      invariant RingCopy(buf[..], at, left - (len - fitting), dist) == RingCopy(old(buf[..]), cur, fitting, dist)
    {
      if at >= buf.Length { break; }
      ghost var s := buf[..];
      RingOne(s, at, left - (len - fitting), dist);
      SameTurn(at - dist, from - dist, buf.Length);
      buf[at] := buf[(from - dist) % buf.Length];
      assert buf[..] == s[at := s[(at - dist) % |s|]];
      at, from, left := at + 1, from + 1, left - 1;
    }
    RingNone(buf[..], at, dist);
  }

  lemma SameTurn(a: int, b: int, n: nat)
    requires n > 0 && (b == a || b == a + n)
    ensures a % n == b % n
  {
    if b == a + n { QuotientUnique(n, b / n, b % n, a / n + 1, a % n); }
  }

  lemma RingOne(s: seq<byte>, cur: nat, len: nat, dist: nat)
    requires len > 0 && cur + len <= |s|
    ensures RingCopy(s, cur, len, dist) == RingCopy(s[cur := s[(cur - dist) % |s|]], cur + 1, len - 1, dist)
  {
  }

  lemma RingNone(s: seq<byte>, cur: nat, dist: nat)
    requires cur <= |s|
    ensures RingCopy(s, cur, 0, dist) == s
  {
  }

  /** One, two or three bytes in order. */
  method CopyUpToThree(buf: array<byte>, cur: nat, src: nat, n: nat)
    requires n <= 3 && cur + n <= buf.Length && src + n <= buf.Length
    modifies buf
    ensures buf[..] == LinearCopy(old(buf[..]), cur, src, n)
  {
    var k := 0;
    while k < n
      invariant k <= n
      invariant LinearCopy(buf[..], cur + k, src + k, n - k) == LinearCopy(old(buf[..]), cur, src, n)
    {
      ghost var s := buf[..];
      buf[cur + k] := buf[src + k];
      assert buf[..] == s[cur + k := s[src + k]];
      k := k + 1;
    }
  }

  /** The three-byte loop, and the one or two bytes it leaves. */
  method CopyByThrees(buf: array<byte>, cur: nat, src: nat, len: nat)
    requires len >= 3 && cur + len <= buf.Length && src + len <= buf.Length
    modifies buf
    ensures buf[..] == LinearCopy(old(buf[..]), cur, src, len)
  {
    var at, from, counter := cur, src, len;
    CopyUpToThree(buf, at, from, 3);
    LinearSplit(old(buf[..]), cur, src, 3, len - 3);
    at, from, counter := at + 3, from + 3, counter - 3;
    while counter > 2
      invariant 0 <= counter <= len && at == cur + (len - counter) && from == src + (len - counter)
      invariant LinearCopy(buf[..], at, from, counter) == LinearCopy(old(buf[..]), cur, src, len)
    {
      LinearSplit(buf[..], at, from, 3, counter - 3);
      CopyUpToThree(buf, at, from, 3);
      at, from, counter := at + 3, from + 3, counter - 3;
    }
    if counter > 0 { CopyUpToThree(buf, at, from, counter); }
  }

  /** Four bytes loaded before any is stored: the same, when no store reaches a later load. */
  method CopyFour(buf: array<byte>, cur: nat, src: nat)
    requires cur + 4 <= buf.Length && src + 4 <= buf.Length && (src + 4 <= cur || cur <= src)
    modifies buf
    ensures buf[..] == LinearCopy(old(buf[..]), cur, src, 4)
  {
    ghost var s := buf[..];
    FourIsLinear(s, cur, src);
    var b0, b1, b2, b3 := buf[src], buf[src + 1], buf[src + 2], buf[src + 3];
    buf[cur], buf[cur + 1], buf[cur + 2], buf[cur + 3] := b0, b1, b2, b3;
    assert buf[..] == s[cur := b0][cur + 1 := b1][cur + 2 := b2][cur + 3 := b3];
  }

  lemma FourIsLinear(s: seq<byte>, cur: nat, src: nat)
    requires cur + 4 <= |s| && src + 4 <= |s| && (src + 4 <= cur || cur <= src)
    ensures LinearCopy(s, cur, src, 4)
         == s[cur := s[src]][cur + 1 := s[src + 1]][cur + 2 := s[src + 2]][cur + 3 := s[src + 3]]
  {
    var a := s[cur := s[src]];
    var b := a[cur + 1 := a[src + 1]];
    var c := b[cur + 2 := b[src + 2]];
    var d := c[cur + 3 := c[src + 3]];
    LinearOne(s, cur, src, 4);
    LinearOne(a, cur + 1, src + 1, 3);
    LinearOne(b, cur + 2, src + 2, 2);
    LinearOne(c, cur + 3, src + 3, 1);
    assert LinearCopy(d, cur + 4, src + 4, 0) == d;
  }

  lemma LinearOne(s: seq<byte>, cur: nat, src: nat, len: nat)
    requires len > 0 && cur + len <= |s| && src + len <= |s|
    ensures LinearCopy(s, cur, src, len) == LinearCopy(s[cur := s[src]], cur + 1, src + 1, len - 1)
  {
  }

  /** The eight-byte path: blocks of two words, then fewer than three bytes, or the
      three-byte loop for the rest. */
  method CopyByEights(buf: array<byte>, cur: nat, src: nat, len: nat)
    requires len >= 9 && cur + len <= buf.Length && src + len <= buf.Length
    requires src + len <= cur || cur <= src
    modifies buf
    ensures buf[..] == LinearCopy(old(buf[..]), cur, src, len)
  {
    hide LinearCopy;
    var at, from := cur, src;
    var end := src + len / 8 * 8;
    ghost var left := len;
    while from < end
      invariant src <= from <= end && (end - from) % 8 == 0 && left == len - (from - src) && at == cur + (from - src)
      invariant LinearCopy(buf[..], at, from, left) == LinearCopy(old(buf[..]), cur, src, len)
      decreases end - from
    {
      LinearSplit(buf[..], at, from, 4, left - 4);
      CopyFour(buf, at, from);
      LinearSplit(buf[..], at + 4, from + 4, 4, left - 8);
      CopyFour(buf, at + 4, from + 4);
      at, from, left := at + 8, from + 8, left - 8;
    }
    var counter := len % 8;
    assert left == counter;
    if counter < 3 {
      CopyUpToThree(buf, at, from, counter);
    } else {
      CopyByThrees(buf, at, from, counter);
    }
  }

  /** The whole choice of path: whatever is taken, the result is the one-byte-at-a-time copy of as much
      as there is room for. */
  method CopyMatch(buf: array<byte>, cur: nat, len: nat, dist: nat) returns (left: nat)
    requires MIN_MATCH <= len && cur <= buf.Length && 1 <= dist <= buf.Length
    modifies buf
    ensures left == len - Fitting(buf.Length, cur, len)
    ensures buf[..] == RingCopy(old(buf[..]), cur, len - left, dist)
  {
    var src := (cur - dist) % buf.Length;
    left := 0;
    if (if cur > src then cur else src) + len > buf.Length {
      left := CopyWrapped(buf, cur, cur, len, dist);
    } else {
      RingIsLinear(buf[..], cur, len, dist);
      SourceSide(cur, dist, buf.Length);
      if len >= 9 && len <= dist {
        CopyByEights(buf, cur, src, len);
      } else {
        CopyByThrees(buf, cur, src, len);
      }
    }
  }

  /** State 53: the room has been emptied, and the copy goes on from the start of the buffer. */
  method CopyRest(buf: array<byte>, len: nat, dist: nat) returns (left: nat)
    requires 1 <= dist <= buf.Length
    modifies buf
    ensures left == len - Fitting(buf.Length, 0, len)
    ensures buf[..] == RingCopy(old(buf[..]), 0, len - left, dist)
  {
    left := CopyWrapped(buf, 0, buf.Length, len, dist);
  }

  /** The source starts dist bytes back, or, wrapped, at or after the destination. */
  lemma SourceSide(cur: nat, dist: nat, n: nat)
    requires cur < n && 1 <= dist <= n
    ensures (cur - dist) % n == if dist <= cur then cur - dist else cur - dist + n
  {
    if dist <= cur {
      QuotientUnique(n, (cur - dist) / n, (cur - dist) % n, 0, cur - dist);
    } else {
      QuotientUnique(n, (cur - dist) / n, (cur - dist) % n, -1, cur - dist + n);
    }
  }
}
