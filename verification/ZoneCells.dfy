/** A parity zone in memory: cells of p bytes, three to a slice, and the receiver's copying and
    XOR-ing between them (the macros of outernet_rx_lane_update_parity_zone). */
module ZoneCells {
  import opened Bits
  import opened Parity

  lemma MulMono(a: nat, b: nat, p: nat)
    requires a <= b
    ensures a * p <= b * p
  {
  }

  lemma CellRange(c: nat, n: nat, p: nat)
    requires c < n
    ensures (c + 1) * p == c * p + p && c * p + p <= n * p
  {
    MulMono(c + 1, n, p);
  }

  /** Cell c of n. */
  function Get(s: seq<byte>, p: nat, n: nat, c: nat): (v: seq<byte>)
    requires c < n && n * p <= |s|
    ensures |v| == p
  {
    CellRange(c, n, p);
    s[c * p..c * p + p]
  }

  /** t is s but for cell c, which holds v. */
  ghost predicate IsSet(s: seq<byte>, t: seq<byte>, p: nat, n: nat, c: nat, v: seq<byte>)
    requires n * p <= |s|
  {
    && |t| == |s| && c < n && |v| == p
    && Get(t, p, n, c) == v
    && (forall d :: 0 <= d < n && d != c ==> Get(t, p, n, d) == Get(s, p, n, d))
    && t[n * p..] == s[n * p..]
  }

  /** Writing exactly a cell's bytes sets that cell. */
  lemma WroteCell(s: seq<byte>, t: seq<byte>, p: nat, n: nat, c: nat, v: seq<byte>)
    requires |t| == |s| && n * p <= |s| && c < n && |v| == p && c * p + p <= |s|
    requires t[..c * p] == s[..c * p] && t[c * p..c * p + p] == v && t[c * p + p..] == s[c * p + p..]
    ensures IsSet(s, t, p, n, c, v)
  {
    CellRange(c, n, p);
    SameTail(s, t, c * p + p, n * p);
    forall d | 0 <= d < n && d != c
      ensures Get(t, p, n, d) == Get(s, p, n, d)
    {
      CellRange(d, n, p);
      if d < c {
        CellRange(d, c, p);
        SameHead(s, t, c * p, d * p, p);
      } else {
        CellRange(c, d, p);
        SameAfter(s, t, c * p + p, d * p, p);
      }
    }
  }

  lemma SameTail(s: seq<byte>, t: seq<byte>, a: nat, b: nat)
    requires |t| == |s| && a <= b <= |s| && t[a..] == s[a..]
    ensures t[b..] == s[b..]
  {
    assert t[b..] == t[a..][b - a..] && s[b..] == s[a..][b - a..];
  }

  lemma SameHead(s: seq<byte>, t: seq<byte>, a: nat, b: nat, k: nat)
    requires |t| == |s| && b + k <= a <= |s| && t[..a] == s[..a]
    ensures t[b..b + k] == s[b..b + k]
  {
    assert t[b..b + k] == t[..a][b..b + k] && s[b..b + k] == s[..a][b..b + k];
  }

  lemma SameAfter(s: seq<byte>, t: seq<byte>, a: nat, b: nat, k: nat)
    requires |t| == |s| && a <= b && b + k <= |s| && t[a..] == s[a..]
    ensures t[b..b + k] == s[b..b + k]
  {
    assert t[b..b + k] == t[a..][b - a..b - a + k] && s[b..b + k] == s[a..][b - a..b - a + k];
  }

  /** Sequences with the same cells and the same rest are the same. */
  lemma {:induction false} SameCells(s: seq<byte>, t: seq<byte>, p: nat, n: nat, c: nat)
    requires |t| == |s| && n * p <= |s| && c <= n && c * p <= |s|
    requires forall d :: 0 <= d < n ==> Get(t, p, n, d) == Get(s, p, n, d)
    requires t[c * p..] == s[c * p..]
    ensures t == s
    decreases c
  {
    hide Get;
    if c == 0 {
      assert t == t[0..] && s == s[0..];
    } else {
      GetIs(s, p, n, c - 1);
      GetIs(t, p, n, c - 1);
      JoinTail(s, t, (c - 1) * p, p);
      SameCells(s, t, p, n, c - 1);
    }
  }

  lemma GetIs(s: seq<byte>, p: nat, n: nat, c: nat)
    requires c < n && n * p <= |s|
    ensures c * p + p == (c + 1) * p <= |s| && Get(s, p, n, c) == s[c * p..c * p + p]
  {
    CellRange(c, n, p);
  }

  lemma JoinTail(s: seq<byte>, t: seq<byte>, k: nat, p: nat)
    requires |t| == |s| && k + p <= |s| && t[k..k + p] == s[k..k + p] && t[k + p..] == s[k + p..]
    ensures t[k..] == s[k..]
  {
    assert t[k..] == t[k..k + p] + t[k + p..];
    assert s[k..] == s[k..k + p] + s[k + p..];
  }

  // ---------------------------------------------------------------- COPY and XOR

  /** COPY: a stripe into a cell. */
  method CopyCell(from: array<byte>, m: nat, k: nat, to: array<byte>, n: nat, c: nat, p: nat)
    requires from != to && k < m && m * p <= from.Length && c < n && n * p <= to.Length
    modifies to
    ensures IsSet(old(to[..]), to[..], p, n, c, Get(from[..], p, m, k))
  {
    ghost var s := to[..];
    CellRange(c, n, p);
    CellRange(k, m, p);
    var a, b := c * p, k * p;
    var i := 0;
    while i < p
      invariant 0 <= i <= p
      invariant to[..a] == s[..a] && to[a + p..] == s[a + p..] && to[a..a + i] == from[b..b + i]
    {
      to[a + i] := from[b + i];
      i := i + 1;
      assert to[a..a + i] == to[a..a + i - 1] + [to[a + i - 1]];
      assert from[b..b + i] == from[b..b + i - 1] + [from[b + i - 1]];
    }
    WroteCell(s, to[..], p, n, c, Get(from[..], p, m, k));
  }

  /** The XOR loop, between stretches apart. */
  method XorBytes(z: array<byte>, a: nat, b: nat, p: nat)
    requires a + p <= z.Length && b + p <= z.Length && (a + p <= b || b + p <= a)
    modifies z
    ensures z[..a] == old(z[..a]) && z[a + p..] == old(z[a + p..])
    ensures z[a..a + p] == XorSeq(old(z[a..a + p]), old(z[b..b + p]))
  {
    hide XorByte, XorSeq;
    ghost var s := z[..];
    var i := 0;
    while i < p
      invariant 0 <= i <= p
      invariant forall q :: 0 <= q < z.Length && !(a <= q < a + i) ==> z[q] == s[q]
      invariant forall q :: a <= q < a + i ==> z[q] == XorByte(s[q], s[q - a + b])
    {
      z[a + i] := XorByte(z[a + i], z[b + i]);
      i := i + 1;
    }
    Xored(s, z[..], a, b, p);
    assert s == old(z[..]);
  }

  lemma Xored(s: seq<byte>, z: seq<byte>, a: nat, b: nat, p: nat)
    requires |z| == |s| && a + p <= |s| && b + p <= |s|
    requires forall q :: 0 <= q < |z| && !(a <= q < a + p) ==> z[q] == s[q]
    requires forall q :: a <= q < a + p ==> z[q] == XorByte(s[q], s[q - a + b])
    ensures z[..a] == s[..a] && z[a + p..] == s[a + p..] && z[a..a + p] == XorSeq(s[a..a + p], s[b..b + p])
  {
    hide XorByte;
  }

  /** XOR: one cell onto another. */
  method XorCell(z: array<byte>, n: nat, from: nat, onto: nat, p: nat)
    requires from < n && onto < n && from != onto && n * p <= z.Length
    modifies z
    ensures IsSet(old(z[..]), z[..], p, n, onto, XorSeq(Get(old(z[..]), p, n, onto), Get(old(z[..]), p, n, from)))
  {
    hide XorSeq;
    ghost var s := z[..];
    CellRange(from, n, p);
    CellRange(onto, n, p);
    if from < onto { CellRange(from, onto, p); } else { CellRange(onto, from, p); }
    XorBytes(z, onto * p, from * p, p);
    WroteCell(s, z[..], p, n, onto, XorSeq(Get(s, p, n, onto), Get(s, p, n, from)));
  }
}
