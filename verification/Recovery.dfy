/** Recovering a missing slice of a parity zone, as outernet_rx_lane_update_parity_zone does it. */
module Recovery {
  import opened Bits
  import opened Parity
  import opened ZoneCells

  /** Third t of slice j of a zone in memory. */
  function Cell(pz: seq<byte>, p: nat, j: nat, t: nat): (v: seq<byte>)
    requires 12 * p <= |pz| && j < 4 && t < 3
    ensures |v| == p
  {
    Get(pz, p, 12, 3 * j + t)
  }

  /** A stripe with the two other slices that stripe k covers taken out. */
  function Unmask(pz: seq<byte>, p: nat, j: nat, k: nat, stripe: seq<byte>): (v: seq<byte>)
    requires 12 * p <= |pz| && j < 4 && k < 4 && j != k && |stripe| == p
    ensures |v| == p
  {
    var o := Others(j, k);
    XorSeq(XorSeq(stripe, Cell(pz, p, o.0, ThirdIn(o.0, k))), Cell(pz, p, o.1, ThirdIn(o.1, k)))
  }

  /** What the code writes there when slice j is missing: from stripe number t, whichever slice
      that belongs to. */
  function Written(pz: seq<byte>, pb: seq<byte>, p: nat, j: nat, t: nat): (v: seq<byte>)
    requires 12 * p <= |pz| && 4 * p <= |pb| && j < 4 && t < 3
    ensures |v| == p
  {
    Unmask(pz, p, j, StripeOver(j, t), Get(pb, p, 4, t))
  }

  /** After: slice j rewritten, all else as before. */
  ghost predicate Recovers(pz: seq<byte>, pz': seq<byte>, pb: seq<byte>, p: nat, j: nat)
    requires 12 * p <= |pz| && 4 * p <= |pb| && j < 4
  {
    Halfway(pz, pz', pb, p, j, 3)
  }

  /** Of slice j, the first n thirds are done and the others hold their copied stripes. */
  ghost predicate Halfway(pz: seq<byte>, pz': seq<byte>, pb: seq<byte>, p: nat, j: nat, n: nat)
    requires 12 * p <= |pz| && 4 * p <= |pb| && j < 4
  {
    && |pz'| == |pz| && pz'[12 * p..] == pz[12 * p..]
    && (forall c :: 0 <= c < 12 && !(3 * j <= c < 3 * j + 3) ==> Get(pz', p, 12, c) == Get(pz, p, 12, c))
    && (forall t :: 0 <= t < 3 ==> Cell(pz', p, j, t) == if t < n then Written(pz, pb, p, j, t) else Get(pb, p, 4, t))
  }

  /** The three COPYs. */
  method CopyStripes(pz: array<byte>, pb: array<byte>, p: nat, j: nat)
    requires pz != pb && 12 * p <= pz.Length && 4 * p <= pb.Length && j < 4
    modifies pz
    ensures Halfway(old(pz[..]), pz[..], pb[..], p, j, 0)
  {
    hide Get;
    CopyCell(pb, 4, 0, pz, 12, 3 * j, p);
    CopyCell(pb, 4, 1, pz, 12, 3 * j + 1, p);
    CopyCell(pb, 4, 2, pz, 12, 3 * j + 2, p);
  }

  /** Two XORs onto one third, from the operands the code names. */
  method RevealThird(pz: array<byte>, pb: array<byte>, p: nat, j: nat, t: nat, a: nat, at: nat, b: nat, bt: nat,
                     ghost pz0: seq<byte>)
    requires pz != pb && 12 * p <= pz.Length && 4 * p <= pb.Length && j < 4 && t < 3 && |pz0| == pz.Length
    requires Others(j, StripeOver(j, t)) == (a, b) && ThirdIn(a, StripeOver(j, t)) == at && ThirdIn(b, StripeOver(j, t)) == bt
    requires Halfway(pz0, pz[..], pb[..], p, j, t)
    modifies pz
    ensures Halfway(pz0, pz[..], pb[..], p, j, t + 1)
  {
    hide Get, XorSeq, StripeOver, Others, ThirdIn;
    ghost var s := pz[..];
    XorCell(pz, 12, 3 * a + at, 3 * j + t, p);
    XorCell(pz, 12, 3 * b + bt, 3 * j + t, p);
    HalfwayStep(pz0, s, pz[..], pb[..], p, j, t, a, at, b, bt);
  }

  lemma HalfwayStep(pz0: seq<byte>, s: seq<byte>, s': seq<byte>, pb: seq<byte>, p: nat, j: nat, t: nat, a: nat, at: nat, b: nat,
                    bt: nat)
    requires 12 * p <= |pz0| && 4 * p <= |pb| && j < 4 && t < 3 && Halfway(pz0, s, pb, p, j, t)
    requires Others(j, StripeOver(j, t)) == (a, b) && ThirdIn(a, StripeOver(j, t)) == at && ThirdIn(b, StripeOver(j, t)) == bt
    requires IsSet(s, s', p, 12, 3 * j + t,
                   XorSeq(XorSeq(Cell(s, p, j, t), Cell(s, p, a, at)), Cell(s, p, b, bt)))
    ensures Halfway(pz0, s', pb, p, j, t + 1)
  {
    hide Get, XorSeq, StripeOver, Others, ThirdIn;
    assert Cell(s, p, a, at) == Cell(pz0, p, a, at) && Cell(s, p, b, bt) == Cell(pz0, p, b, bt);
    assert Cell(s', p, j, t) == Written(pz0, pb, p, j, t);
  }

  /** The switch's three-piece cases. */
  method RecoverSlice(pz: array<byte>, pb: array<byte>, p: nat, bitmap: nat)
    requires pz != pb && 12 * p <= pz.Length && 4 * p <= pb.Length && bitmap in {0x7, 0xb, 0xd, 0xe}
    modifies pz
    ensures pz[..] == Recover(old(pz[..]), pb[..], p, Missing(bitmap))
  {
    hide Halfway, Recover;
    ghost var s := pz[..];
    var j := Missing(bitmap);
    CopyStripes(pz, pb, p, j);
    if bitmap == 0x7 {
      RevealThird(pz, pb, p, 3, 0, 1, 0, 2, 0, s);
      RevealThird(pz, pb, p, 3, 1, 0, 0, 2, 1, s);
      RevealThird(pz, pb, p, 3, 2, 0, 1, 1, 1, s);
    } else if bitmap == 0xb {
      RevealThird(pz, pb, p, 2, 0, 1, 0, 3, 0, s);
      RevealThird(pz, pb, p, 2, 1, 0, 0, 3, 1, s);
      RevealThird(pz, pb, p, 2, 2, 0, 2, 1, 2, s);
    } else if bitmap == 0xd {
      RevealThird(pz, pb, p, 1, 0, 2, 0, 3, 0, s);
      RevealThird(pz, pb, p, 1, 1, 0, 1, 3, 2, s);
      RevealThird(pz, pb, p, 1, 2, 0, 2, 2, 2, s);
    } else {
      RevealThird(pz, pb, p, 0, 0, 2, 1, 3, 1, s);
      RevealThird(pz, pb, p, 0, 1, 1, 1, 3, 2, s);
      RevealThird(pz, pb, p, 0, 2, 1, 2, 2, 2, s);
    }
    RecoversIs(s, pz[..], pb[..], p, j);
  }

  /** The slice whose bit is not set. */
  function Missing(bitmap: nat): (j: nat)
    ensures j < 4
  {
    if bitmap == 0x7 then 3 else if bitmap == 0xb then 2 else if bitmap == 0xd then 1 else 0
  }

  /** The zone with slice j rewritten. */
  function Recover(pz: seq<byte>, pb: seq<byte>, p: nat, j: nat): (r: seq<byte>)
    requires 12 * p <= |pz| && 4 * p <= |pb| && j < 4
    ensures |r| == |pz|
  {
    SliceRange(j, p);
    pz[..j * (3 * p)] + (Written(pz, pb, p, j, 0) + Written(pz, pb, p, j, 1) + Written(pz, pb, p, j, 2)) + pz[(j + 1) * (3 * p)..]
  }

  lemma SliceRange(j: nat, p: nat)
    requires j < 4
    ensures j * (3 * p) + 3 * p == (j + 1) * (3 * p) <= 12 * p
    ensures j * (3 * p) == (3 * j) * p
  {
  }

  /** A slice put in place of another leaves what is before and after. */
  lemma Replaced(s: seq<byte>, m: seq<byte>, a: nat, b: nat)
    requires a <= b <= |s| && |m| == b - a
    ensures var r := s[..a] + m + s[b..]; |r| == |s| && r[..a] == s[..a] && r[b..] == s[b..] && r[a..b] == m
  {
  }

  lemma SubSlice(r: seq<byte>, a: nat, m: seq<byte>, b: nat, k: nat)
    requires a + |m| <= |r| && r[a..a + |m|] == m && b + k <= |m|
    ensures r[a + b..a + b + k] == m[b..b + k]
  {
    var x, y, w := r[a + b..a + b + k], m[b..b + k], r[a..a + |m|];
    forall i | 0 <= i < k
      ensures x[i] == y[i]
    {
      assert w[b + i] == y[i];
    }
  }

  lemma ThreeParts(x: seq<byte>, y: seq<byte>, z: seq<byte>, p: nat)
    requires |x| == |y| == |z| == p
    ensures var m := x + y + z; |m| == 3 * p && m[..p] == x && m[p..2 * p] == y && m[2 * p..3 * p] == z
  {
  }

  lemma RecoverShape(pz: seq<byte>, pb: seq<byte>, p: nat, j: nat)
    requires 12 * p <= |pz| && 4 * p <= |pb| && j < 4
    ensures var r, a := Recover(pz, pb, p, j), (3 * j) * p;
            && a + 3 * p <= |r| == |pz| && r[..a] == pz[..a] && r[a + 3 * p..] == pz[a + 3 * p..]
            && r[a..a + p] == Written(pz, pb, p, j, 0) && r[a + p..a + 2 * p] == Written(pz, pb, p, j, 1)
            && r[a + 2 * p..a + 3 * p] == Written(pz, pb, p, j, 2)
  {
    hide Written;
    SliceRange(j, p);
    var r, a := Recover(pz, pb, p, j), (3 * j) * p;
    var x, y, z := Written(pz, pb, p, j, 0), Written(pz, pb, p, j, 1), Written(pz, pb, p, j, 2);
    ThreeParts(x, y, z, p);
    Replaced(pz, x + y + z, a, a + 3 * p);
    SubSlice(r, a, x + y + z, 0, p);
    SubSlice(r, a, x + y + z, p, p);
    SubSlice(r, a, x + y + z, 2 * p, p);
  }

  lemma CellPlace(j: nat, t: nat, p: nat)
    ensures (3 * j + t) * p == (3 * j) * p + t * p
  {
  }

  lemma RecoveredCell(pz: seq<byte>, pb: seq<byte>, p: nat, j: nat, t: nat)
    requires 12 * p <= |pz| && 4 * p <= |pb| && j < 4 && t < 3
    ensures Cell(Recover(pz, pb, p, j), p, j, t) == Written(pz, pb, p, j, t)
  {
    hide Written, Recover;
    RecoverShape(pz, pb, p, j);
    CellPlace(j, t, p);
    CellRange(3 * j + t, 12, p);
  }

  lemma KeptCell(pz: seq<byte>, pb: seq<byte>, p: nat, j: nat, c: nat)
    requires 12 * p <= |pz| && 4 * p <= |pb| && j < 4 && c < 12 && !(3 * j <= c < 3 * j + 3)
    ensures Get(Recover(pz, pb, p, j), p, 12, c) == Get(pz, p, 12, c)
  {
    hide Written, Recover;
    RecoverShape(pz, pb, p, j);
    CellRange(c, 12, p);
    var r, a := Recover(pz, pb, p, j), (3 * j) * p;
    if c < 3 * j {
      CellRange(c, 3 * j, p);
      SameHead(pz, r, a, c * p, p);
    } else {
      MulMono(3 * j + 3, c, p);
      CellPlace(j, 3, p);
      SameAfter(pz, r, a + 3 * p, c * p, p);
    }
  }

  lemma RecoversIs(pz: seq<byte>, pz': seq<byte>, pb: seq<byte>, p: nat, j: nat)
    requires 12 * p <= |pz| && 4 * p <= |pb| && j < 4 && Recovers(pz, pz', pb, p, j)
    ensures pz' == Recover(pz, pb, p, j)
  {
    hide Written, Get, Recover;
    var r := Recover(pz, pb, p, j);
    forall c: nat | c < 12
      ensures Get(pz', p, 12, c) == Get(r, p, 12, c)
    {
      if 3 * j <= c < 3 * j + 3 {
        RecoveredCell(pz, pb, p, j, c - 3 * j);
        assert Cell(pz', p, j, c - 3 * j) == Written(pz, pb, p, j, c - 3 * j);
      } else {
        KeptCell(pz, pb, p, j, c);
      }
    }
    RecoverTail(pz, pb, p, j);
    SameCells(r, pz', p, 12, 12);
  }

  lemma RecoverTail(pz: seq<byte>, pb: seq<byte>, p: nat, j: nat)
    requires 12 * p <= |pz| && 4 * p <= |pb| && j < 4
    ensures Recover(pz, pb, p, j)[12 * p..] == pz[12 * p..]
  {
    hide Written;
    SliceRange(j, p);
    SameTail(pz, Recover(pz, pb, p, j), (j + 1) * (3 * p), 12 * p);
  }

  // ---------------------------------------------------------------- when it is right

  /** The zone in memory holds the sender's slices, but for slice j, and their stripes. */
  ghost predicate HoldsBut(pz: seq<byte>, pb: seq<byte>, d: seq<seq<byte>>, p: nat, j: nat) {
    && 12 * p <= |pz| && 4 * p <= |pb| && Zone(d, p)
    && (forall k, t :: 0 <= k < 4 && k != j && 0 <= t < 3 ==> Cell(pz, p, k, t) == Third(d[k], t, p))
    && (forall k :: 0 <= k < 4 && k != j ==> Get(pb, p, 4, k) == Stripe(d, p, k))
  }

  lemma XorCancels(a: seq<byte>, b: seq<byte>, x: seq<byte>, y: seq<byte>)
    requires |a| == |b| == |x| == |y|
    ensures XorSeq(XorSeq(a, x), y) == XorSeq(XorSeq(b, x), y) ==> a == b
  {
    hide XorSeq;
    XorSeqTwice(XorSeq(a, x), y);
    XorSeqTwice(XorSeq(b, x), y);
    XorSeqTwice(a, x);
    XorSeqTwice(b, x);
  }

  /** With the stripe that covers a third, any third of any one slice would be recovered. */
  lemma IntendedIsRight(pz: seq<byte>, pb: seq<byte>, d: seq<seq<byte>>, p: nat, j: nat, t: nat)
    requires j < 4 && t < 3 && HoldsBut(pz, pb, d, p, j)
    ensures Unmask(pz, p, j, StripeOver(j, t), Get(pb, p, 4, StripeOver(j, t))) == Third(d[j], t, p)
  {
    hide XorSeq, Third, Stripe, Get, StripeOver, Others, ThirdIn;
    var k := StripeOver(j, t);
    var o := Others(j, k);
    RevealedIsThird(d, p, j, t);
    assert Cell(pz, p, o.0, ThirdIn(o.0, k)) == Third(d[o.0], ThirdIn(o.0, k), p);
    assert Cell(pz, p, o.1, ThirdIn(o.1, k)) == Third(d[o.1], ThirdIn(o.1, k), p);
  }

  /** As written, a third comes out right exactly if the stripe copied is the one that covers it. */
  lemma WrittenIsRight(pz: seq<byte>, pb: seq<byte>, d: seq<seq<byte>>, p: nat, j: nat, t: nat)
    requires j < 4 && t < 3 && HoldsBut(pz, pb, d, p, j)
    ensures Written(pz, pb, p, j, t) == Third(d[j], t, p) <==> Get(pb, p, 4, t) == Get(pb, p, 4, StripeOver(j, t))
  {
    hide XorSeq, Third, Get, StripeOver, Others, ThirdIn, Cell;
    var k := StripeOver(j, t);
    var o := Others(j, k);
    IntendedIsRight(pz, pb, d, p, j, t);
    XorCancels(Get(pb, p, 4, t), Get(pb, p, 4, k), Cell(pz, p, o.0, ThirdIn(o.0, k)), Cell(pz, p, o.1, ThirdIn(o.1, k)));
  }

  /** Slice j holds what the sender sent. */
  ghost predicate SliceIs(pz: seq<byte>, p: nat, j: nat, s: seq<byte>) {
    12 * p <= |pz| && j < 4 && |s| == 3 * p && forall t :: 0 <= t < 3 ==> Cell(pz, p, j, t) == Third(s, t, p)
  }

  /** The recovery, as written, is right exactly when the three stripes copied equal the three that
      cover the missing slice. */
  lemma RecoverIsRight(pz: seq<byte>, pb: seq<byte>, d: seq<seq<byte>>, p: nat, j: nat)
    requires j < 4 && HoldsBut(pz, pb, d, p, j)
    ensures SliceIs(Recover(pz, pb, p, j), p, j, d[j]) <==>
            forall t :: 0 <= t < 3 ==> Get(pb, p, 4, t) == Get(pb, p, 4, StripeOver(j, t))
  {
    hide Written, Recover, Third, Get, StripeOver;
    forall t | 0 <= t < 3
      ensures Cell(Recover(pz, pb, p, j), p, j, t) == Third(d[j], t, p) <==> Get(pb, p, 4, t) == Get(pb, p, 4, StripeOver(j, t))
    {
      RecoveredCell(pz, pb, p, j, t);
      WrittenIsRight(pz, pb, d, p, j, t);
    }
  }

  /** So for slice 3 it is always right: its stripes are 0, 1 and 2. */
  lemma LastSliceIsRight(pz: seq<byte>, pb: seq<byte>, d: seq<seq<byte>>, p: nat)
    requires HoldsBut(pz, pb, d, p, 3)
    ensures SliceIs(Recover(pz, pb, p, 3), p, 3, d[3])
  {
    RecoverIsRight(pz, pb, d, p, 3);
  }

  /** The other slices stay as they are. */
  lemma RecoverKeeps(pz: seq<byte>, pb: seq<byte>, p: nat, j: nat, k: nat, s: seq<byte>)
    requires 4 * p <= |pb| && j < 4 && k != j && SliceIs(pz, p, k, s)
    ensures SliceIs(Recover(pz, pb, p, j), p, k, s)
  {
    hide Recover, Third, Get;
    forall t | 0 <= t < 3
      ensures Cell(Recover(pz, pb, p, j), p, k, t) == Cell(pz, p, k, t)
    {
      KeptCell(pz, pb, p, j, 3 * k + t);
    }
  }

  /** For every other slice there are packets that it recovers wrongly. */
  lemma OthersCanBeWrong(j: nat) returns (pz: seq<byte>, pb: seq<byte>, d: seq<seq<byte>>)
    requires j < 3
    ensures HoldsBut(pz, pb, d, 1, j) && !SliceIs(Recover(pz, pb, 1, j), 1, j, d[j])
  {
    hide HoldsBut, SliceIs, Recover;
    var z, one: byte := 0, 1;
    d := [[z, z, one], [z, z, z], [z, z, z], [z, z, z]];
    pz := if j == 0 then [z, z, z, z, z, z, z, z, z, z, z, z] else [z, z, one, z, z, z, z, z, z, z, z, z];
    pb := [z, z, z, one];
    Example(pz, pb, d, j);
    RecoverIsRight(pz, pb, d, 1, j);
    assert StripeOver(j, 2) == 3;
    GetIs(pb, 1, 4, 2);
    GetIs(pb, 1, 4, 3);
    assert Get(pb, 1, 4, 2)[0] == pb[2] && Get(pb, 1, 4, 3)[0] == pb[3];
  }

  lemma Example(pz: seq<byte>, pb: seq<byte>, d: seq<seq<byte>>, j: nat)
    requires d == [[0, 0, 1], [0, 0, 0], [0, 0, 0], [0, 0, 0]] && pb == [0, 0, 0, 1] && j < 3
    requires pz == [0, 0, if j == 0 then 0 else 1, 0, 0, 0, 0, 0, 0, 0, 0, 0]
    ensures HoldsBut(pz, pb, d, 1, j)
  {
    assert XorByte(0, 0) == 0 && XorByte(1, 0) == 1;
    forall k, t | 0 <= k < 4 && k != j && 0 <= t < 3
      ensures Cell(pz, 1, k, t) == Third(d[k], t, 1)
    {
    }
    forall k | 0 <= k < 4
      ensures Get(pb, 1, 4, k) == Stripe(d, 1, k)
    {
    }
  }
}
