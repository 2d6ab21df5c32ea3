/** The parity of the one-way transport: four slices to a zone, each packet carrying a stripe over
    the other three (drv_outernet.c), and what the receiver makes of it (outernetrx.c). */
module Parity {
  import opened Bits

  /** Slices of a zone, of three stripes each. */
  ghost predicate Zone(d: seq<seq<byte>>, p: nat) {
    |d| == 4 && forall k :: 0 <= k < 4 ==> |d[k]| == 3 * p
  }

  function Third(s: seq<byte>, t: nat, p: nat): (r: seq<byte>)
    requires t < 3 && |s| == 3 * p
    ensures |r| == p
  {
    Third0(t, p);
    s[t * p..(t + 1) * p]
  }

  lemma Third0(t: nat, p: nat)
    requires t < 3
    ensures t * p <= (t + 1) * p <= 3 * p && (t + 1) * p == t * p + p
  {
  }

  function XorSeq(a: seq<byte>, b: seq<byte>): (r: seq<byte>)
    requires |a| == |b|
    ensures |r| == |a| && forall i :: 0 <= i < |r| ==> r[i] == XorByte(a[i], b[i])
  {
    if a == [] then [] else [XorByte(a[0], b[0])] + XorSeq(a[1..], b[1..])
  }

  lemma XorSeqTwice(a: seq<byte>, b: seq<byte>)
    requires |a| == |b|
    ensures XorSeq(XorSeq(a, b), b) == a
  {
    forall i | 0 <= i < |a|
      ensures XorSeq(XorSeq(a, b), b)[i] == a[i]
    {
      XorTwice(a[i], b[i]);
    }
  }

  lemma XorSeqCommutes(a: seq<byte>, b: seq<byte>)
    requires |a| == |b|
    ensures XorSeq(a, b) == XorSeq(b, a)
  {
    forall i | 0 <= i < |a|
      ensures XorSeq(a, b)[i] == XorSeq(b, a)[i]
    {
      XorCommutes(a[i], b[i]);
    }
  }

  lemma XorSeqAssociates(a: seq<byte>, b: seq<byte>, c: seq<byte>)
    requires |a| == |b| == |c|
    ensures XorSeq(XorSeq(a, b), c) == XorSeq(a, XorSeq(b, c))
  {
    forall i | 0 <= i < |a|
      ensures XorSeq(XorSeq(a, b), c)[i] == XorSeq(a, XorSeq(b, c))[i]
    {
      XorAssociates(a[i], b[i], c[i]);
    }
  }

  // ---------------------------------------------------------------- the sender's stripes

  /** The third of slice j that goes into stripe k. */
  function ThirdIn(j: nat, k: nat): (t: nat)
    requires j < 4 && k < 4 && j != k
    ensures t < 3
  {
    if k < j then k else k - 1
  }

  /** The stripe that covers third t of slice j. */
  function StripeOver(j: nat, t: nat): (k: nat)
    requires j < 4 && t < 3
    ensures k < 4 && k != j && ThirdIn(j, k) == t
  {
    if t < j then t else t + 1
  }

  /** The stripe of packet k, over the other three slices in order. */
  function Stripe(d: seq<seq<byte>>, p: nat, k: nat): (r: seq<byte>)
    requires Zone(d, p) && k < 4
    ensures |r| == p
  {
    var a, b, c := if k == 0 then 1 else 0, if k <= 1 then 2 else 1, if k <= 2 then 3 else 2;
    XorSeq(XorSeq(Third(d[a], ThirdIn(a, k), p), Third(d[b], ThirdIn(b, k), p)), Third(d[c], ThirdIn(c, k), p))
  }

  /** The four stripes, third by third. */
  lemma StripesAre(d: seq<seq<byte>>, p: nat)
    requires Zone(d, p)
    ensures Stripe(d, p, 0) == XorSeq(XorSeq(Third(d[1], 0, p), Third(d[2], 0, p)), Third(d[3], 0, p))
    ensures Stripe(d, p, 1) == XorSeq(XorSeq(Third(d[0], 0, p), Third(d[2], 1, p)), Third(d[3], 1, p))
    ensures Stripe(d, p, 2) == XorSeq(XorSeq(Third(d[0], 1, p), Third(d[1], 1, p)), Third(d[3], 2, p))
    ensures Stripe(d, p, 3) == XorSeq(XorSeq(Third(d[0], 2, p), Third(d[1], 2, p)), Third(d[2], 2, p))
  {
    hide XorSeq, Third;
  }

  /** Both other slices of stripe k, once j is known. */
  function Others(j: nat, k: nat): (r: (nat, nat))
    requires j < 4 && k < 4 && j != k
    ensures r.0 < r.1 < 4 && r.0 != j && r.0 != k && r.1 != j && r.1 != k
  {
    var lo, hi := if j < k then j else k, if j < k then k else j;
    if lo > 0 then (if lo == 1 then (if hi == 2 then (0, 3) else (0, 2)) else (0, 1))
    else if hi == 1 then (2, 3) else if hi == 2 then (1, 3) else (1, 2)
  }

  /** Stripe k with the two other slices taken out. */
  function Revealed(d: seq<seq<byte>>, p: nat, j: nat, k: nat, stripe: seq<byte>): (r: seq<byte>)
    requires Zone(d, p) && j < 4 && k < 4 && j != k && |stripe| == p
    ensures |r| == p
  {
    var o := Others(j, k);
    XorSeq(XorSeq(stripe, Third(d[o.0], ThirdIn(o.0, k), p)), Third(d[o.1], ThirdIn(o.1, k), p))
  }

  /** Taking both others out of a stripe leaves the third it covers. */
  lemma Reveal(x: seq<byte>, y: seq<byte>, z: seq<byte>)
    requires |x| == |y| == |z|
    ensures XorSeq(XorSeq(XorSeq(XorSeq(x, y), z), y), z) == x
    ensures XorSeq(XorSeq(XorSeq(XorSeq(y, x), z), y), z) == x
    ensures XorSeq(XorSeq(XorSeq(XorSeq(y, z), x), y), z) == x
  {
    hide XorSeq;
    // x ^ y ^ z ^ y ^ z
    XorSeqAssociates(XorSeq(x, y), z, y);
    XorSeqCommutes(z, y);
    XorSeqAssociates(XorSeq(x, y), y, z);
    XorSeqTwice(x, y);
    XorSeqTwice(x, z);
    // y ^ x == x ^ y
    XorSeqCommutes(y, x);
    // y ^ z ^ x == x ^ y ^ z
    XorSeqCommutes(XorSeq(y, z), x);
    XorSeqAssociates(x, y, z);
  }

  lemma RevealedIsThird(d: seq<seq<byte>>, p: nat, j: nat, t: nat)
    requires Zone(d, p) && j < 4 && t < 3
    ensures Revealed(d, p, j, StripeOver(j, t), Stripe(d, p, StripeOver(j, t))) == Third(d[j], t, p)
  {
    hide XorSeq, Third;
    var k := StripeOver(j, t);
    var o := Others(j, k);
    Reveal(Third(d[j], t, p), Third(d[o.0], ThirdIn(o.0, k), p), Third(d[o.1], ThirdIn(o.1, k), p));
  }
}
