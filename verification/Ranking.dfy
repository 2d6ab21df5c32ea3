/** How urgent a bundle is (rank.c): a score from its size, its service, its recipient and how often it
    could not be stored. */
module Ranking {
  import opened Bits

  const IS_MESHMS := 0x4000
  const RECIPIENT_IS_A_PEER := 0x2000
  const FAILED_INSERT := 0x8000
  const PREFIX := 16

  /** 1 << 30: from there on the source's shifts leave 32 bits. */
  const LENGTH_LIMIT := 0x4000_0000

  // ---------------------------------------------------------------- size

  function BitLength(v: nat): (n: nat) {
    if v == 0 then 0 else 1 + BitLength(v / 2)
  }

  /** v >> n, for either sign. */
  function ShiftRight(v: int, n: nat): int {
    v / Pow2(n)
  }

  /** The four bits below the top one, as lengthToPriority takes them, upside down. */
  function Part(v: nat, n: nat): (p: nat)
    ensures p <= 15
  {
    15 - ShiftRight(v - Pow2(n), if n <= 4 then 1 else n - 4) % 16
  }

  function SizeScore(v: nat): (s: int) {
    (63 - BitLength(v)) * 16 + Part(v, BitLength(v))
  }

  lemma {:induction false} BitLengthBounds(v: nat)
    ensures v > 0 ==> BitLength(v) >= 1 && Pow2(BitLength(v) - 1) <= v
    ensures v < Pow2(BitLength(v))
  {
    if v > 0 { BitLengthBounds(v / 2); }
  }

  lemma {:induction false} BitLengthMono(a: nat, b: nat)
    requires a <= b
    ensures BitLength(a) <= BitLength(b)
  {
    if a > 0 { BitLengthMono(a / 2, b / 2); }
  }

  lemma Times(a: int, b: int, d: nat)
    requires a <= b
    ensures a * d <= b * d
  {
  }

  lemma FloorMono(a: int, b: int, d: nat)
    requires a <= b && d > 0
    ensures a / d <= b / d
  {
    if a / d > b / d {
      assert a == d * (a / d) + a % d && b == d * (b / d) + b % d;
      assert d * (a / d) >= d * (b / d + 1) by { Times(b / d + 1, a / d, d); }
      assert false;
    }
  }

  /** The shifted difference lies in the sixteen values below zero. */
  lemma PartRange(v: nat, n: nat)
    requires v < Pow2(n) && (n >= 1 ==> Pow2(n - 1) <= v)
    ensures -16 <= ShiftRight(v - Pow2(n), if n <= 4 then 1 else n - 4) <= -1
  {
    hide Pow2;
    var k := if n <= 4 then 1 else n - 4;
    var u: int := Pow2(k);
    if n <= 4 {
      assert Pow2(0) == 1 && Pow2(1) == 2 && Pow2(2) == 4 && Pow2(3) == 8 && Pow2(4) == 16 by { SmallPowers(); }
    } else {
      Pow2Add(k, 4);
      assert Pow2(4) == 16 by { SmallPowers(); }
      assert v - Pow2(n) >= -16 * u;
      FloorMono(-16 * u, v - Pow2(n), u);
      FloorMono(v - Pow2(n), -1, u);
      Sixteen(u);
    }
  }

  lemma SmallPowers()
    ensures Pow2(0) == 1 && Pow2(1) == 2 && Pow2(2) == 4 && Pow2(3) == 8 && Pow2(4) == 16
  {
  }

  lemma Sixteen(u: nat)
    requires u >= 1
    ensures (-16 * u) / u == -16 && -1 / u == -1
  {
  }

  /** Of two sizes of one bit length the larger has the smaller part. */
  lemma PartMono(a: nat, b: nat, n: nat)
    requires a <= b < Pow2(n) && (n >= 1 ==> Pow2(n - 1) <= a)
    ensures Part(a, n) >= Part(b, n)
  {
    var k := if n <= 4 then 1 else n - 4;
    PartRange(a, n);
    PartRange(b, n);
    FloorMono(a - Pow2(n), b - Pow2(n), Pow2(k));
  }

  lemma ShortLengths(v: nat)
    requires v < LENGTH_LIMIT
    ensures BitLength(v) <= 30
  {
    BitLengthBounds(v);
    if BitLength(v) > 30 {
      Pow2Mono(30, BitLength(v) - 1);
      Pow2Values();
      Pow2Add(15, 15);
      assert false;
    }
  }

  /** The size's score stays in ten bits and never rises with the size. */
  lemma SizeOrder(a: nat, b: nat)
    requires a <= b < LENGTH_LIMIT
    ensures 0 <= SizeScore(b) <= SizeScore(a) <= 0x3ff
  {
    hide BitLength, Part, Pow2;
    BitLengthMono(a, b);
    ShortLengths(b);
    ShortLengths(a);
    BitLengthBounds(a);
    BitLengthBounds(b);
    NoBits(0);
    if BitLength(a) == BitLength(b) { PartMono(a, b, BitLength(a)); }
    NoBits(a);
  }

  lemma NoBits(v: nat)
    ensures BitLength(v) == 0 <==> v == 0
    ensures Part(0, 0) == 0
  {
    assert Pow2(0) == 1 && Pow2(1) == 2;
    assert ShiftRight(-1, 1) == -1;
  }

  // ---------------------------------------------------------------- the whole score

  datatype Service = MeshMS1 | MeshMS2 | OtherService

  datatype Bundle = Bundle(length: nat, service: Service, recipient: Recipient)

  datatype Recipient = Nobody | To(sid: seq<byte>)

  function ServiceRank(s: Service): (r: nat)
    ensures r <= 2
  {
    match s
    case MeshMS1 => 1
    case MeshMS2 => 2
    case OtherService => 0
  }

  /** strncmp over the first 16 characters, on strings without zeros. */
  predicate SamePrefix(a: seq<byte>, b: seq<byte>) {
    (if |a| < PREFIX then a else a[..PREFIX]) == (if |b| < PREFIX then b else b[..PREFIX])
  }

  predicate AddressedToPeer(r: Recipient, peers: seq<seq<byte>>) {
    r.To? && exists j :: 0 <= j < |peers| && SamePrefix(r.sid, peers[j])
  }

  function Penalised(p: nat, failures: nat): (r: nat) {
    if failures == 0 then p else
      var q := Penalised(p, failures - 1);
      if q >= FAILED_INSERT then q - FAILED_INSERT else q / 2
  }

  function Initial(b: Bundle, peers: seq<seq<byte>>): (p: int) {
    SizeScore(b.length) + ServiceRank(b.service) * IS_MESHMS
    + if AddressedToPeer(b.recipient, peers) then RECIPIENT_IS_A_PEER else 0
  }

  lemma InitialBounds(b: Bundle, peers: seq<seq<byte>>)
    requires b.length < LENGTH_LIMIT
    ensures 0 <= Initial(b, peers) <= 0xa3ff
  {
    hide SizeScore;
    SizeOrder(b.length, b.length);
  }

  function PeerRank(b: Bundle, peers: seq<seq<byte>>): nat {
    if AddressedToPeer(b.recipient, peers) then 1 else 0
  }

  /** Without failures the order is by service, then by whether a peer is addressed, then by size: a
      bundle that comes first by these has the higher score, or, within one size class, the same. */
  lemma OrderIsLexicographic(a: Bundle, b: Bundle, peers: seq<seq<byte>>)
    requires a.length < LENGTH_LIMIT && b.length < LENGTH_LIMIT
    ensures Initial(a, peers) > Initial(b, peers) <==>
            || ServiceRank(a.service) > ServiceRank(b.service)
            || (ServiceRank(a.service) == ServiceRank(b.service)
                && (|| PeerRank(a, peers) > PeerRank(b, peers)
                    || (PeerRank(a, peers) == PeerRank(b, peers) && SizeScore(a.length) > SizeScore(b.length))))
    ensures SizeScore(a.length) > SizeScore(b.length) ==> a.length < b.length
  {
    hide SizeScore, AddressedToPeer;
    SizeOrder(a.length, a.length);
    SizeOrder(b.length, b.length);
    if a.length >= b.length { SizeOrder(b.length, a.length); }
  }

  /** Each failure at least halves what is left. */
  lemma {:induction false} FailuresHalve(p: nat, k: nat)
    requires p <= 0x1_0000
    ensures Penalised(p, k) * Pow2(k) <= p
  {
    if k > 0 {
      FailuresHalve(p, k - 1);
      var q, u := Penalised(p, k - 1), Pow2(k - 1);
      assert q <= p by { AtLeastOne(q, u); }
      var r := Penalised(p, k);
      assert 2 * r <= q;
      Doubled(r, q, u);
    }
  }

  lemma AtLeastOne(q: nat, u: nat)
    requires u >= 1
    ensures q <= q * u
  {
  }

  lemma Doubled(r: nat, q: nat, u: nat)
    requires 2 * r <= q
    ensures r * (2 * u) <= q * u
  {
    Times(2 * r, q, u);
  }

  // ---------------------------------------------------------------- the loops

  /** lengthToPriority */
  method LengthToPriority(value: nat) returns (r: int)
    requires value < LENGTH_LIMIT
    ensures r == SizeScore(value)
  {
    hide Pow2;
    var result, v: nat := 0, value;
    while v != 0
      invariant BitLength(value) == result + BitLength(v)
      decreases v
    {
      result := result + 1;
      v := v / 2;
    }
    var shift := 4;
    if result <= shift { shift := result - 1; }
    var part := ShiftRight(value - Pow2(result), result - shift) % 16;
    part := 15 - part;
    result := 63 - result;
    r := result * 16 + part;
  }

  /** Whether one of the peers is the recipient. */
  method FindRecipient(r: Recipient, peers: seq<seq<byte>>) returns (found: bool)
    ensures found == AddressedToPeer(r, peers)
  {
    if r.Nobody? { return false; }
    var j := 0;
    while j < |peers|
      invariant 0 <= j <= |peers| && forall i :: 0 <= i < j ==> !SamePrefix(r.sid, peers[i])
    {
      if SamePrefix(r.sid, peers[j]) { return true; }
      j := j + 1;
    }
    found := false;
  }

  /** calculate_bundle_intrinsic_priority: with the ranking switched off every bundle is alike. After k
      failures at most the 2^k-th part of the initial score is left. */
  method IntrinsicPriority(b: Bundle, peers: seq<seq<byte>>, failures: nat, unranked: bool) returns (priority: int)
    requires b.length < LENGTH_LIMIT
    ensures unranked ==> priority == 1
    ensures !unranked ==> Initial(b, peers) >= 0 && priority == Penalised(Initial(b, peers), failures)
    ensures !unranked ==> priority * Pow2(failures) <= Initial(b, peers)
  {
    hide SizeScore, AddressedToPeer, Pow2;
    if unranked { return 1; }
    InitialBounds(b, peers);
    var p := LengthToPriority(b.length);
    if b.service.MeshMS1? { p := p + IS_MESHMS; }
    if b.service.MeshMS2? { p := p + 2 * IS_MESHMS; }
    var addressed := FindRecipient(b.recipient, peers);
    if addressed { p := p + RECIPIENT_IS_A_PEER; }
    var i := 0;
    while i < failures
      invariant 0 <= i <= failures && p == Penalised(Initial(b, peers), i)
    {
      if p >= FAILED_INSERT { p := p - FAILED_INSERT; } else { p := p / 2; }
      i := i + 1;
    }
    FailuresHalve(Initial(b, peers), failures);
    priority := p;
  }

  /** Some scores: of 0, 1, 512 and 1000 bytes; of a second-style message of 512 bytes to a peer; and what one
      failure and two leave of it. */
  lemma SomeScores(sid: seq<byte>)
    ensures SizeScore(0) == 0x3f0 && SizeScore(1) == 0x3e0 && SizeScore(512) == 0x357 && SizeScore(1000) == 0x350
    ensures Initial(Bundle(512, MeshMS2, To(sid)), [sid]) == 0xa357 && Initial(Bundle(512, MeshMS1, Nobody), [sid]) == 0x4357
    ensures Penalised(0xa357, 1) == 0x2357 && Penalised(0xa357, 2) == 0x11ab
  {
    hide BitLength, Pow2, Part;
    SomeLengths();
    SomeParts();
    assert SamePrefix(sid, [sid][0]);
    assert Penalised(0xa357, 0) == 0xa357;
  }

  lemma SomeLengths()
    ensures BitLength(0) == 0 && BitLength(1) == 1 && BitLength(512) == 10 && BitLength(1000) == 10
  {
    assert BitLength(8) == 4 && BitLength(64) == 7 && BitLength(15) == 4 && BitLength(125) == 7;
  }

  lemma SomeParts()
    ensures Part(0, 0) == 0 && Part(1, 1) == 0 && Part(512, 10) == 7 && Part(1000, 10) == 0
  {
    hide Pow2;
    Pow2Values();
    assert Pow2(0) == 1 by { SmallPowers(); }
  }

  /** A length below zero would keep lengthToPriority's loop going for ever: shifting never brings it
      to zero; any other is soon zero. */
  lemma NegativeNeverZero(v: int)
    ensures v < 0 <==> forall n: nat :: ShiftRight(v, n) != 0
  {
    hide ShiftRight, BitLength;
    if v < 0 {
      forall n: nat
        ensures ShiftRight(v, n) != 0
      {
        BelowZero(v, n);
      }
    } else {
      BitLengthBounds(v);
      AllShifted(v, BitLength(v));
    }
  }

  lemma BelowZero(v: int, n: nat)
    requires v < 0
    ensures ShiftRight(v, n) < 0
  {
    hide Pow2;
    FloorMono(v, -1, Pow2(n));
    Sixteen(Pow2(n));
  }

  lemma AllShifted(v: nat, n: nat)
    requires v < Pow2(n)
    ensures ShiftRight(v, n) == 0
  {
    hide Pow2;
  }
}
