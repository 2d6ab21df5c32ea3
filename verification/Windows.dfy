/** Reading codes out of a bit window.  Codes are numbered most significant bit first but
    stored first bit lowest, so a code is the reversal of the window's low bits. */
module Windows {
  import opened Bits

  /** Bit d of w. */
  function Bit(w: nat, d: nat): (b: nat)
    ensures b < 2
  {
    Shr(w, d) % 2
  }

  /** The first d bits of window w, read most significant first: also, the low d bits of w
      in opposite order. */
  function Prefix(w: nat, d: nat): (v: nat) {
    if d == 0 then 0 else 2 * Prefix(w, d - 1) + Bit(w, d - 1)
  }

  lemma {:induction false} PrefixBound(w: nat, d: nat)
    ensures Prefix(w, d) < Pow2(d)
  {
    if d > 0 { PrefixBound(w, d - 1); }
  }

  lemma {:induction false} BitLow(w: nat, d: nat, e: nat)
    requires d < e
    ensures Bit(Low(w, e), d) == Bit(w, d)
  {
    var lw := Low(w, e);
    assert lw % 2 == w % 2 && lw / 2 == Low(w / 2, e - 1);
    if d > 0 {
      BitLow(w / 2, d - 1, e - 1);
      assert Shr(lw, d) == Shr(lw / 2, d - 1);
    }
  }

  lemma {:induction false} PrefixLow(w: nat, d: nat, e: nat)
    requires d <= e
    ensures Prefix(Low(w, e), d) == Prefix(w, d)
  {
    if d > 0 {
      PrefixLow(w, d - 1, e);
      BitLow(w, d - 1, e);
    }
  }

  lemma {:induction false} PrefixShr(w: nat, a: nat, b: nat)
    requires a <= b
    ensures Shr(Prefix(w, b), b - a) == Prefix(w, a)
  {
    if a < b { PrefixShr(w, a, b - 1); }
  }

  lemma BitOfPrefix(c: nat, l: nat, d: nat)
    requires d < l
    ensures Bit(Prefix(c, l), d) == Bit(c, l - 1 - d)
  {
    PrefixShr(c, l - d, l);
  }

  /** The first d bits of a reversal are the last of the l bits reversed. */
  lemma {:induction false} PrefixOfPrefix(c: nat, l: nat, d: nat)
    requires d <= l
    ensures Prefix(Prefix(c, l), d) == Low(Shr(c, l - d), d)
  {
    if d > 0 {
      PrefixOfPrefix(c, l, d - 1);
      BitOfPrefix(c, l, d - 1);
      ShrShr(c, l - d, 1);
      assert Shr(c, l - d) / 2 == Shr(Shr(c, l - d), 1);
    }
  }

  /** Reversing twice gives the bits back. */
  lemma Reversal(c: nat, l: nat)
    ensures Prefix(Prefix(c, l), l) == Low(c, l)
  {
    PrefixOfPrefix(c, l, l);
  }

  /** A window starts with code c of l bits exactly when its low bits are the reversed code. */
  lemma StartsWith(w: nat, c: nat, l: nat)
    requires c < Pow2(l)
    ensures Prefix(w, l) == c <==> Low(w, l) == Prefix(c, l)
  {
    Reversal(w, l);
    Reversal(c, l);
    LowOfSmall(c, l);
    PrefixLow(w, l, l);
  }
}
