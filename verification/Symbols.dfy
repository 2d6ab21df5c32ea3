/** Symbols with a 16-bit key, as tdefl_sym_freq: the key is first a use count, then a code length. */
module Symbols {

  type u16 = x: int | 0 <= x < 65536

  datatype SymFreq = SymFreq(key: u16, sym: nat)

  ghost predicate SameSyms(a: seq<SymFreq>, b: seq<SymFreq>) {
    |a| == |b| && forall k :: 0 <= k < |a| ==> a[k].sym == b[k].sym
  }
}
