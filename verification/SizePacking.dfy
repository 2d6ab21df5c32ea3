/** Code lengths as runs (section 3.2.7 of RFC 1951): how tdefl_start_dynamic_block packs them. */
module SizePacking {
  import opened Bits
  import opened Symbols
  import UsedSymbols

  const MAX_SIZES := 320
  const NUM_CODES := 19
  const NO_SIZE := 255

  /** A code length, or a run of one: extra is what follows codes 16, 17 and 18. */
  datatype Item = Item(code: nat, extra: nat)

  /** "\02\03\07"[code - 16] */
  function ExtraBits(code: nat): (n: nat) {
    if code == 16 then 2 else if code == 17 then 3 else if code == 18 then 7 else 0
  }

  /** "\03\03\013"[code - 16] */
  function RunBase(code: nat): (n: nat) {
    if code == 18 then 11 else 3
  }

  ghost predicate ValidItem(x: Item) {
    x.code < NUM_CODES && x.extra < Pow2(ExtraBits(x.code))
  }

  ghost predicate AllItems(items: seq<Item>) {
    forall i :: 0 <= i < |items| ==> ValidItem(items[i])
  }

  function Repeat(v: nat, n: nat): (r: seq<nat>)
    ensures |r| == n && forall i :: 0 <= i < n ==> r[i] == v
  {
    if n == 0 then [] else Repeat(v, n - 1) + [v]
  }

  /** The lengths that one more item adds to those so far. */
  function Adds(sizes: seq<nat>, x: Item): (r: seq<nat>)
    requires x.code == 16 ==> sizes != []
  {
    if x.code < 16 then [x.code]
    else Repeat(if x.code == 16 then sizes[|sizes| - 1] else 0, x.extra + RunBase(x.code))
  }

  /** The items, in order, take the lengths from `from` to `to`; a repeat never comes first. */
  ghost predicate Unpacks(from: seq<nat>, items: seq<Item>, to: seq<nat>)
    decreases |items|
  {
    if items == [] then from == to else
      (items[0].code == 16 ==> from != []) && Unpacks(from + Adds(from, items[0]), items[1..], to)
  }

  lemma {:induction false} UnpacksAppend(from: seq<nat>, items: seq<Item>, to: seq<nat>, x: Item)
    requires Unpacks(from, items, to) && (x.code == 16 ==> to != [])
    ensures Unpacks(from, items + [x], to + Adds(to, x))
    decreases |items|
  {
    hide Adds;
    if items == [] {
      assert [x][1..] == [] && items + [x] == [x];
    } else {
      assert (items + [x])[1..] == items[1..] + [x];
      UnpacksAppend(from + Adds(from, items[0]), items[1..], to, x);
    }
  }

  /** The packed array: an item's code, and its extra value for codes from 16 on. */
  function ItemBytes(x: Item): (r: seq<byte>)
    requires ValidItem(x)
  {
    ExtraFitsByte(x);
    if x.code < 16 then [x.code] else [x.code, x.extra]
  }

  lemma ExtraFitsByte(x: Item)
    requires ValidItem(x)
    ensures x.extra < 128
  {
    Pow2Values();
  }

  function Bytes(items: seq<Item>): (r: seq<byte>)
    requires AllItems(items)
  {
    if items == [] then [] else Bytes(items[..|items| - 1]) + ItemBytes(items[|items| - 1])
  }

  function CodeUses(items: seq<Item>, code: nat): (n: nat)
    ensures n <= |items|
  {
    if items == [] then 0 else CodeUses(items[..|items| - 1], code) + if items[|items| - 1].code == code then 1 else 0
  }

  lemma ItemsAppend(items: seq<Item>, x: Item)
    requires AllItems(items) && ValidItem(x)
    ensures AllItems(items + [x]) && Bytes(items + [x]) == Bytes(items) + ItemBytes(x)
    ensures forall c :: CodeUses(items + [x], c) == CodeUses(items, c) + if x.code == c then 1 else 0
  {
    assert (items + [x])[..|items|] == items;
  }

  // ---------------------------------------------------------------- runs are not missed

  /** The length an item stands for. */
  function Value(items: seq<Item>, i: nat): (v: nat)
    requires i < |items|
  {
    if items[i].code < 16 then items[i].code else if items[i].code > 16 || i == 0 then 0 else Value(items, i - 1)
  }

  /** How many single lengths of one kind end here. */
  function Singles(items: seq<Item>, i: nat): (n: nat)
    requires i < |items|
  {
    if items[i].code >= 16 then 0 else if i > 0 && items[i - 1].code == items[i].code then Singles(items, i - 1) + 1 else 1
  }

  /** The longest runs: six repeats, 138 zeros. */
  predicate Longest(x: Item) {
    x == Item(16, 3) || x == Item(18, 127)
  }

  /** Of one length no more than three stand singly in a row, of zeros no more than two; a run of it goes on only
      behind a longest run, and a repeat only behind one single length or a longest run. */
  ghost predicate NeatAt(items: seq<Item>, i: nat)
    requires i < |items|
  {
    && Singles(items, i) <= (if Value(items, i) == 0 then 2 else 3)
    && (items[i].code == 16 ==> i > 0 && Value(items, i) > 0)
    && (i > 0 && Value(items, i - 1) == Value(items, i) && !Longest(items[i - 1]) ==>
          items[i - 1].code < 16 && (items[i].code < 16 || (items[i].code == 16 && Singles(items, i - 1) == 1)))
  }

  ghost predicate Neat(items: seq<Item>) {
    forall i :: 0 <= i < |items| ==> NeatAt(items, i)
  }

  function LastValue(items: seq<Item>): nat {
    if items == [] then NO_SIZE else Value(items, |items| - 1)
  }

  function LastSingles(items: seq<Item>): nat {
    if items == [] then 0 else Singles(items, |items| - 1)
  }

  predicate LastLongest(items: seq<Item>) {
    items != [] && Longest(items[|items| - 1])
  }

  lemma {:induction false} SameBefore(items: seq<Item>, x: Item, i: nat)
    requires i < |items|
    ensures Value(items + [x], i) == Value(items, i) && Singles(items + [x], i) == Singles(items, i)
  {
    if i > 0 { SameBefore(items, x, i - 1); }
  }

  lemma NeatAppend(items: seq<Item>, x: Item)
    requires Neat(items) && NeatAt(items + [x], |items|)
    ensures Neat(items + [x])
  {
    hide Value, Singles, Longest;
    var all := items + [x];
    forall i | 0 <= i < |items|
      ensures NeatAt(all, i)
    {
      assert NeatAt(items, i);
      SameBefore(items, x, i);
      if i > 0 { SameBefore(items, x, i - 1); }
    }
  }

  /** One more single length. */
  lemma SingleAppended(items: seq<Item>, v: nat)
    requires Neat(items) && v < 16
    requires LastValue(items) == v ==> LastLongest(items) || 1 <= LastSingles(items) < (if v == 0 then 2 else 3)
    ensures var all := items + [Item(v, 0)];
            && Neat(all) && LastValue(all) == v && !LastLongest(all)
            && LastSingles(all) == if LastValue(items) == v then LastSingles(items) + 1 else 1
  {
    if items != [] { SameBefore(items, Item(v, 0), |items| - 1); }
    NeatAppend(items, Item(v, 0));
  }

  /** One more run. */
  lemma RunAppended(items: seq<Item>, x: Item)
    requires Neat(items) && 16 <= x.code <= 18 && (x.code == 16 ==> 0 < LastValue(items) < 16)
    requires if x.code == 16 then LastLongest(items) || LastSingles(items) == 1 else LastLongest(items) || LastValue(items) != 0
    ensures var all := items + [x];
            && Neat(all) && LastValue(all) == (if x.code == 16 then LastValue(items) else 0)
            && (LastLongest(all) <==> Longest(x)) && LastSingles(all) == 0
  {
    if items != [] { SameBefore(items, x, |items| - 1); }
    NeatAppend(items, x);
  }

  lemma LongestIsRun(items: seq<Item>)
    ensures LastLongest(items) ==> LastSingles(items) == 0
  {
  }

  lemma NothingNeat()
    ensures Neat([]) && LastValue([]) == NO_SIZE
  {
  }

  /** The packer's state. */
  class SizePacker {
    const packed: array<byte>
    const counts: array<u16>
    var num: nat
    var zeros: nat     // rle_z_count
    var repeats: nat   // rle_repeat_count
    var prev: nat      // prev_code_size
    ghost var items: seq<Item>
    ghost var done: seq<nat>   // what the items stand for

    constructor ()
      ensures fresh(packed) && fresh(counts) && Valid([]) && TidyNext()
    {
      packed := new byte[MAX_SIZES];
      counts := new u16[NUM_CODES](_ => 0);
      num, zeros, repeats, prev, items, done := 0, 0, 0, NO_SIZE, [], [];
    }

    /** What waits goes behind the items: zeros behind another length, repeats behind their first. */
    ghost predicate Tidy()
      reads this
    {
      && Neat(items)
      && (zeros > 0 ==> LastLongest(items) || LastValue(items) != 0)
      && (repeats > 0 ==> LastValue(items) == prev && (LastLongest(items) || LastSingles(items) == 1))
    }

    ghost predicate TidyNext()
      reads this
    {
      && Neat(items)
      && (prev == NO_SIZE ==> items == [] && zeros == repeats == 0)
      && (prev == 0 ==> repeats == 0 && (LastLongest(items) || (zeros > 0 && LastValue(items) != 0)))
      && (0 < prev < 16 ==> zeros == 0 && LastValue(items) == prev && (LastLongest(items) || LastSingles(items) == 1))
    }

    ghost predicate Packed()
      reads this`num, this`items, this`done, packed, counts
    {
      && packed.Length == MAX_SIZES && counts.Length == NUM_CODES
      && AllItems(items) && Unpacks([], items, done)
      && num == |Bytes(items)| <= |done| && num <= MAX_SIZES && packed[..num] == Bytes(items) && |items| <= num
      && (forall c :: 0 <= c < NUM_CODES ==> counts[c] == CodeUses(items, c))
    }

    /** The lengths taken so far: those packed, and a run that still waits, of one kind only. */
    ghost predicate Waiting(sizes: seq<nat>)
      reads this, packed, counts
    {
      && Packed() && (zeros == 0 || repeats == 0) && zeros <= 138 && repeats <= 6
      && sizes == done + (if repeats > 0 then Repeat(prev, repeats) else Repeat(0, zeros))
      && (repeats > 0 ==> done != [] && done[|done| - 1] == prev && 0 < prev < 16)
    }

    ghost predicate Valid(sizes: seq<nat>)
      reads this, packed, counts
    {
      && Waiting(sizes) && zeros < 138 && repeats < 6
      && (sizes == [] ==> prev == NO_SIZE) && (sizes != [] ==> prev == sizes[|sizes| - 1] < 16)
    }

    /** Appends one item. */
    method Emit(x: Item)
      requires Packed() && ValidItem(x) && (x.code == 16 ==> done != [])
      requires |done| + |Adds(done, x)| <= MAX_SIZES
      modifies this`num, this`items, this`done, packed, counts
      ensures Packed() && done == old(done) + Adds(old(done), x) && items == old(items) + [x]
    {
      hide Unpacks, Bytes, CodeUses;
      ItemsAppend(items, x);
      UnpacksAppend([], items, done, x);
      AddsRoom(done, x);
      ghost var before := packed[..num];
      packed[num] := x.code;
      num := num + 1;
      if x.code >= 16 {
        ExtraFitsByte(x);
        packed[num] := x.extra;
        num := num + 1;
      }
      assert packed[..num] == before + ItemBytes(x);
      counts[x.code] := counts[x.code] + 1;
      done := done + Adds(done, x);
      items := items + [x];
    }

    /** TDEFL_RLE_PREV_CODE_SIZE. */
    method FlushRepeats(ghost sizes: seq<nat>)
      requires Waiting(sizes) && |sizes| <= MAX_SIZES && Tidy()
      modifies this`num, this`items, this`done, this`repeats, packed, counts
      ensures Waiting(sizes) && repeats == 0 && Tidy()
      ensures if old(repeats) == 0 then items == old(items) else LastValue(items) == prev
      ensures old(repeats) == 6 ==> LastLongest(items)
    {
      hide Packed, Repeat, Unpacks, Neat, LastValue, LastSingles, LastLongest;
      NoRepeats();
      if repeats == 0 { return; }
      if repeats < 3 {
        LongestIsRun(items);
        while repeats > 0
          invariant Packed() && repeats <= old(repeats) < 3 && 0 < prev < 16 && zeros == 0
          invariant sizes == done + Repeat(prev, repeats)
          invariant Neat(items) && LastValue(items) == prev
          invariant LastSingles(items) == old(repeats) - repeats + 1 || LastSingles(items) == old(repeats) - repeats
          invariant repeats == old(repeats) && LastSingles(items) == 0 ==> LastLongest(items)
        {
          RepeatFirst(prev, repeats);
          SingleAppended(items, prev);
          LongestIsRun(items);
          Emit(Item(prev, 0));
          repeats := repeats - 1;
          assert sizes == done + Repeat(prev, repeats);
        }
      } else {
        RunFits(16, repeats - 3);
        RunAppended(items, Item(16, repeats - 3));
        Emit(Item(16, repeats - 3));
        repeats := 0;
      }
    }

    /** TDEFL_RLE_ZERO_CODE_SIZE. */
    method FlushZeros(ghost sizes: seq<nat>)
      requires Waiting(sizes) && |sizes| <= MAX_SIZES && Tidy()
      modifies this`num, this`items, this`done, this`zeros, packed, counts
      ensures Waiting(sizes) && zeros == 0 && Tidy()
      ensures if old(zeros) == 0 then items == old(items) else LastValue(items) == 0
      ensures old(zeros) == 138 ==> LastLongest(items)
    {
      hide Packed, Repeat, Unpacks, Neat, LastValue, LastSingles, LastLongest;
      NoRepeats();
      if zeros == 0 { return; }
      if zeros < 3 {
        while zeros > 0
          invariant Packed() && zeros <= old(zeros) < 3 && sizes == done + Repeat(0, zeros)
          invariant Neat(items)
          invariant if zeros == old(zeros) then LastLongest(items) || LastValue(items) != 0
                    else LastValue(items) == 0 && LastSingles(items) == old(zeros) - zeros
        {
          RepeatFirst(0, zeros);
          SingleAppended(items, 0);
          LongestIsRun(items);
          Emit(Item(0, 0));
          zeros := zeros - 1;
          assert sizes == done + Repeat(0, zeros);
        }
      } else if zeros <= 10 {
        RunFits(17, zeros - 3);
        RunAppended(items, Item(17, zeros - 3));
        Emit(Item(17, zeros - 3));
        zeros := 0;
      } else {
        RunFits(18, zeros - 11);
        RunAppended(items, Item(18, zeros - 11));
        Emit(Item(18, zeros - 11));
        zeros := 0;
      }
    }

    method TakeZero(ghost sizes: seq<nat>)
      requires Valid(sizes) && TidyNext() && |sizes| < MAX_SIZES
      modifies this`num, this`items, this`done, this`zeros, this`repeats, packed, counts
      ensures Waiting(sizes + [0]) && zeros < 138 && repeats == 0
      ensures Neat(items) && (LastLongest(items) || (zeros > 0 && LastValue(items) != 0))
    {
      hide Packed, Unpacks, Neat, LastValue, LastSingles, LastLongest;
      NothingNeat();
      FlushRepeats(sizes);
      zeros := zeros + 1;
      assert sizes + [0] == done + Repeat(0, zeros);
      if zeros == 138 { FlushZeros(sizes + [0]); }
    }

    /** Another length than the one before. */
    method TakeOther(size: nat, ghost sizes: seq<nat>)
      requires Waiting(sizes) && Tidy() && zeros == 0 && 0 < size < 16 && size != prev && |sizes| < MAX_SIZES
      requires if prev == NO_SIZE then items == [] else LastValue(items) == prev || LastLongest(items)
      modifies this`num, this`items, this`done, this`repeats, packed, counts
      ensures Packed() && done == sizes + [size] && repeats == 0
      ensures Neat(items) && LastValue(items) == size && LastSingles(items) == 1
    {
      hide Packed, Unpacks, Neat, LastValue, LastSingles, LastLongest;
      NothingNeat();
      FlushRepeats(sizes);
      assert done == sizes;
      Small(size);
      LongestIsRun(items);
      SingleAppended(items, size);
      Emit(Item(size, 0));
    }

    /** The same length once more. */
    method TakeSame(ghost sizes: seq<nat>)
      requires Valid(sizes) && TidyNext() && 0 < prev < 16 && |sizes| < MAX_SIZES
      modifies this`num, this`items, this`done, this`repeats, packed, counts
      ensures Waiting(sizes + [prev]) && repeats < 6
      ensures Neat(items) && LastValue(items) == prev && (LastLongest(items) || LastSingles(items) == 1)
    {
      hide Packed, Unpacks, Neat, LastValue, LastSingles, LastLongest;
      assert repeats == 0 ==> done == sizes;
      repeats := repeats + 1;
      assert sizes + [prev] == done + Repeat(prev, repeats);
      if repeats == 6 { FlushRepeats(sizes + [prev]); }
    }

    /** One more length. */
    method Take(size: nat, ghost sizes: seq<nat>)
      requires Valid(sizes) && TidyNext() && size < 16 && |sizes| < MAX_SIZES
      modifies this`num, this`items, this`done, this`zeros, this`repeats, this`prev, packed, counts
      ensures Valid(sizes + [size]) && TidyNext()
    {
      hide Packed, Unpacks, Neat, LastValue, LastSingles, LastLongest, Repeat;
      NoRepeats();
      if size == 0 {
        TakeZero(sizes);
      } else {
        FlushZeros(sizes);
        if size != prev { TakeOther(size, sizes); } else { TakeSame(sizes); }
      }
      prev := size;
    }
  }

  lemma NoRepeats()
    ensures forall v: nat :: Repeat(v, 0) == []
  {
  }

  lemma Small(size: nat)
    requires size < 16
    ensures ValidItem(Item(size, 0))
  {
  }

  lemma RepeatNone(v: nat)
    ensures Repeat(v, 0) == []
  {
  }

  /** Packs all lengths: the items stand for exactly these, take no more room, are counted, and miss no run. */
  method Pack(sizes: seq<nat>) returns (p: SizePacker)
    requires |sizes| <= MAX_SIZES && forall i :: 0 <= i < |sizes| ==> sizes[i] < 16
    ensures fresh(p) && fresh(p.packed) && fresh(p.counts)
    ensures p.Packed() && p.done == sizes && Neat(p.items)
  {
    hide SizePacker.Packed, Repeat;
    p := new SizePacker();
    var i := 0;
    while i < |sizes|
      invariant 0 <= i <= |sizes| && p.Valid(sizes[..i]) && p.TidyNext()
      invariant fresh(p) && fresh(p.packed) && fresh(p.counts)
    {
      p.Take(sizes[i], sizes[..i]);
      i := i + 1;
      assert sizes[..i] == sizes[..i - 1] + [sizes[i - 1]];
    }
    assert sizes[..i] == sizes;
    RepeatNone(0);
    if p.repeats > 0 {
      p.FlushRepeats(sizes);
    } else {
      p.FlushZeros(sizes);
    }
  }

  lemma RepeatFirst(v: nat, n: nat)
    requires n > 0
    ensures Repeat(v, n) == [v] + Repeat(v, n - 1)
  {
  }

  /** Every run's extra value fits its bits. */
  lemma RunFits(code: nat, extra: nat)
    requires 16 <= code <= 18 && extra <= (if code == 16 then 3 else if code == 17 then 7 else 127)
    ensures ValidItem(Item(code, extra))
  {
    Pow2Values();
  }

  lemma AddsRoom(sizes: seq<nat>, x: Item)
    requires ValidItem(x) && (x.code == 16 ==> sizes != [])
    ensures |ItemBytes(x)| <= |Adds(sizes, x)|
  {
  }

  function UsesSum(items: seq<Item>, n: nat): (t: nat) {
    if n == 0 then 0 else UsesSum(items, n - 1) + CodeUses(items, n - 1)
  }

  lemma {:induction false} UsesSumLast(items: seq<Item>, n: nat)
    requires items != []
    ensures UsesSum(items, n) == UsesSum(items[..|items| - 1], n) + if items[|items| - 1].code < n then 1 else 0
  {
    if n > 0 { UsesSumLast(items, n - 1); }
  }

  lemma {:induction false} NoUses(n: nat)
    ensures UsesSum([], n) == 0
  {
    if n > 0 { NoUses(n - 1); }
  }

  /** Each item is counted once. */
  lemma {:induction false} UsesSumAll(items: seq<Item>)
    requires AllItems(items)
    ensures UsesSum(items, NUM_CODES) == |items|
  {
    if items == [] {
      NoUses(NUM_CODES);
    } else {
      UsesSumLast(items, NUM_CODES);
      UsesSumAll(items[..|items| - 1]);
    }
  }

  lemma {:induction false} CountsTotal(counts: seq<u16>, items: seq<Item>, n: nat)
    requires n <= |counts| == NUM_CODES && forall c :: 0 <= c < NUM_CODES ==> counts[c] == CodeUses(items, c)
    ensures UsedSymbols.Total(counts, n) == UsesSum(items, n)
  {
    if n > 0 { CountsTotal(counts, items, n - 1); }
  }

  lemma {:induction false} UsedIn(items: seq<Item>, i: nat)
    requires i < |items|
    ensures CodeUses(items, items[i].code) >= 1
  {
    if i < |items| - 1 { UsedIn(items[..|items| - 1], i); }
  }
}
