/** The LZ77 parse: hash chains over a ring dictionary, greedy or lazy choice of matches
    (tdefl_compress_normal, tdefl_find_match). */
module LzParse {
  import opened Bits
  import opened Symbols
  import opened Tokens
  import opened CodeBuffer
  import opened LzWindow
  import opened LzChain
  import opened LzHash
  import opened BlockFlush

  const LOOKAHEAD := 258       // TDEFL_MAX_MATCH_LEN

  /** The bits of a compressor's flags that the parse looks at. */
  datatype Options = Options(rle: bool, raw: bool, filter: bool, greedy: bool, probes: nat, longProbes: nat)

  class Compressor {
    const options: Options
    const dict: array<byte>
    const next: array<u16>
    const hash: array<u16>
    const lz: LzBuffer
    var pos: nat          // m_lookahead_pos
    var ahead: nat        // m_lookahead_size
    var dictSize: nat     // m_dict_size
    var dictPos: nat      // m_lz_code_buf_dict_pos
    var savedLen: nat
    var savedDist: nat
    var savedLit: byte
    ghost var hist: seq<byte>   // every byte taken from the input

    ghost predicate Shaped() {
      && dict.Length == DICT_BUF && next.Length == DICT_SIZE && hash.Length == HASH_SIZE
      && options.probes >= 1 && options.longProbes >= 1 && lz.Shaped()
      && lz.buf != dict && next != hash && next != lz.litCount && next != lz.distCount
      && hash != lz.litCount && hash != lz.distCount
    }

    ghost predicate Sized()
      reads this
    {
      pos + ahead == |hist| && ahead <= LOOKAHEAD && dictSize <= pos && dictSize + ahead <= DICT_SIZE
    }

    /** The ring holds the dictionary and the lookahead. */
    ghost predicate Ringed()
      reads this, dict
    {
      Sized() && Window(dict[..], hist, pos - dictSize)
    }

    /** The chains lead through the dictionary and the lookahead, as far as positions are entered. */
    ghost predicate LinkedTo(hi: nat)
      requires Shaped() && dictSize <= pos
      reads this, next, hash
    {
      Linked(next[..], hash[..], hist, LowEnd(pos, ahead, dictSize), hi)
    }

    ghost predicate Chained()
      reads this, next, hash
    {
      Shaped() && Sized() && LinkedTo(Entered(hist))
    }

    /** What was parsed: all of the input before the lookahead, but one byte while a match waits. */
    ghost function Parsed(): (n: nat)
      requires savedLen > 0 ==> pos >= 1
      reads this
    {
      if savedLen > 0 then pos - 1 else pos
    }

    ghost predicate SavedValid()
      reads this
    {
      savedLen > 0 ==>
        && 1 <= pos <= |hist| && savedLit == hist[pos - 1] && MIN_MATCH <= savedLen < 128
        && savedDist <= MAX_DIST && Repeats(hist, pos - 1, savedDist, savedLen)
    }

    /** The tokens recorded since the last block stand for the input from there up to n. */
    ghost predicate RecordedTo(n: nat)
      reads this, lz
    {
      dictPos <= n <= |hist| && Expands(hist[..dictPos], lz.toks, hist[..n])
    }

    ghost predicate Recorded()
      reads this, lz
    {
      (savedLen > 0 ==> pos >= 1) && RecordedTo(Parsed())
    }

    /** The dictionary goes back to where the block starts, or is all but full. */
    ghost predicate Covered()
      reads this
    {
      pos - dictPos <= dictSize || dictSize >= 32510
    }

    /** A block to be stored raw is kept short enough for the dictionary. */
    ghost predicate RawShort(most: nat)
      reads this, lz
    {
      options.raw ==> lz.total <= most
    }

    /** What always holds between steps. */
    ghost predicate Running()
      reads this, dict, next, hash, lz, lz.buf, lz.litCount, lz.distCount
    {
      && Shaped() && lz.Valid() && lz.next <= CODE_BUF_SIZE - 2
      && Ringed() && Chained() && SavedValid() && Recorded() && Covered() && RawShort(32003)
    }

    /** And, once a due flush is done, room for a literal and a match. */
    ghost predicate Valid()
      reads this, dict, next, hash, lz, lz.buf, lz.litCount, lz.distCount
    {
      Running() && lz.next <= CODE_BUF_SIZE - 8 && RawShort(31744)
    }

    /** tdefl_init; the dictionary and the chains start with whatever memory holds. */
    constructor (options: Options)
      requires options.probes >= 1 && options.longProbes >= 1
      ensures Valid() && hist == [] && lz.toks == [] && dictPos == 0 && savedLen == 0 && this.options == options
      ensures fresh(dict) && fresh(next) && fresh(hash) && fresh(lz) && fresh(lz.buf) && fresh(lz.litCount) && fresh(lz.distCount)
    {
      hide Layout, LitUses, DistUses, TotalLength, AllValid;
      this.options := options;
      dict := new byte[DICT_BUF];
      next := new u16[DICT_SIZE];
      hash := new u16[HASH_SIZE](_ => 0);
      lz := new LzBuffer();
      pos, ahead, dictSize, dictPos, savedLen, savedDist, savedLit, hist := 0, 0, 0, 0, 0, 0, 0, [];
      new;
      NothingTotal();
    }

    // -------------------------------------------------------------- taking input

    /** Puts one byte at the end of the lookahead. */
    method StoreByte(c: byte)
      requires Shaped() && pos + ahead == |hist| && dictSize <= pos && ahead < LOOKAHEAD
      requires Window(dict[..], hist, LowEnd(pos, ahead, dictSize)) && LinkedTo(Entered(hist))
      modifies this`ahead, this`hist, dict
      ensures ahead == old(ahead) + 1 && hist == old(hist) + [c]
      ensures Window(dict[..], hist, LowEnd(pos, ahead, dictSize)) && LinkedTo(Entered(old(hist)))
    {
      hide Window, Linked;
      LinkedMore(next[..], hash[..], hist, [c], LowEnd(pos, ahead, dictSize), Entered(hist));
      LinkedLess(next[..], hash[..], hist + [c], LowEnd(pos, ahead, dictSize), LowEnd(pos, ahead + 1, dictSize), Entered(hist));
      ghost var d, n := dict[..], pos + ahead;
      LowEndGrows(pos, ahead, dictSize);
      StoreKeeps(d, hist, LowEnd(pos, ahead, dictSize), c, LowEnd(pos, ahead + 1, dictSize));
      var at := (pos + ahead) % DICT_SIZE;
      dict[at] := c;
      if at < MIRROR { dict[DICT_SIZE + at] := c; }
      assert dict[..] == Written(d, n, c);
      ahead := ahead + 1;
      hist := hist + [c];
    }

    /** Enters a position into its hash chain. */
    method Chain(h: nat, at: nat)
      requires Shaped() && dictSize <= pos && at < Entered(hist) && LinkedTo(at)
      requires h % HASH_SIZE == BucketOf(hist, at)
      requires LowEnd(pos, ahead, dictSize) <= at < LowEnd(pos, ahead, dictSize) + DICT_SIZE
      modifies next, hash
      ensures LinkedTo(at + 1)
    {
      hide Linked, BucketOf;
      LinkedEnter(next[..], hash[..], hist, LowEnd(pos, ahead, dictSize), at);
      ghost var n: seq<u16>, b: seq<u16> := next[..], hash[..];
      next[at % DICT_SIZE] := hash[h % HASH_SIZE];
      assert next[..] == n[at % DICT_SIZE := b[h % HASH_SIZE]];
      hash[h % HASH_SIZE] := at % 65536;
      assert hash[..] == b[h % HASH_SIZE := at % 65536];
    }

    /** MZ_CLEAR_OBJ on both tables. */
    method ClearChains()
      requires Shaped()
      modifies next, hash
    {
      forall i | 0 <= i < hash.Length { hash[i] := 0; }
      forall i | 0 <= i < next.Length { next[i] := 0; }
    }

    /** Fills the lookahead, when two bytes before it are known. */
    method TakeMore(src: seq<byte>, from: nat) returns (to: nat)
      requires Shaped() && Ringed() && Chained() && from <= |src| && ahead + dictSize >= 2
      modifies this`ahead, this`hist, dict, next, hash
      ensures from <= to <= |src| && hist == old(hist) + src[from..to] && ahead == old(ahead) + (to - from)
      ensures to == |src| || ahead == LOOKAHEAD
      ensures ahead <= LOOKAHEAD && Window(dict[..], hist, LowEnd(pos, ahead, dictSize)) && LinkedTo(Entered(hist))
    {
      hide Window, Xor, Linked, Rolled, HashOf, BucketOf;
      var insPos := pos + ahead - 2;
      TwoBefore();
      var h: nat := Xor(dict[insPos % DICT_SIZE] * HASH_SHIFT, dict[(insPos + 1) % DICT_SIZE]);
      var end := from + if |src| - from < LOOKAHEAD - ahead then |src| - from else LOOKAHEAD - ahead;
      to := from;
      while to < end
        invariant from <= to <= end && ahead == old(ahead) + (to - from)
        invariant hist == old(hist) + src[from..to] && pos + ahead == |hist|
        invariant Window(dict[..], hist, LowEnd(pos, ahead, dictSize))
        invariant insPos == pos + ahead - 2 && LinkedTo(Entered(hist)) && Rolled(h, hist[insPos], hist[insPos + 1])
      {
        var c := src[to];
        Rolls(h, hist[insPos], hist[insPos + 1], c);
        StoreByte(c);
        h := Xor(h * HASH_SHIFT, c) % HASH_SIZE;
        BucketIs(hist, insPos);
        LowEndBelow(pos, ahead, dictSize);
        Chain(h, insPos);
        insPos, to := insPos + 1, to + 1;
        assert src[from..to] == src[from..to - 1] + [c];
      }
    }

    /** The two bytes before, of which the first hash goes on. */
    lemma TwoBefore()
      requires Shaped() && Ringed() && ahead + dictSize >= 2
      ensures var i := pos + ahead - 2;
              && dict[i % DICT_SIZE] == hist[i] && dict[(i + 1) % DICT_SIZE] == hist[i + 1]
              && Rolled(Xor(hist[i] * HASH_SHIFT, hist[i + 1]), hist[i], hist[i + 1])
    {
      hide Xor, Rolled;
      var i := pos + ahead - 2;
      assert Held(dict[..], hist, i) && Held(dict[..], hist, i + 1);
      StartsRolled(hist[i], hist[i + 1]);
    }

    /** Fills the lookahead from the very start of the input. */
    method TakeFirst(src: seq<byte>, from: nat) returns (to: nat)
      requires Shaped() && Ringed() && Chained() && from <= |src|
      modifies this`ahead, this`hist, dict, next, hash
      ensures from <= to <= |src| && hist == old(hist) + src[from..to] && ahead == old(ahead) + (to - from)
      ensures to == |src| || ahead == LOOKAHEAD
      ensures ahead <= LOOKAHEAD && Window(dict[..], hist, LowEnd(pos, ahead, dictSize)) && LinkedTo(Entered(hist))
    {
      hide Window, Xor, Linked, HashOf, BucketOf;
      to := from;
      while to < |src| && ahead < LOOKAHEAD
        invariant from <= to <= |src| && ahead == old(ahead) + (to - from) && ahead <= LOOKAHEAD
        invariant hist == old(hist) + src[from..to] && pos + ahead == |hist|
        invariant Window(dict[..], hist, LowEnd(pos, ahead, dictSize)) && LinkedTo(Entered(hist))
      {
        var c := src[to];
        StoreByte(c);
        if ahead + dictSize >= MIN_MATCH {
          var insPos := pos + (ahead - 1) - 2;
          ThreeHeld(insPos);
          var h := Xor(Xor(dict[insPos % DICT_SIZE] * HASH_SHIFT * HASH_SHIFT, dict[(insPos + 1) % DICT_SIZE] * HASH_SHIFT), c);
          LowEndBelow(pos, ahead, dictSize);
          Chain(h, insPos);
        } else {
          NoneEntered();
        }
        to := to + 1;
        assert src[from..to] == src[from..to - 1] + [c];
      }
    }

    /** The last three bytes taken, and their bucket. */
    lemma ThreeHeld(i: nat)
      requires Shaped() && dictSize <= pos && pos + ahead == |hist| && i + 3 == |hist| && ahead + dictSize >= 3
      requires ahead <= LOOKAHEAD && Window(dict[..], hist, LowEnd(pos, ahead, dictSize))
      ensures dict[i % DICT_SIZE] == hist[i] && dict[(i + 1) % DICT_SIZE] == hist[i + 1]
      ensures Xor(Xor(hist[i] * HASH_SHIFT * HASH_SHIFT, hist[i + 1] * HASH_SHIFT), hist[i + 2]) % HASH_SIZE == BucketOf(hist, i)
    {
      hide Xor;
      assert Held(dict[..], hist, i) && Held(dict[..], hist, i + 1);
      var b: nat := hist[i];
      assert b * HASH_SHIFT * HASH_SHIFT == b * 1024;
    }

    /** Of fewer than three bytes none is entered. */
    lemma NoneEntered()
      requires Shaped() && dictSize <= pos && pos + ahead == |hist| && ahead + dictSize < 3 && ahead >= 1
      requires LinkedTo(Entered(hist[..|hist| - 1]))
      ensures LinkedTo(Entered(hist))
    {
      hide BucketOf;
    }

    /** Tops up the lookahead, and forgets the dictionary's oldest bytes if the ring is full. */
    method TakeInput(src: seq<byte>, from: nat) returns (to: nat)
      requires Shaped() && Ringed() && Chained() && from <= |src|
      modifies this`ahead, this`hist, this`dictSize, dict, next, hash
      ensures from <= to <= |src| && hist == old(hist) + src[from..to] && ahead == old(ahead) + (to - from)
      ensures to == |src| || ahead == LOOKAHEAD
      ensures Ringed() && Chained()
      ensures dictSize == if old(dictSize) < 32768 - ahead then old(dictSize) else 32768 - ahead
    {
      hide Window, Linked;
      if ahead + dictSize >= MIN_MATCH - 1 {
        to := TakeMore(src, from);
      } else {
        to := TakeFirst(src, from);
      }
      WindowShrinks(dict[..], hist, LowEnd(pos, ahead, dictSize), LowEnd(pos, ahead, dictSize));
      dictSize := if DICT_SIZE - ahead < dictSize then DICT_SIZE - ahead else dictSize;
    }

    // -------------------------------------------------------------- looking for a match

    /** The first n places of the chain, all in the dictionary, hold no match longer than len. */
    ghost predicate Passed(n: nat, len: nat)
      requires Shaped()
      reads this, dict, next
    {
      StepsWithin(next[..], pos, dictSize, n) && NoneAgrees(dict[..], next[..], pos, n, len + 1)
    }

    /** Follows the hash chain past n0 to the next place whose last two bytes could beat len. */
    method NextProbe(probe0: nat, len: nat, c0: byte, c1: byte, left0: nat, ghost n0: nat)
      returns (found: bool, probe: nat, dist: nat, left: nat, ghost n: nat)
      requires Shaped() && Ringed() && MIN_MATCH - 1 <= len < ahead && left0 >= 1
      requires probe0 == ChainAt(next[..], pos, n0) && Passed(n0, len)
      requires c0 == dict[pos % DICT_SIZE + len] && c1 == dict[pos % DICT_SIZE + len - 1]
      ensures n >= n0 && Passed(n, len) && n + left + 1 >= n0 + left0
      ensures found ==> 1 <= left < left0 && dist <= dictSize && probe == (pos - dist) % DICT_SIZE < DICT_SIZE
      ensures found ==> dist == StepBack(next[..], pos, n) && probe == ChainAt(next[..], pos, n + 1)
      ensures if found then dist == 0 <==> ChainEnds(next[..], pos, dictSize, n) else left == 0 || ChainEnds(next[..], pos, dictSize, n)
    {
      hide ChainAt, NoneAgrees;
      found, probe, dist, left, n := false, probe0, 0, left0, n0;
      while true
        invariant 1 <= left <= left0 && n >= n0 && n + left >= n0 + left0
        invariant probe == ChainAt(next[..], pos, n) && Passed(n, len)
        decreases left
      {
        left := left - 1;
        if left == 0 { return; }
        ghost var n1 := n;
        for k := 0 to 3
          invariant !found && n == n1 + k && probe == ChainAt(next[..], pos, n) && Passed(n, len)
        {
          var npp := next[probe];
          dist := (pos - npp) % 65536;
          if npp == 0 || dist > dictSize { return; }
          ProbePosition(pos, npp, dist);
          ChainStep(next[..], pos, n);
          probe := npp % DICT_SIZE;
          if dict[probe + len] == c0 && dict[probe + len - 1] == c1 {
            found := true;
            return;
          }
          PassesOne(n, len, if dict[probe + len] == c0 then len - 1 else len);
          n := n + 1;
        }
      }
    }

    /** One place more, where one of the first len + 1 bytes differs. */
    lemma PassesOne(n: nat, len: nat, i: nat)
      requires Shaped() && Ringed() && len < ahead && Passed(n, len) && i <= len && !ChainEnds(next[..], pos, dictSize, n)
      requires var a, b := pos % DICT_SIZE, ChainAt(next[..], pos, n + 1); dict[a + i] != dict[b + i]
      ensures Passed(n + 1, len)
    {
      hide ChainAt, NoneAgrees, ChainEnds, Window;
      OneMoreDiffers(dict[..], next[..], pos, n, len + 1, i);
    }

    /** One place more, where i bytes agree. */
    lemma PassesWith(n: nat, len: nat, i: nat, at: nat, probe: nat)
      requires Shaped() && Ringed() && len < ahead && Passed(n, len) && i < ahead && !ChainEnds(next[..], pos, dictSize, n)
      requires at == pos % DICT_SIZE && probe == ChainAt(next[..], pos, n + 1) && dict[at + i] != dict[probe + i]
      ensures Passed(n + 1, if i > len then i else len)
    {
      hide ChainAt, NoneAgrees, StepsWithin, ChainEnds, Window;
      var more := if i > len then i else len;
      NoneAgreesMore(dict[..], next[..], pos, n, len + 1, more + 1);
      PassesOne(n, more, i);
    }


    lemma NothingPassed(len: nat)
      requires Shaped()
      ensures Passed(0, len) && ChainAt(next[..], pos, 0) == pos % DICT_SIZE
    {
    }

    lemma PassedNone(n: nat, len: nat)
      requires Shaped() && Ringed() && len < ahead && Passed(n, len)
      ensures NoneRepeats(hist, next[..], pos, n, len + 1)
    {
      hide ChainAt, NoneAgrees, StepsWithin, NoneRepeats, Window;
      NoneAgreesNoneRepeats(dict[..], hist, next[..], pos, ahead, dictSize, n, len + 1);
    }

    /** How far two stretches of the ring agree, up to the lookahead. */
    method Agreement(at: nat, probe: nat) returns (n: nat)
      requires Shaped() && at < DICT_SIZE && probe < DICT_SIZE && ahead <= LOOKAHEAD
      ensures n <= ahead && dict[at..at + n] == dict[probe..probe + n]
      ensures n < ahead ==> dict[at + n] != dict[probe + n]
    {
      n := 0;
      while n < ahead && dict[at + n] == dict[probe + n]
        invariant n <= ahead && dict[at..at + n] == dict[probe..probe + n]
      {
        assert dict[at..at + n + 1] == dict[at..at + n] + [dict[at + n]];
        assert dict[probe..probe + n + 1] == dict[probe..probe + n] + [dict[probe + n]];
        n := n + 1;
      }
    }

    /** No match, or one from the places looked at. */
    ghost predicate Best(len0: nat, dist: nat, len: nat, probed: nat)
      requires Shaped()
      reads this, next
    {
      if dist == 0 then len == len0
      else len0 < len <= ahead && dist <= dictSize && Repeats(hist, pos, dist, len) && OnChain(next[..], pos, probed, dist)
    }

    lemma NoneBest(len0: nat)
      requires Shaped()
      ensures Best(len0, 0, len0, 0)
    {
    }

    lemma StillBest(len0: nat, dist: nat, len: nat, m: nat, n: nat)
      requires Shaped() && Best(len0, dist, len, m) && m <= n
      ensures Best(len0, dist, len, n)
    {
      hide Repeats, OnChain;
      if dist != 0 { OnChainMore(next[..], pos, m, n, dist); }
    }

    lemma NowBest(len0: nat, at: nat, probe: nat, dist: nat, len: nat, n: nat)
      requires Shaped() && Ringed() && len0 < len <= ahead && 1 <= dist <= dictSize && dist == StepBack(next[..], pos, n)
      requires at == pos % DICT_SIZE && probe == (pos - dist) % DICT_SIZE && dict[at..at + len] == dict[probe..probe + len]
      ensures Best(len0, dist, len, n + 1)
    {
      hide Window, Repeats, OnChain, StepBack;
      assert dict[..][at..at + len] == dict[at..at + len] && dict[..][probe..probe + len] == dict[probe..probe + len];
      AgreementRepeats(dict[..], hist, pos, ahead, dictSize, dist, len);
      StepOnChain(next[..], pos, n);
    }

    /** How many probes may be made: each looks at up to three places. */
    function Probes(len: nat): nat {
      if len >= 32 then options.longProbes else options.probes
    }

    /** Of a chain followed to its end, or past all of the dictionary, nothing is missed. */
    lemma NothingMissed(probed: nat, len: nat)
      requires Shaped() && Ringed() && Chained() && MIN_MATCH - 1 <= len && NoneRepeats(hist, next[..], pos, probed, len + 1)
      requires ChainEnds(next[..], pos, dictSize, probed) || probed >= dictSize
      ensures NoneBetter(hist, pos, dictSize, len + 1)
    {
      hide Window, Linked, ChainEnds, NoneRepeats;
      FollowedIsBest(next[..], hash[..], hist, pos, dictSize, probed, len + 1);
    }

    lemma LookaheadFits()
      requires Shaped() && Ringed()
      ensures ahead <= LOOKAHEAD && dict.Length >= DICT_SIZE + LOOKAHEAD - 1
    {
    }

    /** tdefl_find_match: a longer match than len0 in the dictionary, or none. Unless it takes in all
        of the lookahead, the match is the longest at the places looked at, which are those from the
        start of the hash chain to its end, or as many as the probes allow; and if they allow more than
        the dictionary has, no position in it that is in sight has a longer one. */
    method FindMatch(len0: nat) returns (dist: nat, len: nat, ghost probed: nat)
      requires Shaped() && Ringed() && Chained() && MIN_MATCH - 1 <= len0 < 128
      ensures Best(len0, dist, len, probed)
      ensures len < ahead ==> NoneRepeats(hist, next[..], pos, probed, len + 1)
      ensures len < ahead ==> ChainEnds(next[..], pos, dictSize, probed) || probed + 1 >= if len0 < 32 then options.probes else options.longProbes
      ensures len < ahead && Probes(len0) > dictSize ==> NoneBetter(hist, pos, dictSize, len + 1)
    {
      hide Window, Repeats, ChainAt, NoneAgrees, StepsWithin, NoneRepeats, OnChain, StepBack, ChainEnds, Compressor.Passed,
        Compressor.Best, Compressor.Chained, Compressor.Ringed, NoneBetter;
      LookaheadFits();
      dist, len, probed := 0, len0, 0;
      assert Best(len0, dist, len, probed) by { NoneBest(len0); }
      var at := pos % DICT_SIZE;
      var left := Probes(len);
      var c0, c1 := dict[at + len], dict[at + len - 1];
      if ahead <= len { return; }
      var probe: nat := at;
      NothingPassed(len);
      while true
        invariant left >= 1 && len0 <= len < ahead && probed + left >= Probes(len0)
        invariant Best(len0, dist, len, probed)
        invariant probe == ChainAt(next[..], pos, probed) && Passed(probed, len)
        invariant c0 == dict[at + len] && c1 == dict[at + len - 1]
        decreases left
      {
        var found, d;
        ghost var before := probed;
        found, probe, d, left, probed := NextProbe(probe, len, c0, c1, left, probed);
        if !found || d == 0 {
          StillBest(len0, dist, len, before, probed);
          PassedNone(probed, len);
          if Probes(len0) > dictSize { NothingMissed(probed, len); }
          return;
        }
        var n := Agreement(at, probe);
        if n < ahead { PassesWith(probed, len, n, at, probe); }
        probed := probed + 1;
        StillBest(len0, dist, len, before, probed);
        if n > len {
          NowBest(len0, at, probe, d, n, probed - 1);
          dist, len := d, n;
          if n == ahead { return; }
          c0, c1 := dict[at + len], dict[at + len - 1];
        }
      }
    }

    /** A run of the byte before the lookahead. */
    method FindRun() returns (dist: nat, len: nat)
      requires Shaped() && Ringed() && dictSize > 0
      ensures if dist == 0 then len == 0 && (ahead >= 3 ==> !Repeats(hist, pos, 1, 3))
              else dist == 1 && MIN_MATCH <= len <= ahead && Repeats(hist, pos, 1, len) && (len < ahead ==> !Repeats(hist, pos, 1, len + 1))
    {
      hide Window, Repeats;
      var at, c := pos % DICT_SIZE, dict[(pos - 1) % DICT_SIZE];
      dist, len := 0, 0;
      while len < ahead && dict[at + len] == c
        invariant len <= ahead && forall k :: at <= k < at + len ==> dict[k] == c
      {
        len := len + 1;
      }
      if len < ahead { RunEnds(dict[..], hist, pos, ahead, dictSize, len); }
      if len < MIN_MATCH {
        if ahead >= 3 { NoShorter(hist, pos, len + 1); }
        len := 0;
      } else {
        RunRepeats(dict[..], hist, pos, ahead, dictSize, len);
        dist := 1;
      }
    }

    /** The match to beat: one that waits, or none. */
    function ToBeat(): nat
      reads this
    {
      if savedLen > 0 then savedLen else 2
    }

    /** What is found at the current position: nothing if only raw blocks are made, with run lengths the longest
        run of the byte before, and else what the hash chains have. */
    ghost predicate Found(d: nat, n: nat)
      requires Shaped()
      reads this
    {
      if options.raw then d == 0 && n == ToBeat()
      else if options.rle then
        if dictSize == 0 then d == 0 && n == ToBeat()
        else if d == 0 then n == 0 && (ahead >= 3 ==> !Repeats(hist, pos, 1, 3))
        else d == 1 && 3 <= n <= ahead && Repeats(hist, pos, 1, n) && (n < ahead ==> !Repeats(hist, pos, 1, n + 1))
      else
        && (if d == 0 then n == ToBeat() else ToBeat() < n <= ahead && d <= dictSize && Repeats(hist, pos, d, n))
        && (n < ahead && Probes(ToBeat()) > dictSize ==> NoneBetter(hist, pos, dictSize, n + 1))
    }

    /** Not worth its bits, or one that the filter keeps out. */
    predicate Dropped(d: nat, n: nat)
      reads this
    {
      (n == 3 && d >= 8192) || pos % 32768 == d || (options.filter && n <= 5)
    }

    /** The match to consider at the current position; dist is 0 when there is none. */
    method Choose() returns (dist: nat, len: nat, ghost d: nat, ghost n: nat)
      requires Shaped() && Ringed() && Chained() && SavedValid() && ahead >= 1
      ensures Found(d, n)
      ensures (dist, len) == if (n == 3 && d >= 8192) || pos % 32768 == d || (options.filter && n <= 5) then (0, 0) else (d, n)
      ensures dist != 0 ==> MIN_MATCH <= len <= ahead && dist <= dictSize && Repeats(hist, pos, dist, len)
      ensures dist == 0 ==> len <= ToBeat()
    {
      hide Window, Repeats, NoneBetter, Compressor.Chained;
      dist, len := 0, if savedLen > 0 then savedLen else MIN_MATCH - 1;
      if options.rle || options.raw {
        if dictSize > 0 && !options.raw { dist, len := FindRun(); }
      } else {
        ghost var probed;
        dist, len, probed := FindMatch(len);
      }
      d, n := dist, len;
      if (len == MIN_MATCH && dist >= 8 * 1024) || pos % DICT_SIZE == dist || (options.filter && len <= 5) {
        dist, len := 0, 0;
      }
    }

    // -------------------------------------------------------------- recording it

    method EmitLiteral(ghost at: nat, lit: byte)
      requires Shaped() && lz.Valid() && lz.next + 2 <= CODE_BUF_SIZE
      requires RecordedTo(at) && at < |hist| && lit == hist[at]
      modifies lz, lz.buf, lz.litCount, lz.distCount
      ensures lz.Valid() && lz.next <= old(lz.next) + 2 && RecordedTo(at + 1) && lz.toks == old(lz.toks) + [Literal(lit)]
    {
      hide Expands, Layout, LitUses, DistUses, TotalLength, AllValid;
      ExpandsLiteral(hist[..dictPos], lz.toks, hist, at);
      lz.RecordLiteral(lit);
    }

    method EmitMatch(ghost at: nat, len: nat, dist: nat)
      requires Shaped() && lz.Valid() && lz.next + 4 <= CODE_BUF_SIZE && MIN_MATCH <= len <= MAX_MATCH && dist <= MAX_DIST
      requires RecordedTo(at) && Repeats(hist, at, dist, len)
      modifies lz, lz.buf, lz.litCount, lz.distCount
      ensures lz.Valid() && lz.next <= old(lz.next) + 4 && RecordedTo(at + len) && lz.toks == old(lz.toks) + [Match(len, dist)]
    {
      hide Expands, Layout, LitUses, DistUses, TotalLength, AllValid;
      ExpandsMatch(hist[..dictPos], lz.toks, hist, at, dist, len);
      lz.RecordMatch(len, dist);
    }

    /** Keeps a match back for one byte, in case the next position has a longer one. */
    method Save(len: nat, dist: nat)
      requires Shaped() && Ringed() && ahead >= 1
      modifies this`savedLit, this`savedLen, this`savedDist
      ensures savedLit == hist[pos] && savedLen == len && savedDist == dist
    {
      ReadAhead(dict[..], hist, pos - dictSize, pos, 0);
      savedLit, savedLen, savedDist := dict[pos % DICT_SIZE], len, dist;
    }

    /** What a step leaves, before the position moves on. */
    ghost predicate Stepped(move: nat)
      reads this, lz
    {
      && 1 <= move <= ahead
      && (savedLen > 0 ==>
            && move == 1 && pos < |hist| && savedLit == hist[pos] && MIN_MATCH <= savedLen < 128
            && savedDist <= MAX_DIST && Repeats(hist, pos, savedDist, savedLen))
      && RecordedTo(if savedLen > 0 then pos + move - 1 else pos + move)
    }

    /** A match is taken at once, without waiting for a longer one. */
    predicate AtOnce(len: nat) {
      options.greedy || options.rle || len >= 128
    }

    /** What a step records. */
    function StepTokens(savedLen: nat, savedDist: nat, savedLit: byte, lit: byte, dist: nat, len: nat): (ts: seq<Token>) {
      if savedLen > 0 then
        if len <= savedLen then [Match(savedLen, savedDist)]
        else [Literal(savedLit)] + if len >= 128 then [Match(len, dist)] else []
      else if dist == 0 then [Literal(lit)]
      else if AtOnce(len) then [Match(len, dist)] else []
    }

    /** How long the match is that it keeps back. */
    function StepKeeps(savedLen: nat, dist: nat, len: nat): nat {
      if savedLen > 0 then (if len <= savedLen || len >= 128 then 0 else len)
      else if dist == 0 || AtOnce(len) then 0 else len
    }

    /** How far it moves on. */
    function StepMoves(savedLen: nat, dist: nat, len: nat): int {
      if savedLen > 0 then (if len <= savedLen then savedLen - 1 else if len >= 128 then len else 1)
      else if dist != 0 && AtOnce(len) then len else 1
    }

    /** A match that is found is used: at once, or, if the next position has no longer one, a step later; if it
        has, one byte goes as a literal and the longer match is used or kept in turn. */
    lemma MatchIsUsed(dist: nat, len: nat, lit: byte, lit': byte, dist': nat, len': nat)
      requires dist != 0 && len >= 3
      ensures AtOnce(len) ==> StepTokens(0, 0, 0, lit, dist, len) == [Match(len, dist)] && StepMoves(0, dist, len) == len
      ensures !AtOnce(len) ==>
                var first, kept := StepTokens(0, 0, 0, lit, dist, len), StepKeeps(0, dist, len);
                var both := first + StepTokens(kept, dist, lit, lit', dist', len');
                var moved := StepMoves(0, dist, len) + StepMoves(kept, dist', len');
                if len' <= len then both == [Match(len, dist)] && moved == len
                else if len' >= 128 then both == [Literal(lit), Match(len', dist')] && moved == 1 + len'
                else both == [Literal(lit)] && moved == 2 && StepKeeps(kept, dist', len') == len'
    {
      if !AtOnce(len) && len' > len && len' >= 128 {
        assert [Literal(lit)] + [Match(len', dist')] == [Literal(lit), Match(len', dist')];
      }
    }

    /** The step when a match waits: give it up for a longer one, or record it. */
    method StepSaved(dist: nat, len: nat) returns (move: nat)
      requires Shaped() && lz.Valid() && lz.next <= CODE_BUF_SIZE - 8 && Ringed() && SavedValid() && Recorded()
      requires ahead >= 1 && savedLen > 0
      requires dist != 0 ==> MIN_MATCH <= len <= ahead && dist <= dictSize && Repeats(hist, pos, dist, len)
      requires dist == 0 ==> len <= savedLen
      modifies this`savedLit, this`savedLen, this`savedDist, lz, lz.buf, lz.litCount, lz.distCount
      ensures lz.Valid() && lz.next <= CODE_BUF_SIZE - 2 && Stepped(move)
      ensures lz.toks == old(lz.toks) + StepTokens(old(savedLen), old(savedDist), old(savedLit), hist[pos], dist, len)
      ensures savedLen == StepKeeps(old(savedLen), dist, len) && (savedLen > 0 ==> savedDist == dist)
      ensures move == StepMoves(old(savedLen), dist, len)
    {
      hide Window, Expands, Layout, LitUses, DistUses, TotalLength, AllValid, Repeats;
      SavedEnds(hist, pos, ahead, savedDist, savedLen);
      if len > savedLen {
        EmitLiteral(pos - 1, savedLit);
        if len >= 128 {
          EmitMatch(pos, len, dist);
          savedLen, move := 0, len;
        } else {
          Save(len, dist);
          move := 1;
        }
      } else {
        EmitMatch(pos - 1, savedLen, savedDist);
        move := savedLen - 1;
        savedLen := 0;
      }
    }

    /** The step when no match waits. */
    method StepFresh(dist: nat, len: nat) returns (move: nat)
      requires Shaped() && lz.Valid() && lz.next <= CODE_BUF_SIZE - 8 && Ringed() && Recorded()
      requires ahead >= 1 && savedLen == 0
      requires dist != 0 ==> MIN_MATCH <= len <= ahead && dist <= dictSize && Repeats(hist, pos, dist, len)
      modifies this`savedLit, this`savedLen, this`savedDist, lz, lz.buf, lz.litCount, lz.distCount
      ensures lz.Valid() && lz.next <= CODE_BUF_SIZE - 2 && Stepped(move)
      ensures lz.toks == old(lz.toks) + StepTokens(0, old(savedDist), old(savedLit), hist[pos], dist, len)
      ensures savedLen == StepKeeps(0, dist, len) && (savedLen > 0 ==> savedDist == dist)
      ensures move == StepMoves(0, dist, len)
    {
      hide Window, Expands, Layout, LitUses, DistUses, TotalLength, AllValid, Repeats;
      move := 1;
      if dist == 0 {
        ReadAhead(dict[..], hist, pos - dictSize, pos, 0);
        EmitLiteral(pos, dict[pos % DICT_SIZE]);
      } else if options.greedy || options.rle || len >= 128 {
        EmitMatch(pos, len, dist);
        move := len;
      } else {
        Save(len, dist);
      }
    }

    /** Moves the lookahead forward. */
    method Advance(move: nat)
      requires Ringed() && Chained() && Stepped(move)
      modifies this`pos, this`ahead, this`dictSize
      ensures pos == old(pos) + move && ahead == old(ahead) - move
      ensures dictSize == if old(dictSize) + move < 32768 then old(dictSize) + move else 32768
      ensures Ringed() && Chained() && SavedValid() && Recorded() && (old(Covered()) ==> Covered())
    {
      hide Window, Expands, Repeats, Linked;
      LinkedOnward(move);
      pos := pos + move;
      ahead := ahead - move;
      dictSize := if dictSize + move < DICT_SIZE then dictSize + move else DICT_SIZE;
    }

    lemma LinkedOnward(move: nat)
      requires Chained() && move <= ahead
      ensures var d := if dictSize + move < 32768 then dictSize + move else 32768;
              Linked(next[..], hash[..], hist, LowEnd(pos + move, ahead - move, d), Entered(hist))
    {
      hide Linked;
      var d := if dictSize + move < 32768 then dictSize + move else 32768;
      LinkedLess(next[..], hash[..], hist, LowEnd(pos, ahead, dictSize), LowEnd(pos + move, ahead - move, d), Entered(hist));
    }

    // -------------------------------------------------------------- one round of the main loop

    /** Tops up the lookahead; what was parsed stays parsed. */
    method Take(src: seq<byte>, from: nat) returns (to: nat)
      requires Valid() && from <= |src|
      modifies this`ahead, this`hist, this`dictSize, dict, next, hash
      ensures Valid() && from <= to <= |src| && hist == old(hist) + src[from..to] && ahead == old(ahead) + (to - from)
      ensures to == |src| || ahead == LOOKAHEAD
    {
      hide Window, Layout, LitUses, DistUses, TotalLength, AllValid, Expands, Repeats;
      ghost var hist0 := hist;
      to := TakeInput(src, from);
      if savedLen > 0 { RepeatsGrow(hist0, hist, pos - 1, savedDist, savedLen); }
      assert hist[..dictPos] == hist0[..dictPos] && hist[..Parsed()] == hist0[..Parsed()];
    }

    /** A step records at most a literal and a match. */
    lemma StepIsShort(before: seq<Token>, lit: byte, lit': byte, savedLen: nat, savedDist: nat, dist: nat, len: nat)
      requires lz.Valid() && lz.toks == before + StepTokens(savedLen, savedDist, lit, lit', dist, len)
      requires savedLen <= MAX_MATCH && len <= MAX_MATCH
      ensures lz.total <= TotalLength(before) + 259
    {
      hide LitUses, DistUses, Layout, AllValid;
      var ts := StepTokens(savedLen, savedDist, lit, lit', dist, len);
      if |ts| == 2 {
        TotalLengthAppend(before, ts[0]);
        TotalLengthAppend(before + [ts[0]], ts[1]);
        assert before + ts == before + [ts[0]] + [ts[1]];
      } else if |ts| == 1 {
        TotalLengthAppend(before, ts[0]);
        assert ts == [ts[0]];
      } else {
        assert before + ts == before;
      }
    }

    /** Chooses, records or saves, and moves on. */
    method Parse() returns (move: nat, ghost dist: nat, ghost len: nat, ghost d: nat, ghost n: nat)
      requires Valid() && ahead >= 1
      modifies this`pos, this`ahead, this`dictSize, this`savedLit, this`savedLen, this`savedDist
      modifies lz, lz.buf, lz.litCount, lz.distCount
      ensures Running() && 1 <= move && ahead == old(ahead) - move && pos == old(pos) + move
      ensures old(Found(d, n)) && (dist, len) == if old(Dropped(d, n)) then (0, 0) else (d, n)
      ensures lz.toks == old(lz.toks) + StepTokens(old(savedLen), old(savedDist), old(savedLit), old(hist[pos]), dist, len)
      ensures savedLen == StepKeeps(old(savedLen), dist, len) && (savedLen > 0 ==> savedDist == dist)
      ensures move == StepMoves(old(savedLen), dist, len)
    {
      hide Window, Layout, LitUses, DistUses, TotalLength, AllValid, Expands, Repeats, Linked, NoneBetter, Compressor.Found;
      var dist', len';
      dist', len', d, n := Choose();
      dist, len := dist', len';
      if savedLen > 0 {
        move := StepSaved(dist', len');
      } else {
        move := StepFresh(dist', len');
      }
      StepIsShort(old(lz.toks), old(savedLit), old(hist[pos]), old(savedLen), old(savedDist), dist', len');
      Advance(move);
    }

    /** Whether it is time to flush. */
    function FlushDue(): (due: bool)
      reads this, lz
    {
      || lz.next > CODE_BUF_SIZE - 8
      || (lz.total > 31 * 1024 && (lz.next * 115 / 128 >= lz.total || options.raw))
    }

    /** Input in which no match is found is flushed when it is longer than 31 times 1024 bytes. */
    lemma LiteralsFlush()
      requires lz.Valid() && AllLiterals(lz.toks)
      ensures FlushDue() <==> lz.total > 31744
    {
      hide LitUses, DistUses, Layout, TotalLength, AllValid;
      LiteralTotal(lz.toks);
      LiteralLayout(lz.buf[..], lz.next, lz.flagsAt, lz.left, lz.toks);
    }

    /** What a flush relies on. */
    lemma ReadyToFlush()
      requires Running()
      ensures pos - dictPos >= 0 && dictPos + lz.total == Parsed()
      ensures Pending(lz, dict[..], hist, dictPos, pos - dictPos, dictSize)
      ensures options.raw ==> pos - dictPos <= dictSize
    {
      hide Layout, LitUses, DistUses, AllValid, Window, Expands, TotalLength, HoldsInput;
      ExpandsLength(hist[..dictPos], lz.toks, hist[..Parsed()]);
      RingLength();
      if pos - dictPos <= dictSize { StillHeld(dict[..], hist, pos - dictSize, dictPos, lz.total); }
    }

    lemma RingLength()
      requires Shaped()
      ensures |dict[..]| == DICT_BUF
    {
    }

    /** After a flush the parse goes on from where the block ended. */
    method Flushed(n: nat)
      requires Shaped() && lz.Valid() && lz.toks == [] && lz.next == 1 && Ringed() && Chained() && SavedValid()
      requires (savedLen > 0 ==> pos >= 1) && dictPos + n == Parsed() <= |hist| && Covered()
      modifies this`dictPos
      ensures Valid() && dictPos == old(dictPos) + n
    {
      hide Window, Layout, LitUses, DistUses, TotalLength, AllValid, Repeats, Linked;
      NothingTotal();
      dictPos := dictPos + n;
    }
  }

  lemma NothingTotal()
    ensures TotalLength([]) == 0
  {
  }

  /** xabcdeabcdeabcde, six bytes of it parsed: what is found for the other ten is all of them, five back. */
  lemma RepeatIsFound(hist: seq<byte>, d: nat, n: nat)
    requires hist == [120, 97, 98, 99, 100, 101, 97, 98, 99, 100, 101, 97, 98, 99, 100, 101]
    requires if d == 0 then n == 2 else 2 < n <= 10 && d <= 6 && Repeats(hist, 6, d, n)
    requires n < 10 ==> NoneBetter(hist, 6, 6, n + 1)
    ensures d == 5 && n == 10
  {
    hide BucketOf, NoneBetter;
    assert InSight(hist, 1, 6);
    if n < 10 {
      FiveBack(hist, n + 1);
      NoBetterThere(hist, 6, 6, n + 1, 1);
    } else {
      assert hist[6] == hist[6 - d];
    }
  }

  lemma NoBetterThere(hist: seq<byte>, pos: nat, dictSize: nat, n: nat, p: nat)
    requires NoneBetter(hist, pos, dictSize, n) && p < pos <= p + dictSize && InSight(hist, p, pos)
    ensures !Repeats(hist, pos, pos - p, n)
  {
    hide InSight, Repeats;
  }

  lemma FiveBack(hist: seq<byte>, n: nat)
    requires hist == [120, 97, 98, 99, 100, 101, 97, 98, 99, 100, 101, 97, 98, 99, 100, 101] && n <= 10
    ensures Repeats(hist, 6, 5, n)
  {
  }

  lemma StillHeld(dict: seq<byte>, hist: seq<byte>, lo: nat, from: nat, n: nat)
    requires Window(dict, hist, lo) && lo <= from && from + n <= |hist|
    ensures HoldsInput(dict, hist, from, n)
  {
    forall p | from <= p < from + n
      ensures dict[p % DICT_SIZE] == hist[p]
    {
      assert Held(dict, hist, p);
    }
  }

  lemma {:induction false} ExpandsLength(from: seq<byte>, ts: seq<Token>, to: seq<byte>)
    requires Expands(from, ts, to)
    ensures |to| == |from| + TotalLength(ts)
    decreases |ts|
  {
    hide LzCopy;
    if ts != [] {
      ExpandsLength(Apply(from, ts[0]), ts[1..], to);
      TotalLengthFirst(ts);
    }
  }

  lemma {:induction false} TotalLengthFirst(ts: seq<Token>)
    requires ts != []
    ensures TotalLength(ts) == (if ts[0].Match? then ts[0].len else 1) + TotalLength(ts[1..])
  {
    if |ts| > 1 {
      TotalLengthFirst(ts[..|ts| - 1]);
      assert ts[..|ts| - 1][1..] == ts[1..][..|ts| - 2];
    } else {
      assert ts[1..] == [] && ts[..0] == [];
    }
  }

  lemma SavedEnds(hist: seq<byte>, pos: nat, ahead: nat, dist: nat, len: nat)
    requires pos >= 1 && pos + ahead == |hist| && Repeats(hist, pos - 1, dist, len)
    ensures len <= ahead + 1
  {
  }

  /** Stretches of the ring that agree are a repeat in the input. */
  lemma AgreementRepeats(dict: seq<byte>, hist: seq<byte>, pos: nat, ahead: nat, dictSize: nat, dist: nat, n: nat)
    requires 1 <= dist <= dictSize <= pos && pos + ahead == |hist| && n <= ahead <= LOOKAHEAD
    requires |dict| == DICT_BUF && Window(dict, hist, pos - dictSize)
    requires dict[pos % DICT_SIZE..pos % DICT_SIZE + n] == dict[(pos - dist) % DICT_SIZE..(pos - dist) % DICT_SIZE + n]
    ensures Repeats(hist, pos, dist, n)
  {
    hide Window;
    forall i | pos <= i < pos + n
      ensures hist[i] == hist[i - dist]
    {
      var k := i - pos;
      var a, b := dict[pos % DICT_SIZE..pos % DICT_SIZE + n], dict[(pos - dist) % DICT_SIZE..(pos - dist) % DICT_SIZE + n];
      assert a[k] == b[k];
      ReadAhead(dict, hist, pos - dictSize, pos, k);
      ReadAhead(dict, hist, pos - dictSize, pos - dist, k);
    }
  }

  lemma RunRepeats(dict: seq<byte>, hist: seq<byte>, pos: nat, ahead: nat, dictSize: nat, n: nat)
    requires 1 <= dictSize <= pos && pos + ahead == |hist| && n <= ahead <= LOOKAHEAD
    requires Window(dict, hist, pos - dictSize)
    requires forall k :: pos % DICT_SIZE <= k < pos % DICT_SIZE + n ==> dict[k] == dict[(pos - 1) % DICT_SIZE]
    ensures Repeats(hist, pos, 1, n)
  {
    ReadAhead(dict, hist, pos - dictSize, pos - 1, 0);
    hide Window;
    forall k | pos - 1 <= k < pos + n
      ensures hist[k] == hist[pos - 1]
    {
      if k >= pos { ReadAhead(dict, hist, pos - dictSize, pos, k - pos); }
    }
  }

  lemma RunEnds(dict: seq<byte>, hist: seq<byte>, pos: nat, ahead: nat, dictSize: nat, n: nat)
    requires 1 <= dictSize <= pos && pos + ahead == |hist| && n < ahead <= LOOKAHEAD
    requires Window(dict, hist, pos - dictSize) && dict[pos % DICT_SIZE + n] != dict[(pos - 1) % DICT_SIZE]
    ensures !Repeats(hist, pos, 1, n + 1)
  {
    ReadAhead(dict, hist, pos - dictSize, pos - 1, 0);
    ReadAhead(dict, hist, pos - dictSize, pos, n);
    hide Window;
    if Repeats(hist, pos, 1, n + 1) { AllAlike(hist, pos, n + 1, pos + n); }
  }

  lemma {:induction false} AllAlike(hist: seq<byte>, pos: nat, n: nat, i: nat)
    requires Repeats(hist, pos, 1, n) && pos <= i < pos + n
    ensures hist[i] == hist[pos - 1]
    decreases i
  {
    assert hist[i] == hist[i - 1];
    if i > pos { AllAlike(hist, pos, n, i - 1); }
  }

  lemma NoShorter(hist: seq<byte>, pos: nat, n: nat)
    requires n <= 3 && !Repeats(hist, pos, 1, n)
    ensures !Repeats(hist, pos, 1, 3)
  {
  }

  /** The oldest position the ring still holds, while input is being taken. */
  ghost function LowEnd(pos: nat, ahead: nat, dictSize: nat): (lo: nat)
    requires dictSize <= pos
  {
    if dictSize + ahead <= DICT_SIZE then pos - dictSize else pos + ahead - DICT_SIZE
  }

  lemma LowEndBelow(pos: nat, ahead: nat, dictSize: nat)
    requires dictSize <= pos && ahead <= LOOKAHEAD && ahead + dictSize >= 3
    ensures LowEnd(pos, ahead, dictSize) <= pos + ahead - 3 < LowEnd(pos, ahead, dictSize) + DICT_SIZE
  {
  }

  lemma BucketIs(hist: seq<byte>, p: nat)
    requires p + 3 <= |hist|
    ensures BucketOf(hist, p) == HashOf(hist[p], hist[p + 1], hist[p + 2])
  {
  }

  lemma LowEndGrows(pos: nat, ahead: nat, dictSize: nat)
    requires dictSize <= pos && ahead < LOOKAHEAD
    ensures LowEnd(pos, ahead, dictSize) <= LowEnd(pos, ahead + 1, dictSize) <= pos + ahead
    ensures pos + ahead < LowEnd(pos, ahead + 1, dictSize) + DICT_SIZE
  {
  }
}
