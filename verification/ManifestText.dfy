/** Whole manifests: the compact form that is stored for sending, and what a receiver makes of it
    (manifest_compress.c). Past the end of a buffer zeros are read. */
module ManifestText {
  import opened Bits
  import opened ManifestFields

  const LONGEST_TEXT := 1024

  // ---------------------------------------------------------------- one line, as sscanf splits it

  /** The first b in s, or its end. */
  function Find(s: seq<byte>, b: byte): (k: nat)
    ensures k <= |s| && (k < |s| ==> s[k] == b) && forall i :: 0 <= i < k ==> s[i] != b
  {
    if s == [] || s[0] == b then 0 else 1 + Find(s[1..], b)
  }

  /** s up to its first zero byte: what C takes for the string. */
  function CString(s: seq<byte>): (c: seq<byte>)
    ensures c <= s && 0 !in c
  {
    s[..Find(s, 0)]
  }

  datatype Scanned = NoField | Field(key: seq<byte>, value: seq<byte>)

  /** "%[^=]=%[^\n]": neither part may be empty. The key may run over line ends. */
  function Scan(s: seq<byte>): (r: Scanned)
    ensures r.Field? ==> r.key != [] && r.value != [] && |r.key| + 1 + |r.value| <= |s|
  {
    var c := CString(s);
    var k := Find(c, EQUALS);
    if k == 0 || k == |c| then NoField else
      var e := Find(c[k + 1..], NEWLINE);
      if e == 0 then NoField else Field(c[..k], c[k + 1..k + 1 + e])
  }

  function After(s: seq<byte>, n: nat): (r: seq<byte>) {
    if n <= |s| then s[n..] else []
  }

  // ---------------------------------------------------------------- text to binary

  /** Loops: a negative number, whose bytes never end. */
  datatype Coded = Loops | Coded(s: seq<byte>)

  function Before(a: seq<byte>, r: Coded): Coded {
    if r.Loops? then Loops else Coded(a + r.s)
  }

  function EntryCode(key: seq<byte>, value: seq<byte>): (r: Encoding) {
    var f := FindName(key, 0);
    if f == FIELDS then Plain else EncodeField(f, value)
  }

  /** The loop of manifest_text_to_binary. */
  function EncodeText(s: seq<byte>): (r: Coded)
    decreases |s|
  {
    if s == [] then Coded([]) else
      match Scan(s)
      case Field(key, value) => (
        var rest := After(s, |key| + 1 + |value| + 1);
        match EntryCode(key, value)
        case Plain => Before(LineOf(key, value), EncodeText(rest))
        case Compact(c) => Before(c, EncodeText(rest))
        case Endless => Loops)
      case NoField => if s[0] == 0 then Coded(s) else Before([s[0]], EncodeText(s[1..]))
  }

  lemma EncodeStep(s: seq<byte>)
    requires s != []
    ensures EncodeText(s) ==
            match Scan(s)
            case Field(key, value) => (
              var rest := After(s, |key| + 1 + |value| + 1);
              match EntryCode(key, value)
              case Plain => Before(LineOf(key, value), EncodeText(rest))
              case Compact(c) => Before(c, EncodeText(rest))
              case Endless => Loops)
            case NoField => if s[0] == 0 then Coded(s) else Before([s[0]], EncodeText(s[1..]))
  {
    hide Scan, EntryCode, LineOf;
  }

  // ---------------------------------------------------------------- binary to text

  datatype Decoded = Fail | Decoded(s: seq<byte>)

  function Following(a: seq<byte>, r: Decoded): Decoded {
    if r.Fail? then Fail else Decoded(a + r.s)
  }

  /** The loop of manifest_binary_to_text, with so much put out already. */
  function DecodeText(s: seq<byte>, at: nat, lineStart: bool): (r: Decoded)
    decreases |s|
  {
    if s == [] then Decoded([])
    else if s[0] == 0 then (if at + |s| + 1 >= LONGEST_TEXT then Fail else Decoded(s))
    else if lineStart && s[0] >= 0x80 then
      var f := FindToken(s[0], 0);
      if f == FIELDS then Fail else
        match DecodeField(f, s[1..], at)
        case Bad => Fail
        case Text(t, used) => Following(t, DecodeText(After(s[1..], used), at + |t|, true))
    else if at > 1023 then Fail
    else Following([s[0]], DecodeText(s[1..], at + 1, s[0] == NEWLINE))
  }

  lemma DecodeStep(s: seq<byte>, at: nat, lineStart: bool)
    requires s != []
    ensures DecodeText(s, at, lineStart) ==
            if s[0] == 0 then (if at + |s| + 1 >= LONGEST_TEXT then Fail else Decoded(s))
            else if lineStart && s[0] >= 0x80 then
              var f := FindToken(s[0], 0);
              if f == FIELDS then Fail else
                match DecodeField(f, s[1..], at)
                case Bad => Fail
                case Text(t, used) => Following(t, DecodeText(After(s[1..], used), at + |t|, true))
            else if at > 1023 then Fail
            else Following([s[0]], DecodeText(s[1..], at + 1, s[0] == NEWLINE))
  {
    hide DecodeField, FindToken, After;
  }

  lemma DecodeNone(at: nat, lineStart: bool)
    ensures DecodeText([], at, lineStart) == Decoded([])
  {
  }

  function ToText(bin: seq<byte>): (r: Decoded) {
    DecodeText(bin, 0, true)
  }

  // ---------------------------------------------------------------- what is stored

  /** manifest_text_to_binary: too long, never done, the compact form, or the text itself. */
  datatype Stored = TooLong | Never | Packed(s: seq<byte>) | Unpacked(s: seq<byte>)

  function ToBinary(text: seq<byte>): (r: Stored) {
    if |text| > LONGEST_TEXT then TooLong else
      var c := EncodeText(text);
      if c.Loops? then Never
      else if ToText(c.s) == Decoded(text) then Packed(c.s)
      else Unpacked(text)
  }

  // ---------------------------------------------------------------- text as its own form

  /** No line before the binary part starts with a byte that a decoder takes for a token. */
  predicate StartsLow(s: seq<byte>, lineStart: bool) {
    s == [] || s[0] == 0 || ((lineStart ==> s[0] < 0x80) && StartsLow(s[1..], s[0] == NEWLINE))
  }

  /** What fits a decoder's buffer: with a binary part, two bytes less. */
  predicate FitsFrom(s: seq<byte>, at: nat) {
    if 0 in s then at + |s| <= 1022 else at + |s| <= 1024
  }

  lemma NamesAreText(f: nat, bin: seq<byte>, at: nat)
    requires f < FIELDS && DecodeField(f, bin, at).Text?
    ensures DecodeField(f, bin, at).s != [] && DecodeField(f, bin, at).s[0] < 0x80
  {
    hide HexDecode, Taken, Signed, VarintValue, VarintLen;
    NameStarts(f);
  }

  lemma NameStarts(f: nat)
    requires f < FIELDS
    ensures NAMES[f] != [] && NAMES[f][0] < 0x80
  {
  }

  /** Text stands for itself exactly if no line starts like a token and it fits. */
  lemma {:induction false} PlainFrom(s: seq<byte>, at: nat, lineStart: bool)
    requires at <= LONGEST_TEXT
    ensures DecodeText(s, at, lineStart) == Decoded(s) <==> StartsLow(s, lineStart) && FitsFrom(s, at)
    decreases |s|
  {
    hide DecodeField, FindToken;
    if s != [] && s[0] != 0 {
      if lineStart && s[0] >= 0x80 {
        var f := FindToken(s[0], 0);
        if f < FIELDS && DecodeField(f, s[1..], at).Text? {
          NamesAreText(f, s[1..], at);
          var t := DecodeField(f, s[1..], at).s;
          var r := DecodeText(After(s[1..], DecodeField(f, s[1..], at).used), at + |t|, true);
          assert r.Decoded? ==> (t + r.s)[0] == t[0];
        }
      } else if at <= 1023 {
        PlainFrom(s[1..], at + 1, s[0] == NEWLINE);
        SameButFirst(s);
        var r := DecodeText(s[1..], at + 1, s[0] == NEWLINE);
        assert r.Decoded? ==> ([s[0]] + r.s)[1..] == r.s;
      }
    }
  }

  lemma SameButFirst(s: seq<byte>)
    requires s != [] && s[0] != 0
    ensures s == [s[0]] + s[1..] && (0 in s <==> 0 in s[1..])
  {
    if 0 in s {
      var i :| 0 <= i < |s| && s[i] == 0;
      assert s[1..][i - 1] == 0;
    }
  }

  lemma PlainIff(text: seq<byte>)
    ensures ToText(text) == Decoded(text) <==> StartsLow(text, true) && FitsFrom(text, 0)
  {
    PlainFrom(text, 0, true);
  }

  /** Whichever form is stored, a receiver's decoder gives the manifest back: the compact form always,
      the text itself exactly if no line of it starts like a token and it fits. */
  lemma StoredDecodes(text: seq<byte>)
    requires ToBinary(text).Packed? || ToBinary(text).Unpacked?
    ensures ToText(ToBinary(text).s) == Decoded(text)
            <==> ToBinary(text).Packed? || (StartsLow(text, true) && FitsFrom(text, 0))
  {
    hide EncodeText, DecodeText, StartsLow, FitsFrom, ToText;
    PlainIff(text);
  }

  /** A manifest of the one byte 0x85, which is taken for a token and is none, is stored as it is, and does
      not decode. */
  lemma TokenIsLost()
    ensures ToBinary([0x85]) == Unpacked([0x85]) && ToText([0x85]) == Fail
  {
    hide Scan, FindToken, EntryCode, DecodeField, EncodeText, DecodeText;
    var s: seq<byte> := [0x85];
    NoFieldIn();
    assert s[1..] == [];
    EncodeStep(s);
    EncodeNone();
    assert [s[0]] + [] == s;
    assert EncodeText(s) == Coded(s);
    DecodeStep(s, 0, true);
    assert DecodeText(s, 0, true) == Fail;
  }

  lemma NoFieldIn()
    ensures Scan([0x85]) == NoField && FindToken(0x85, 0) == FIELDS
  {
    var s: seq<byte> := [0x85];
    assert CString(s) == s && Find(s, EQUALS) == 1;
  }

  lemma EncodeNone()
    ensures EncodeText([]) == Coded([])
  {
  }

  /** So all manifests of at most 1022 bytes do whose lines start below 0x80. */
  lemma SmallManifestsDecode(text: seq<byte>)
    requires |text| <= 1022 && StartsLow(text, true) && ToBinary(text) != Never
    ensures ToBinary(text).Packed? || ToBinary(text).Unpacked?
    ensures ToText(ToBinary(text).s) == Decoded(text)
  {
    hide EncodeText, DecodeText, StartsLow, ToText;
    StoredDecodes(text);
  }

  // ---------------------------------------------------------------- when encoding never ends

  /** A blank-led minus sign before digits that are not all zeros. */
  predicate Negative(value: seq<byte>) {
    var t := SkipSpace(value);
    t != [] && t[0] == 45 && exists i :: 0 <= i < |LeadingDigits(t[1..])| && LeadingDigits(t[1..])[i] != 48
  }

  lemma {:induction false} ZeroDigits(s: seq<byte>)
    requires forall i :: 0 <= i < |s| ==> IsDigit(s[i])
    ensures Digits(s) == 0 <==> forall i :: 0 <= i < |s| ==> s[i] == 48
  {
    if s != [] {
      ZeroDigits(s[..|s| - 1]);
      var n := |s| - 1;
      assert IsDigit(s[n]);
      assert s == s[..n] + [s[n]];
      if Digits(s) == 0 {
        forall i | 0 <= i < |s|
          ensures s[i] == 48
        {
          if i < n { assert s[..n][i] == s[i]; }
        }
      }
    }
  }

  /** A field's encoding has no end exactly if it is a number field and its value is negative. */
  lemma EndlessIff(f: nat, value: seq<byte>)
    requires f < FIELDS
    ensures EncodeField(f, value).Endless? <==> KindOf(f).Number? && Negative(value)
  {
    hide Digits, TOKENS, Varint, HexEncode, FindOption;
    var t := SkipSpace(value);
    if t != [] && t[0] == 45 { ZeroDigits(LeadingDigits(t[1..])); }
  }

  lemma MinusOne()
    ensures Negative([45, 49])
  {
    assert [45, 49][1..] == [49] && [49][1..] == [];
    assert LeadingDigits([49]) == [49] + LeadingDigits([]);
    assert LeadingDigits([49])[0] == 49;
  }

  // ---------------------------------------------------------------- canonical manifests

  datatype Entry = Entry(key: seq<byte>, value: seq<byte>)

  ghost predicate Clean(s: seq<byte>) {
    s != [] && 0 !in s && NEWLINE !in s
  }

  /** A line whose compact form, if it has one, gives it back; a line that has one starts by byte 900. */
  ghost predicate ValidEntry(e: Entry, at: nat) {
    && Clean(e.key) && Clean(e.value) && EQUALS !in e.key && e.key[0] < 0x80
    && var f := FindName(e.key, 0);
       f < FIELDS ==> e.key == NAMES[f] && (EncodeField(f, e.value).Plain?
                                            || (EncodeField(f, e.value).Compact? && Exact(f, e.value) && at <= 900))
  }

  function Lines(es: seq<Entry>): (s: seq<byte>) {
    if es == [] then [] else LineOf(es[0].key, es[0].value) + Lines(es[1..])
  }

  ghost predicate ValidEntries(es: seq<Entry>, at: nat) {
    es == [] || (ValidEntry(es[0], at) && ValidEntries(es[1..], at + |LineOf(es[0].key, es[0].value)|))
  }

  /** Lines of key=value, and then the signature block, or nothing. */
  ghost predicate Canonical(es: seq<Entry>, tail: seq<byte>) {
    && ValidEntries(es, 0) && (tail == [] || tail[0] == 0)
    && |Lines(es)| + |tail| <= (if tail == [] then 1024 else 1022)
  }

  function EntryBytes(e: Entry): (s: seq<byte>) {
    match EntryCode(e.key, e.value)
    case Compact(c) => c
    case Plain => LineOf(e.key, e.value)
    case Endless => []
  }

  function PackedLines(es: seq<Entry>): (s: seq<byte>) {
    if es == [] then [] else EntryBytes(es[0]) + PackedLines(es[1..])
  }

  lemma {:induction false} FindIn(a: seq<byte>, b: byte, rest: seq<byte>)
    requires b !in a
    ensures Find(a + [b] + rest, b) == |a|
  {
    if a == [] {
      assert ([] + [b] + rest)[0] == b;
    } else {
      assert (a + [b] + rest)[1..] == a[1..] + [b] + rest;
      assert (a + [b] + rest)[0] == a[0];
      FindIn(a[1..], b, rest);
    }
  }

  lemma {:induction false} FindBeyond(a: seq<byte>, b: byte, rest: seq<byte>)
    requires b !in a
    ensures Find(a + rest, b) == |a| + Find(rest, b)
  {
    if a == [] {
      assert [] + rest == rest;
    } else {
      assert (a + rest)[1..] == a[1..] + rest;
      FindBeyond(a[1..], b, rest);
    }
  }

  /** sscanf finds just the line's key and value, whatever follows it. */
  lemma ScansLine(key: seq<byte>, value: seq<byte>, rest: seq<byte>)
    requires Clean(key) && Clean(value) && EQUALS !in key
    ensures Scan(LineOf(key, value) + rest) == Field(key, value)
    ensures After(LineOf(key, value) + rest, |key| + 1 + |value| + 1) == rest
  {
    hide Find;
    var line := LineOf(key, value);
    forall i | 0 <= i < |line|
      ensures line[i] != 0
    {
      if i < |key| { assert line[i] == key[i]; }
      if |key| < i < |key| + 1 + |value| { assert line[i] == value[i - |key| - 1]; }
    }
    FindBeyond(line, 0, rest);
    var tail := rest[..Find(rest, 0)];
    var c := CString(line + rest);
    assert c == line + tail;
    assert c == key + [EQUALS] + (value + [NEWLINE] + tail);
    FindIn(key, EQUALS, value + [NEWLINE] + tail);
    assert c[|key| + 1..] == value + [NEWLINE] + tail;
    FindIn(value, NEWLINE, tail);
  }

  lemma NoScan(tail: seq<byte>)
    requires tail != [] && tail[0] == 0
    ensures Scan(tail) == NoField
  {
  }

  lemma EncodesTail(tail: seq<byte>)
    requires tail == [] || tail[0] == 0
    ensures EncodeText(tail) == Coded(tail)
  {
    if tail != [] { NoScan(tail); }
  }

  lemma LineNotEmpty(key: seq<byte>, value: seq<byte>)
    ensures LineOf(key, value) != []
  {
  }

  lemma EntryEnds(e: Entry, at: nat)
    requires ValidEntry(e, at)
    ensures !EntryCode(e.key, e.value).Endless? && Clean(e.key) && Clean(e.value) && EQUALS !in e.key
  {
    hide EncodeField, FindName, NAMES;
  }

  lemma {:induction false} EncodesLines(es: seq<Entry>, at: nat, tail: seq<byte>)
    requires ValidEntries(es, at) && (tail == [] || tail[0] == 0)
    ensures EncodeText(Lines(es) + tail) == Coded(PackedLines(es) + tail)
    decreases |es|
  {
    hide Scan, EncodeText, EntryCode, ValidEntry, Clean, LineOf, After;
    if es == [] {
      assert [] + tail == tail;
      EncodesTail(tail);
    } else {
      var line, rest := LineOf(es[0].key, es[0].value), Lines(es[1..]) + tail;
      EncodesLines(es[1..], at + |line|, tail);
      assert Lines(es) + tail == line + rest;
      assert EntryBytes(es[0]) + (PackedLines(es[1..]) + tail) == PackedLines(es) + tail;
      EncodesLine(es[0], at, rest, PackedLines(es[1..]) + tail);
    }
  }

  lemma EncodesLine(e: Entry, at: nat, rest: seq<byte>, code: seq<byte>)
    requires ValidEntry(e, at) && EncodeText(rest) == Coded(code)
    ensures EncodeText(LineOf(e.key, e.value) + rest) == Coded(EntryBytes(e) + code)
  {
    hide Scan, EncodeText, EntryCode, ValidEntry, Clean, LineOf, After;
    EntryEnds(e, at);
    ScansLine(e.key, e.value, rest);
    LineNotEmpty(e.key, e.value);
    EncodeStep(LineOf(e.key, e.value) + rest);
  }

  /** Text that is copied: no zeros, and nothing like a token at the start of a line. */
  ghost predicate Copied(p: seq<byte>, lineStart: bool) {
    && 0 !in p && (lineStart && p != [] ==> p[0] < 0x80)
    && forall i, j :: 0 <= i < |p| && j == i + 1 < |p| && p[i] == NEWLINE ==> p[j] < 0x80
  }

  lemma {:induction false} CopiesText(p: seq<byte>, rest: seq<byte>, at: nat, lineStart: bool)
    requires Copied(p, lineStart) && at + |p| <= 1024
    ensures DecodeText(p + rest, at, lineStart)
         == Following(p, DecodeText(rest, at + |p|, if p == [] then lineStart else p[|p| - 1] == NEWLINE))
  {
    hide DecodeText;
    if p == [] {
      assert [] + rest == rest;
      var r := DecodeText(rest, at, lineStart);
      assert r.Decoded? ==> [] + r.s == r.s;
    } else {
      assert (p + rest)[0] == p[0] && (p + rest)[1..] == p[1..] + rest;
      assert p[0] in p;
      assert |p| > 1 ==> p[1..][0] == p[1];
      CopiesText(p[1..], rest, at + 1, p[0] == NEWLINE);
      assert p[1..] != [] ==> p[1..][|p[1..]| - 1] == p[|p| - 1];
      assert p[0] != 0 && !(lineStart && p[0] >= 0x80) && at <= 1023;
      DecodeStep(p + rest, at, lineStart);
      var r := DecodeText(rest, at + |p|, p[|p| - 1] == NEWLINE);
      assert r.Decoded? ==> [p[0]] + (p[1..] + r.s) == p + r.s;
    }
  }

  lemma LineCopied(key: seq<byte>, value: seq<byte>)
    requires Clean(key) && Clean(value) && key[0] < 0x80
    ensures Copied(LineOf(key, value), true)
  {
    var p := LineOf(key, value);
    forall i | 0 <= i < |p|
      ensures p[i] != 0 && (i < |p| - 1 ==> p[i] != NEWLINE)
    {
      assert p[i] == if i < |key| then key[i] else if i == |key| then EQUALS else if i < |p| - 1 then value[i - |key| - 1] else NEWLINE;
    }
  }

  lemma TokensAreHigh(f: nat)
    requires f < FIELDS
    ensures TOKENS[f] >= 0x80
  {
  }

  /** A line's stored form is decoded to the line, at a line's start. */
  lemma DecodesEntry(e: Entry, at: nat, rest: seq<byte>)
    requires ValidEntry(e, at) && at + |LineOf(e.key, e.value)| <= 1024
    ensures DecodeText(EntryBytes(e) + rest, at, true)
         == Following(LineOf(e.key, e.value), DecodeText(rest, at + |LineOf(e.key, e.value)|, true))
  {
    hide FindName, EncodeField, Exact, DecodeField, NAMES, TOKENS, DecodeText;
    var f := FindName(e.key, 0);
    if EntryCode(e.key, e.value).Compact? {
      var c := EntryCode(e.key, e.value).s;
      FieldRoundTrip(f, e.value, rest, at);
      TokenFound(f, 0);
      TokensAreHigh(f);
      assert (c + rest)[0] == c[0] && (c + rest)[1..] == c[1..] + rest;
      assert After(c[1..] + rest, |c| - 1) == rest;
      DecodeStep(c + rest, at, true);
    } else {
      LineCopied(e.key, e.value);
      CopiesText(LineOf(e.key, e.value), rest, at, true);
    }
  }

  lemma DecodesTail(tail: seq<byte>, at: nat)
    requires (tail == [] || tail[0] == 0) && (tail != [] ==> at + |tail| <= 1022)
    ensures DecodeText(tail, at, true) == Decoded(tail)
  {
  }

  lemma {:induction false} DecodesLines(es: seq<Entry>, at: nat, tail: seq<byte>)
    requires ValidEntries(es, at) && (tail == [] || tail[0] == 0)
    requires at + |Lines(es)| + |tail| <= (if tail == [] then 1024 else 1022)
    ensures DecodeText(PackedLines(es) + tail, at, true) == Decoded(Lines(es) + tail)
    decreases |es|
  {
    hide ValidEntry, EntryBytes, LineOf, DecodeText;
    if es == [] {
      assert [] + tail == tail;
      DecodesTail(tail, at);
    } else {
      var line := LineOf(es[0].key, es[0].value);
      DecodesLines(es[1..], at + |line|, tail);
      assert PackedLines(es) + tail == EntryBytes(es[0]) + (PackedLines(es[1..]) + tail);
      DecodesEntry(es[0], at, PackedLines(es[1..]) + tail);
      assert line + (Lines(es[1..]) + tail) == Lines(es) + tail;
    }
  }

  /** A field that would start after byte 900 is not decoded. */
  lemma LateFieldFails(p: seq<byte>, f: nat, bin: seq<byte>)
    requires Copied(p, true) && 900 < |p| <= 1024 && p[|p| - 1] == 10 && f < FIELDS && |TOKENS| == FIELDS
    ensures ToText(p + ([TOKENS[f]] + bin)) == Fail
  {
    hide TOKENS, DecodeText, Copied, FindToken;
    CopiesText(p, [TOKENS[f]] + bin, 0, true);
    TokensAreHigh(f);
    TokenFound(f, 0);
    DecodeStep([TOKENS[f]] + bin, |p|, true);
  }

  /** Over 1024 bytes no manifest is stored, and up to that only an endless one is not. */
  lemma RefusedIff(text: seq<byte>)
    ensures ToBinary(text) == TooLong <==> |text| > 1024
    ensures ToBinary(text) == Never <==> |text| <= 1024 && EncodeText(text) == Loops
  {
    hide EncodeText, ToText;
  }

  /** Canonical manifests are always stored in the compact form. */
  lemma CanonicalIsPacked(es: seq<Entry>, tail: seq<byte>)
    requires Canonical(es, tail)
    ensures ToBinary(Lines(es) + tail) == Packed(PackedLines(es) + tail)
  {
    hide EncodeText, DecodeText, ValidEntries, PackedLines, Lines;
    EncodesLines(es, 0, tail);
    DecodesLines(es, 0, tail);
  }

  // ---------------------------------------------------------------- a negative number in a manifest

  lemma NamesDiffer(f: nat, g: nat)
    requires f < g < FIELDS
    ensures !SameName(NAMES[g], NAMES[f])
  {
    var a, b := NAMES[g], NAMES[f];
    if |a| == |b| { assert Lower(a[0]) != Lower(b[0]) || (|a| > 4 && Lower(a[4]) != Lower(b[4])); }
  }

  lemma {:induction false} NameFound(f: nat, from: nat)
    requires from <= f < FIELDS
    ensures FindName(NAMES[f], from) == f
    decreases f - from
  {
    hide NAMES;
    if from < f {
      NamesDiffer(from, f);
      NameFound(f, from + 1);
    }
  }

  lemma NameIsClean(f: nat)
    requires f < FIELDS
    ensures Clean(NAMES[f]) && EQUALS !in NAMES[f]
  {
  }

  /** Of a manifest whose first line gives a negative number the encoding never ends, whatever follows. */
  lemma NegativeNeverEnds(f: nat, value: seq<byte>, rest: seq<byte>)
    requires f < FIELDS && KindOf(f).Number? && Negative(value) && Clean(value)
    requires |LineOf(NAMES[f], value) + rest| <= 1024
    ensures ToBinary(LineOf(NAMES[f], value) + rest) == Never
  {
    hide NAMES, Negative, Scan, FindName, EncodeField, Clean;
    TableSizes();
    NameIsClean(f);
    ScansLine(NAMES[f], value, rest);
    NameFound(f, 0);
    EndlessIff(f, value);
  }

  /** version=-1 */
  lemma NegativeVersion()
    ensures ToBinary(LineOf(NAMES[5], [45, 49])) == Never
  {
    hide NAMES, Negative;
    TableSizes();
    MinusOne();
    assert KindOf(5) == Number;
    assert LineOf(NAMES[5], [45, 49]) + [] == LineOf(NAMES[5], [45, 49]);
    NameLength();
    NegativeNeverEnds(5, [45, 49], []);
  }

  lemma NameLength()
    ensures |NAMES[5]| == 7
  {
  }
}
