/** The fields of a manifest that have a compact form, and the codecs of their values
    (manifest_compress.c). */
module ManifestFields {
  import opened Bits

  const NEWLINE: byte := 10
  const EQUALS: byte := 61
  const FIELDS := 11

  const TOKENS: seq<byte> := [0x80, 0x81, 0x82, 0x83, 0x90, 0xa0, 0xa1, 0xa2, 0xa3, 0xa4, 0xb0]

  /** id, BK, sender, recipient, filehash, version, filesize, date, crypt, tail, service */
  const NAMES: seq<seq<byte>> := [[105, 100], [66, 75], [115, 101, 110, 100, 101, 114],
                                  [114, 101, 99, 105, 112, 105, 101, 110, 116], [102, 105, 108, 101, 104, 97, 115, 104],
                                  [118, 101, 114, 115, 105, 111, 110], [102, 105, 108, 101, 115, 105, 122, 101],
                                  [100, 97, 116, 101], [99, 114, 121, 112, 116], [116, 97, 105, 108],
                                  [115, 101, 114, 118, 105, 99, 101]]

  /** file, MeshMS1, MeshMS2 */
  const OPTIONS: seq<seq<byte>> := [[102, 105, 108, 101], [77, 101, 115, 104, 77, 83, 49], [77, 101, 115, 104, 77, 83, 50]]

  datatype Kind = Hex(bytes: nat) | Number | Choice

  function KindOf(f: nat): Kind {
    if f < 4 then Hex(0x20) else if f == 4 then Hex(0x40) else if f < 10 then Number else Choice
  }

  lemma TableSizes()
    ensures |TOKENS| == FIELDS && |NAMES| == FIELDS
  {
  }

  // ---------------------------------------------------------------- finding a field

  function FindToken(b: byte, f: nat): (r: nat)
    requires f <= FIELDS
    ensures f <= r <= FIELDS && (r < FIELDS ==> TOKENS[r] == b)
    decreases FIELDS - f
  {
    if f == FIELDS || TOKENS[f] == b then f else FindToken(b, f + 1)
  }

  lemma TokensDiffer(f: nat, g: nat)
    requires f < g < FIELDS
    ensures TOKENS[f] != TOKENS[g]
  {
  }

  lemma {:induction false} TokenFound(f: nat, from: nat)
    requires from <= f < FIELDS
    ensures FindToken(TOKENS[f], from) == f
    decreases f - from
  {
    hide TOKENS;
    if from < f {
      TokensDiffer(from, f);
      TokenFound(f, from + 1);
    }
  }

  function Lower(b: byte): byte {
    if 65 <= b <= 90 then b + 32 else b
  }

  /** strcasecmp */
  predicate SameName(a: seq<byte>, b: seq<byte>) {
    |a| == |b| && forall i :: 0 <= i < |a| ==> Lower(a[i]) == Lower(b[i])
  }

  function FindName(key: seq<byte>, f: nat): (r: nat)
    requires f <= FIELDS
    ensures f <= r <= FIELDS
    decreases FIELDS - f
  {
    if f == FIELDS || SameName(key, NAMES[f]) then f else FindName(key, f + 1)
  }

  // ---------------------------------------------------------------- hex

  function CharToHex(c: byte): int {
    if 48 <= c <= 57 then c - 48 else if 65 <= c <= 70 then c - 65 + 10 else -1
  }

  function HexToChar(h: nat): byte
    requires h < 16
  {
    if h < 10 then h + 48 else h - 10 + 65
  }

  /** n bytes from pairs of digits; the digits end with the string. */
  function HexEncode(value: seq<byte>, n: nat): (r: Option)
    ensures r.Some? ==> |r.s| == n
  {
    if n == 0 then Some([])
    else if |value| < 2 || CharToHex(value[0]) < 0 || CharToHex(value[1]) < 0 then None
    else
      var rest := HexEncode(value[2..], n - 1);
      if rest.None? then None else Some([CharToHex(value[0]) * 16 + CharToHex(value[1])] + rest.s)
  }

  datatype Option = None | Some(s: seq<byte>)

  function HexDecode(bin: seq<byte>): (r: seq<byte>)
    ensures |r| == 2 * |bin|
  {
    if bin == [] then [] else [HexToChar(bin[0] / 16), HexToChar(bin[0] % 16)] + HexDecode(bin[1..])
  }

  lemma {:induction false} HexRoundTrip(value: seq<byte>, n: nat)
    requires |value| == 2 * n && HexEncode(value, n).Some?
    ensures HexDecode(HexEncode(value, n).s) == value
  {
    if n > 0 {
      HexRoundTrip(value[2..], n - 1);
      var b := HexEncode(value, n).s;
      assert b[1..] == HexEncode(value[2..], n - 1).s;
      assert b[0] / 16 == CharToHex(value[0]) && b[0] % 16 == CharToHex(value[1]);
      assert value == [value[0], value[1]] + value[2..];
    }
  }

  // ---------------------------------------------------------------- numbers

  /** Seven bits to a byte, the high bit set on all but the last. */
  function Varint(v: nat): (s: seq<byte>)
    ensures |s| >= 1
  {
    if v < 128 then [v] else [128 + v % 128] + Varint(v / 128)
  }

  /** How many bytes a number takes; past the end zeros are read. */
  function VarintLen(bin: seq<byte>): (n: nat)
    ensures n >= 1
  {
    if bin == [] || bin[0] < 128 then 1 else 1 + VarintLen(bin[1..])
  }

  function VarintValue(bin: seq<byte>): (v: nat) {
    if bin == [] then 0 else if bin[0] < 128 then bin[0] else bin[0] % 128 + 128 * VarintValue(bin[1..])
  }

  lemma {:induction false} VarintRoundTrip(v: nat, rest: seq<byte>)
    ensures VarintValue(Varint(v) + rest) == v && VarintLen(Varint(v) + rest) == |Varint(v)|
  {
    if v >= 128 {
      VarintRoundTrip(v / 128, rest);
      assert (Varint(v) + rest)[1..] == Varint(v / 128) + rest;
    } else {
      assert (Varint(v) + rest)[0] == v;
    }
  }

  function Digit(d: nat): byte
    requires d < 10
  {
    d + 48
  }

  /** A number in decimal, no zeros before it. */
  function Decimal(v: nat): (s: seq<byte>)
    ensures |s| >= 1
  {
    if v < 10 then [Digit(v)] else Decimal(v / 10) + [Digit(v % 10)]
  }

  predicate IsDigit(b: byte) { 48 <= b <= 57 }

  function DigitOf(b: byte): (d: nat)
    requires IsDigit(b)
  {
    b - 48
  }

  /** What strtoll makes of digits. */
  function Digits(s: seq<byte>): (v: nat)
    requires forall i :: 0 <= i < |s| ==> IsDigit(s[i])
  {
    if s == [] then 0 else 10 * Digits(s[..|s| - 1]) + DigitOf(s[|s| - 1])
  }

  /** A plain decimal: digits, with no needless zero before them. */
  predicate PlainDecimal(s: seq<byte>) {
    |s| > 0 && (forall i :: 0 <= i < |s| ==> IsDigit(s[i])) && (|s| > 1 ==> s[0] != 48)
  }

  lemma {:induction false} DecimalOfDigits(s: seq<byte>)
    requires PlainDecimal(s)
    ensures Decimal(Digits(s)) == s && (|s| > 1 ==> Digits(s) >= 10)
  {
    var n := |s| - 1;
    assert IsDigit(s[n]);
    var d := DigitOf(s[n]);
    if n == 0 {
      assert s == [s[0]];
    } else {
      DecimalOfDigits(s[..n]);
      var h := Digits(s[..n]);
      if n == 1 { assert s[..n] == [s[0]]; assert h == s[0] - 48; }
      assert (10 * h + d) / 10 == h && (10 * h + d) % 10 == d;
      assert s == s[..n] + [s[n]];
    }
  }

  predicate IsSpace(b: byte) { b == 32 || 9 <= b <= 13 }

  function SkipSpace(s: seq<byte>): (r: seq<byte>) {
    if s != [] && IsSpace(s[0]) then SkipSpace(s[1..]) else s
  }

  function LeadingDigits(s: seq<byte>): (r: seq<byte>)
    ensures forall i :: 0 <= i < |r| ==> IsDigit(r[i])
  {
    if s != [] && IsDigit(s[0]) then [s[0]] + LeadingDigits(s[1..]) else []
  }

  const LONGEST := 0x7fff_ffff_ffff_ffff

  /** strtoll in base ten: blanks, a sign, digits, and saturation. */
  function StrToLL(s: seq<byte>): (v: int) {
    var t := SkipSpace(s);
    if t != [] && t[0] == 45 then
      var m: int := Digits(LeadingDigits(t[1..]));
      if m > LONGEST + 1 then -(LONGEST + 1) else -m
    else
      var m: int := Digits(LeadingDigits(if t != [] && t[0] == 43 then t[1..] else t));
      if m > LONGEST then LONGEST else m
  }

  lemma {:induction false} AllLeading(s: seq<byte>)
    requires forall i :: 0 <= i < |s| ==> IsDigit(s[i])
    ensures LeadingDigits(s) == s
  {
    if s != [] {
      AllLeading(s[1..]);
    }
  }

  lemma PlainIsRead(s: seq<byte>)
    requires PlainDecimal(s) && Digits(s) <= LONGEST
    ensures StrToLL(s) == Digits(s)
  {
    AllLeading(s);
    assert IsDigit(s[0]);
  }

  // ---------------------------------------------------------------- a field

  function FindOption(value: seq<byte>, o: nat): (r: nat)
    requires o <= |OPTIONS|
    ensures o <= r <= |OPTIONS| && (r < |OPTIONS| ==> OPTIONS[r] == value)
    decreases |OPTIONS| - o
  {
    if o == |OPTIONS| || OPTIONS[o] == value then o else FindOption(value, o + 1)
  }

  /** A field's compact form, or none, or, for a negative number, no end of bytes: its right shift
      never comes to 0. */
  datatype Encoding = Plain | Compact(s: seq<byte>) | Endless

  function EncodeField(f: nat, value: seq<byte>): (r: Encoding)
    requires f < FIELDS
    ensures r.Compact? ==> |r.s| >= 1 && r.s[0] == TOKENS[f]
  {
    match KindOf(f)
    case Hex(n) => (var h := HexEncode(value, n); if h.None? then Plain else Compact([TOKENS[f]] + h.s))
    case Number => (var v := StrToLL(value); if v < 0 then Endless else Compact([TOKENS[f]] + Varint(v)))
    case Choice => (var o := FindOption(value, 0); if o == |OPTIONS| then Plain else Compact([TOKENS[f], o]))
  }

  datatype Decoding = Bad | Text(s: seq<byte>, used: nat)

  /** n bytes; past the end zeros are read. */
  function Taken(bin: seq<byte>, n: nat): (r: seq<byte>)
    ensures |r| == n
  {
    if n == 0 then [] else if bin == [] then [0] + Taken([], n - 1) else [bin[0]] + Taken(bin[1..], n - 1)
  }

  /** "%lld" of an unsigned 64-bit number. */
  function Signed(v: nat): (s: seq<byte>) {
    var w := v % 0x1_0000_0000_0000_0000;
    if w <= LONGEST then Decimal(w) else [45] + Decimal(0x1_0000_0000_0000_0000 - w)
  }

  /** field_decode, after the token, when so much has been put out. */
  function DecodeField(f: nat, bin: seq<byte>, at: nat): (r: Decoding)
    requires f < FIELDS
  {
    if at > 900 then Bad else
      var name := NAMES[f] + [EQUALS];
      match KindOf(f)
      case Hex(n) => Text(name + HexDecode(Taken(bin, n)) + [NEWLINE], n)
      case Number => Text(name + Signed(VarintValue(bin)) + [NEWLINE], VarintLen(bin))
      case Choice => (
        var o: nat := if bin == [] then 0 else bin[0];
        if o < |OPTIONS| then Text(name + OPTIONS[o] + [NEWLINE], 1) else Bad)
  }

  lemma {:induction false} TakenAll(s: seq<byte>, rest: seq<byte>)
    ensures Taken(s + rest, |s|) == s
  {
    if s != [] {
      assert (s + rest)[1..] == s[1..] + rest;
      TakenAll(s[1..], rest);
    }
  }

  /** Values that a compact form gives back as they were. */
  ghost predicate Exact(f: nat, value: seq<byte>) {
    match KindOf(f)
    case Hex(n) => |value| == 2 * n
    case Number => PlainDecimal(value) && Digits(value) <= LONGEST
    case Choice => true
  }

  /** The line a field stands for. */
  function LineOf(key: seq<byte>, value: seq<byte>): (s: seq<byte>) {
    key + [EQUALS] + value + [NEWLINE]
  }

  lemma FieldRoundTrip(f: nat, value: seq<byte>, rest: seq<byte>, at: nat)
    requires f < FIELDS && Exact(f, value) && EncodeField(f, value).Compact? && at <= 900
    ensures var s := EncodeField(f, value).s;
            DecodeField(f, s[1..] + rest, at) == Text(LineOf(NAMES[f], value), |s| - 1)
  {
    hide TOKENS, NAMES, HexEncode, HexDecode, Taken, Varint, VarintValue, VarintLen, StrToLL, Decimal, Digits, FindOption;
    var s := EncodeField(f, value).s;
    match KindOf(f) {
      case Hex(n) =>
        HexRoundTrip(value, n);
        TakenAll(s[1..], rest);
        assert s[1..] == HexEncode(value, n).s;
      case Number =>
        PlainIsRead(value);
        DecimalOfDigits(value);
        assert s[1..] == Varint(Digits(value));
        VarintRoundTrip(Digits(value), rest);
      case Choice =>
        assert (s[1..] + rest)[0] == s[1];
    }
  }
}
