/** The compact form of a manifest line, field by field, in literals: which values of which field have one,
    how long it is and which bytes it has; and what a decoder makes of such bytes. */
module ManifestFormat {
  import opened Bits
  import opened ManifestFields
  import opened ManifestText

  function Ascii(s: string): (b: seq<byte>)
    ensures |b| == |s| && forall i :: 0 <= i < |s| ==> b[i] == s[i] as int % 256
  {
    if s == "" then [] else [s[0] as int % 256] + Ascii(s[1..])
  }

  predicate HexField(name: string, token: byte, n: nat) {
    || (name == "id" && token == 0x80 && n == 32) || (name == "BK" && token == 0x81 && n == 32)
    || (name == "sender" && token == 0x82 && n == 32) || (name == "recipient" && token == 0x83 && n == 32)
    || (name == "filehash" && token == 0x90 && n == 64)
  }

  predicate NumberField(name: string, token: byte) {
    || (name == "version" && token == 0xa0) || (name == "filesize" && token == 0xa1) || (name == "date" && token == 0xa2)
    || (name == "crypt" && token == 0xa3) || (name == "tail" && token == 0xa4)
  }

  /** A field's line. */
  function Line(name: string, value: seq<byte>): (s: seq<byte>)
  {
    Ascii(name) + [61] + value + [10]
  }

  // ---------------------------------------------------------------- the table

  lemma AsciiIs(s: string, b: seq<byte>)
    requires |b| == |s| && forall i :: 0 <= i < |s| ==> b[i] == s[i] as int % 256
    ensures b == Ascii(s)
  {
  }

  lemma HexFieldIs(name: string, token: byte, n: nat) returns (f: nat)
    requires HexField(name, token, n)
    ensures f < FIELDS && |NAMES| == |TOKENS| == FIELDS && NAMES[f] == Ascii(name) && TOKENS[f] == token && KindOf(f) == Hex(n)
  {
    hide Ascii;
    f := if name == "id" then 0 else if name == "BK" then 1 else if name == "sender" then 2 else if name == "recipient" then 3 else 4;
    AsciiIs(name, NAMES[f]);
  }

  lemma NumberFieldIs(name: string, token: byte) returns (f: nat)
    requires NumberField(name, token)
    ensures f < FIELDS && |NAMES| == |TOKENS| == FIELDS && NAMES[f] == Ascii(name) && TOKENS[f] == token && KindOf(f) == Number
  {
    hide Ascii;
    f := if name == "version" then 5 else if name == "filesize" then 6 else if name == "date" then 7 else if name == "crypt" then 8 else 9;
    AsciiIs(name, NAMES[f]);
  }

  lemma ServiceIs()
    ensures |NAMES| == |TOKENS| == FIELDS && NAMES[10] == Ascii("service") && TOKENS[10] == 0xb0 && KindOf(10) == Choice
  {
    hide Ascii;
    AsciiIs("service", NAMES[10]);
  }

  lemma ServicesAre()
    ensures |OPTIONS| == 3 && OPTIONS[0] == Ascii("file") && OPTIONS[1] == Ascii("MeshMS1") && OPTIONS[2] == Ascii("MeshMS2")
  {
    hide Ascii;
    AsciiIs("file", OPTIONS[0]);
    AsciiIs("MeshMS1", OPTIONS[1]);
    AsciiIs("MeshMS2", OPTIONS[2]);
  }

  // ---------------------------------------------------------------- one line there and back

  lemma EncodesOne(f: nat, value: seq<byte>)
    requires f < FIELDS && |NAMES| == FIELDS && Clean(value)
    ensures EncodeText(LineOf(NAMES[f], value)) ==
            match EncodeField(f, value)
            case Plain => Coded(LineOf(NAMES[f], value))
            case Compact(c) => Coded(c)
            case Endless => Loops
  {
    hide NAMES, Scan, EncodeText, EncodeField, FindName, Clean, LineOf, After;
    var line := LineOf(NAMES[f], value);
    NameIsClean(f);
    NameFound(f, 0);
    ScansLine(NAMES[f], value, []);
    LineNotEmpty(NAMES[f], value);
    assert line + [] == line;
    EncodeStep(line);
    EncodeNone();
    match EncodeField(f, value) {
      case Plain => assert line + [] == line;
      case Compact(c) => assert c + [] == c;
      case Endless =>
    }
  }

  lemma DecodesOne(f: nat, body: seq<byte>)
    requires f < FIELDS && |TOKENS| == FIELDS
    ensures var d := DecodeField(f, body, 0);
            && (d.Text? && d.used >= |body| ==> ToText([TOKENS[f]] + body) == Decoded(d.s))
            && (d.Bad? ==> ToText([TOKENS[f]] + body) == Fail)
  {
    hide TOKENS, DecodeField, DecodeText, FindToken;
    var bin, d := [TOKENS[f]] + body, DecodeField(f, body, 0);
    TokensAreHigh(f);
    TokenFound(f, 0);
    DecodeStep(bin, 0, true);
    assert bin[1..] == body;
    if d.Text? && d.used >= |body| {
      assert After(body, d.used) == [];
      DecodeNone(|d.s|, true);
      assert d.s + [] == d.s;
    }
  }

  // ---------------------------------------------------------------- hex

  predicate HexDigit(b: byte) {
    48 <= b <= 57 || 65 <= b <= 70
  }

  function DigitValue(b: byte): (v: nat)
    requires HexDigit(b)
    ensures v < 16
  {
    if b <= 57 then b - 48 else b - 55
  }

  predicate HexDigits(s: seq<byte>) {
    forall i :: 0 <= i < |s| ==> HexDigit(s[i])
  }

  /** Two digits to a byte, the higher first. */
  predicate Pairs(s: seq<byte>, digits: seq<byte>) {
    HexDigits(digits) && |digits| == 2 * |s|
    && forall i :: 0 <= i < |s| ==> s[i] == 16 * DigitValue(digits[2 * i]) + DigitValue(digits[2 * i + 1])
  }

  lemma {:induction false} HexIsEncoded(value: seq<byte>, n: nat)
    requires |value| >= 2 * n && forall i :: 0 <= i < 2 * n ==> HexDigit(value[i])
    ensures HexEncode(value, n).Some?
  {
    if n > 0 {
      assert HexDigit(value[0]) && HexDigit(value[1]);
      HexIsEncoded(value[2..], n - 1);
    }
  }

  lemma {:induction false} EncodedAt(value: seq<byte>, n: nat, i: nat)
    requires |value| >= 2 * n && HexEncode(value, n).Some? && i < n && HexDigit(value[2 * i]) && HexDigit(value[2 * i + 1])
    ensures HexEncode(value, n).s[i] == 16 * DigitValue(value[2 * i]) + DigitValue(value[2 * i + 1])
  {
    if i > 0 {
      assert value[2..][2 * (i - 1)] == value[2 * i] && value[2..][2 * (i - 1) + 1] == value[2 * i + 1];
      EncodedAt(value[2..], n - 1, i - 1);
    }
  }

  lemma EncodesPairs(value: seq<byte>, n: nat)
    requires |value| >= 2 * n && HexDigits(value[..2 * n])
    ensures HexEncode(value, n).Some? && Pairs(HexEncode(value, n).s, value[..2 * n])
  {
    hide HexEncode, DigitValue, HexDigit;
    var digits := value[..2 * n];
    forall i | 0 <= i < 2 * n
      ensures HexDigit(value[i])
    {
      assert digits[i] == value[i];
    }
    HexIsEncoded(value, n);
    var s := HexEncode(value, n).s;
    forall i | 0 <= i < n
      ensures s[i] == 16 * DigitValue(digits[2 * i]) + DigitValue(digits[2 * i + 1])
    {
      assert digits[2 * i] == value[2 * i] && digits[2 * i + 1] == value[2 * i + 1];
      EncodedAt(value, n, i);
    }
  }

  lemma {:induction false} NotEncoded(value: seq<byte>, n: nat)
    requires |value| < 2 * n || !HexDigits(value[..2 * n])
    ensures HexEncode(value, n).None?
  {
    if n > 0 && |value| >= 2 && HexDigit(value[0]) && HexDigit(value[1]) {
      var v := value[2..];
      if |value| >= 2 * n && HexDigits(v[..2 * n - 2]) {
        forall i | 0 <= i < 2 * n
          ensures HexDigit(value[..2 * n][i])
        {
          if i >= 2 { assert v[..2 * n - 2][i - 2] == value[i]; }
        }
      }
      NotEncoded(v, n - 1);
    }
  }

  lemma {:induction false} DecodedAt(bin: seq<byte>, i: nat)
    requires i < |bin|
    ensures HexDecode(bin)[2 * i] == HexToChar(bin[i] / 16) && HexDecode(bin)[2 * i + 1] == HexToChar(bin[i] % 16)
  {
    if i > 0 {
      DecodedAt(bin[1..], i - 1);
      assert HexDecode(bin)[2 * i] == HexDecode(bin[1..])[2 * (i - 1)] && HexDecode(bin)[2 * i + 1] == HexDecode(bin[1..])[2 * (i - 1) + 1];
    }
  }

  lemma CharValue(h: nat)
    requires h < 16
    ensures HexDigit(HexToChar(h)) && DigitValue(HexToChar(h)) == h
  {
  }

  lemma DecodesPairs(bin: seq<byte>)
    ensures Pairs(bin, HexDecode(bin))
  {
    hide HexDecode, HexToChar, HexDigit, DigitValue;
    var d := HexDecode(bin);
    forall k | 0 <= k < |d|
      ensures HexDigit(d[k])
    {
      DecodedAt(bin, k / 2);
      CharValue(bin[k / 2] / 16);
      CharValue(bin[k / 2] % 16);
      assert k == 2 * (k / 2) || k == 2 * (k / 2) + 1;
    }
    forall i | 0 <= i < |bin|
      ensures bin[i] == 16 * DigitValue(d[2 * i]) + DigitValue(d[2 * i + 1])
    {
      DecodedAt(bin, i);
      CharValue(bin[i] / 16);
      CharValue(bin[i] % 16);
    }
  }

  lemma LineIs(f: nat, name: string, value: seq<byte>)
    requires f < FIELDS && |NAMES| == FIELDS && NAMES[f] == Ascii(name)
    ensures Line(name, value) == LineOf(NAMES[f], value)
  {
  }

  /** What stands for itself is stored as it is, compact or not. */
  lemma StoredAsIs(line: seq<byte>)
    requires |line| <= 1024 && EncodeText(line) == Coded(line)
    ensures (ToBinary(line).Packed? || ToBinary(line).Unpacked?) && ToBinary(line).s == line
  {
    hide EncodeText, ToText;
  }

  /** id, BK, sender and recipient of 64 upper-case hex digits take 33 bytes, filehash of 128 takes 65:
      the token, and two digits to a byte. Any other value of theirs is stored as it is. */
  lemma HexLine(name: string, token: byte, n: nat, value: seq<byte>)
    requires HexField(name, token, n) && Clean(value)
    ensures |value| == 2 * n && HexDigits(value) ==>
              var b := ToBinary(Line(name, value)); b.Packed? && |b.s| == n + 1 && b.s[0] == token && Pairs(b.s[1..], value)
    ensures |Line(name, value)| <= 1024 && !(|value| == 2 * n && HexDigits(value)) ==>
              var b := ToBinary(Line(name, value)); (b.Packed? || b.Unpacked?) && b.s == Line(name, value)
  {
    hide HexField, NAMES, TOKENS, KindOf, EncodeText, DecodeText, HexEncode, HexDecode, Clean, LineOf, EncodeField, DecodeField;
    var f := HexFieldIs(name, token, n);
    var line := Line(name, value);
    LineIs(f, name, value);
    EncodesOne(f, value);
    HexCode(f, n, value);
    if |value| < 2 * n || !HexDigits(value[..2 * n]) {
      NotEncoded(value, n);
      if |value| == 2 * n { assert value[..2 * n] == value; }
      if |line| <= 1024 { StoredAsIs(line); }
    } else {
      EncodesPairs(value, n);
      var h := HexEncode(value, n).s;
      HexText(f, n, h);
      DecodesOne(f, h);
      HexRoundTrip2(value, n);
      ShortEnough(name, value, n, token);
      assert EncodeText(line) == Coded([token] + h) && ToText([token] + h) == Decoded(LineOf(NAMES[f], value[..2 * n]));
      LineDiffers(NAMES[f], value, n);
      if |value| == 2 * n {
        assert value[..2 * n] == value;
        PackedAs(line, [token] + h);
        assert ([token] + h)[1..] == h;
      } else if |line| <= 1024 {
        UnpackedAs(line, [token] + h);
      }
    }
  }

  lemma PackedAs(line: seq<byte>, code: seq<byte>)
    requires |line| <= 1024 && EncodeText(line) == Coded(code) && ToText(code) == Decoded(line)
    ensures ToBinary(line) == Packed(code)
  {
    hide EncodeText, ToText;
  }

  lemma UnpackedAs(line: seq<byte>, code: seq<byte>)
    requires |line| <= 1024 && EncodeText(line) == Coded(code) && ToText(code) != Decoded(line)
    ensures ToBinary(line) == Unpacked(line)
  {
    hide EncodeText, ToText;
  }

  lemma ShortEnough(name: string, value: seq<byte>, n: nat, token: byte)
    requires HexField(name, token, n)
    ensures |value| == 2 * n ==> |Line(name, value)| <= 1024
  {
  }

  lemma LineDiffers(key: seq<byte>, value: seq<byte>, n: nat)
    requires |value| >= 2 * n
    ensures |value| > 2 * n ==> LineOf(key, value[..2 * n]) != LineOf(key, value)
  {
  }

  lemma HexCode(f: nat, n: nat, value: seq<byte>)
    requires f < FIELDS && |TOKENS| == FIELDS && KindOf(f) == Hex(n)
    ensures EncodeField(f, value) == if HexEncode(value, n).None? then Plain else Compact([TOKENS[f]] + HexEncode(value, n).s)
  {
    hide TOKENS, HexEncode;
  }

  lemma HexText(f: nat, n: nat, bin: seq<byte>)
    requires f < FIELDS && |NAMES| == FIELDS && KindOf(f) == Hex(n) && |bin| == n
    ensures DecodeField(f, bin, 0) == Text(LineOf(NAMES[f], HexDecode(bin)), n)
  {
    hide NAMES, HexDecode, Taken;
    TakenAll(bin, []);
    assert bin + [] == bin;
  }

  lemma HexRoundTrip2(value: seq<byte>, n: nat)
    requires |value| >= 2 * n && HexEncode(value, n).Some?
    ensures HexDecode(HexEncode(value, n).s) == value[..2 * n]
  {
    hide HexDecode, HexEncode;
    HexPrefix(value, n);
    HexRoundTrip(value[..2 * n], n);
  }

  lemma {:induction false} HexPrefix(value: seq<byte>, n: nat)
    requires |value| >= 2 * n
    ensures HexEncode(value[..2 * n], n) == HexEncode(value, n)
  {
    if n > 0 {
      HexPrefix(value[2..], n - 1);
      assert value[..2 * n][2..] == value[2..][..2 * n - 2];
    }
  }

  /** Of a hex field's token and its 32 or 64 bytes, whatever they are, the decoder makes the field's line. */
  lemma HexDecodes(name: string, token: byte, n: nat, bin: seq<byte>) returns (digits: seq<byte>)
    requires HexField(name, token, n) && |bin| == n
    ensures ToText([token] + bin) == Decoded(Line(name, digits)) && |digits| == 2 * n && Pairs(bin, digits)
  {
    hide HexField, NAMES, TOKENS, KindOf, DecodeText, HexDecode, LineOf, DecodeField;
    var f := HexFieldIs(name, token, n);
    digits := HexDecode(bin);
    DecodesPairs(bin);
    HexText(f, n, bin);
    DecodesOne(f, bin);
    LineIs(f, name, digits);
  }

  // ---------------------------------------------------------------- numbers

  function Power128(n: nat): (p: nat)
    ensures p >= 1
  {
    if n == 0 then 1 else 128 * Power128(n - 1)
  }

  /** Groups of seven bits, the lowest first, all but the last with the high bit set, and no more than
      the number needs. */
  ghost predicate Groups(s: seq<byte>, v: nat) {
    && |s| >= 1 && v < Power128(|s|) && (|s| > 1 ==> Power128(|s| - 1) <= v)
    && forall i :: 0 <= i < |s| ==> GroupAt(s, v, i)
  }

  ghost predicate GroupAt(s: seq<byte>, v: nat, i: nat)
    requires i < |s|
  {
    s[i] == v / Power128(i) % 128 + if i == |s| - 1 then 0 else 128
  }

  lemma {:induction false} VarintLength(v: nat)
    ensures var n := |Varint(v)|; v < Power128(n) && (n > 1 ==> Power128(n - 1) <= v)
  {
    if v >= 128 {
      VarintLength(v / 128);
    } else {
      assert Power128(1) == 128 * Power128(0);
    }
  }

  lemma {:induction false} VarintAt(v: nat, i: nat)
    requires i < |Varint(v)|
    ensures GroupAt(Varint(v), v, i)
  {
    if v >= 128 && i > 0 {
      VarintAt(v / 128, i - 1);
      assert Varint(v)[i] == Varint(v / 128)[i - 1];
      DivTwice(v, Power128(i - 1));
    } else {
      assert Power128(0) == 1;
    }
  }

  lemma DivTwice(v: nat, p: nat)
    requires p >= 1
    ensures v / 128 / p == v / (128 * p)
  {
    var a := v / 128;
    var b := a / p;
    var r := 128 * (a % p) + v % 128;
    assert a == p * b + a % p;
    assert v == 128 * a + v % 128;
    assert v == (128 * p) * b + r by { assert 128 * (p * b) == (128 * p) * b; }
    QuotientUnique(128 * p, v / (128 * p), v % (128 * p), b, r);
  }

  lemma VarintIs(v: nat)
    ensures Groups(Varint(v), v)
  {
    hide Varint, GroupAt, Power128;
    VarintLength(v);
    forall i | 0 <= i < |Varint(v)|
      ensures GroupAt(Varint(v), v, i)
    {
      VarintAt(v, i);
    }
  }

  lemma {:induction false} DecimalIsPlain(v: nat)
    ensures PlainDecimal(Decimal(v)) && Digits(Decimal(v)) == v && (v > 0 ==> Decimal(v)[0] != 48)
  {
    var d := Decimal(v);
    if v < 10 {
      assert d[..0] == [];
    } else {
      DecimalIsPlain(v / 10);
      assert d[..|d| - 1] == Decimal(v / 10);
    }
  }

  lemma NumberCode(f: nat, value: seq<byte>)
    requires f < FIELDS && |TOKENS| == FIELDS && KindOf(f) == Number
    ensures EncodeField(f, value) == if StrToLL(value) < 0 then Endless else Compact([TOKENS[f]] + Varint(StrToLL(value)))
  {
    hide TOKENS, Varint, StrToLL;
  }

  lemma NumberText(f: nat, v: nat)
    requires f < FIELDS && |NAMES| == FIELDS && KindOf(f) == Number && v <= LONGEST
    ensures DecodeField(f, Varint(v), 0) == Text(LineOf(NAMES[f], Decimal(v)), |Varint(v)|)
  {
    hide NAMES, Varint, VarintValue, VarintLen, Decimal, Signed;
    VarintRoundTrip(v, []);
    assert Varint(v) + [] == Varint(v);
    SignedIs(v);
  }

  lemma SignedIs(v: nat)
    requires v <= LONGEST
    ensures Signed(v) == Decimal(v)
  {
    hide Decimal;
    Stays64(v);
  }

  lemma Stays64(v: nat)
    requires v < 0x1_0000_0000_0000_0000
    ensures v % 0x1_0000_0000_0000_0000 == v
  {
  }

  /** Up to 63 bits, as strtoll reads and the decoder writes them. */
  ghost predicate Plain63(value: seq<byte>) {
    PlainDecimal(value) && Digits(value) <= 0x7fff_ffff_ffff_ffff
  }

  lemma PlainStays(value: seq<byte>)
    requires Plain63(value)
    ensures StrToLL(value) == Digits(value) && Decimal(Digits(value)) == value
  {
    hide StrToLL, Decimal, Digits;
    PlainIsRead(value);
    DecimalOfDigits(value);
  }

  lemma DecimalStays(v: nat)
    requires v <= LONGEST
    ensures Plain63(Decimal(v))
  {
    hide Decimal, Digits;
    DecimalIsPlain(v);
  }

  lemma LongestNumber(s: seq<byte>)
    ensures StrToLL(s) <= 0x7fff_ffff_ffff_ffff == LONGEST
  {
  }

  lemma SameLine(key: seq<byte>, a: seq<byte>, b: seq<byte>)
    ensures LineOf(key, a) == LineOf(key, b) <==> a == b
  {
    if LineOf(key, a) == LineOf(key, b) {
      assert LineOf(key, a)[|key| + 1..|key| + 1 + |a|] == a && LineOf(key, b)[|key| + 1..|key| + 1 + |b|] == b;
    }
  }

  /** A plain decimal of up to 63 bits takes its token and its groups of seven bits; a negative value is
      never done; any other is stored as it is. */
  lemma NumberLine(name: string, token: byte, value: seq<byte>)
    requires NumberField(name, token) && Clean(value) && |Line(name, value)| <= 1024
    ensures Plain63(value) ==>
              var b := ToBinary(Line(name, value)); b.Packed? && b.s != [] && b.s[0] == token && Groups(b.s[1..], Digits(value))
    ensures StrToLL(value) < 0 ==> ToBinary(Line(name, value)) == Never
    ensures StrToLL(value) >= 0 && !Plain63(value) ==>
              ToBinary(Line(name, value)) == Unpacked(Line(name, value))
  {
    hide NumberField, NAMES, TOKENS, KindOf, EncodeText, DecodeText, Varint, Clean, LineOf, EncodeField, DecodeField, StrToLL, Digits,
      Decimal, Groups, Plain63;
    var f := NumberFieldIs(name, token);
    var line := Line(name, value);
    LineIs(f, name, value);
    EncodesOne(f, value);
    NumberCode(f, value);
    LongestNumber(value);
    if StrToLL(value) >= 0 {
      var v := StrToLL(value);
      var s := Varint(v);
      VarintIs(v);
      NumberText(f, v);
      DecodesOne(f, s);
      SameLine(NAMES[f], Decimal(v), value);
      DecimalStays(v);
      if Plain63(value) {
        PlainStays(value);
        PackedAs(line, [token] + s);
        assert ([token] + s)[1..] == s;
      } else {
        UnpackedAs(line, [token] + s);
      }
    } else {
      assert EncodeText(line) == Loops;
      if Plain63(value) { PlainStays(value); }
    }
  }

  // ---------------------------------------------------------------- services

  /** file, MeshMS1 and MeshMS2 take two bytes; any other service is stored as it is. */
  lemma ServiceLine(value: seq<byte>)
    requires Clean(value) && |Line("service", value)| <= 1024
    ensures value == Ascii("file") ==> ToBinary(Line("service", value)) == Packed([0xb0, 0])
    ensures value == Ascii("MeshMS1") ==> ToBinary(Line("service", value)) == Packed([0xb0, 1])
    ensures value == Ascii("MeshMS2") ==> ToBinary(Line("service", value)) == Packed([0xb0, 2])
    ensures value != Ascii("file") && value != Ascii("MeshMS1") && value != Ascii("MeshMS2") ==>
              var b := ToBinary(Line("service", value)); (b.Packed? || b.Unpacked?) && b.s == Line("service", value)
  {
    hide Line, Clean, ToBinary, Ascii;
    OptionsDiffer();
    ServiceStored(value);
  }

  lemma ServiceStored(value: seq<byte>)
    requires Clean(value) && |Line("service", value)| <= 1024
    ensures |OPTIONS| == 3 && OPTIONS[0] == Ascii("file") && OPTIONS[1] == Ascii("MeshMS1") && OPTIONS[2] == Ascii("MeshMS2")
    ensures var o, b := FindOption(value, 0), ToBinary(Line("service", value));
            if o < 3 then value == OPTIONS[o] && b == Packed([0xb0, o])
            else value !in OPTIONS && (b.Packed? || b.Unpacked?) && b.s == Line("service", value)
  {
    hide NAMES, TOKENS, KindOf, EncodeText, DecodeText, Clean, LineOf, EncodeField, DecodeField, OPTIONS, Ascii, FindOption, Line;
    ServiceIs();
    ServicesAre();
    var line := Line("service", value);
    LineIs(10, "service", value);
    EncodesOne(10, value);
    ChoiceCode(value);
    var o := FindOption(value, 0);
    if o < 3 { ChoiceLine(line, value, o); } else { StoredAsIs(line); }
  }

  lemma ChoiceLine(line: seq<byte>, value: seq<byte>, o: nat)
    requires |NAMES| == |TOKENS| == FIELDS && |OPTIONS| == 3 && o < 3 && TOKENS[10] == 0xb0 && KindOf(10) == Choice
    requires value == OPTIONS[o] && line == LineOf(NAMES[10], value) && |line| <= 1024 && EncodeText(line) == Coded([0xb0, o])
    ensures ToBinary(line) == Packed([0xb0, o])
  {
    hide NAMES, TOKENS, EncodeText, DecodeText, LineOf, DecodeField, OPTIONS, KindOf;
    ChoiceText(o);
    DecodesOne(10, [o]);
    assert [TOKENS[10]] + [o] == [0xb0, o];
    PackedAs(line, [0xb0, o]);
  }

  lemma OptionsDiffer()
    ensures Ascii("file") != Ascii("MeshMS1") && Ascii("file") != Ascii("MeshMS2") && Ascii("MeshMS1") != Ascii("MeshMS2")
  {
    hide Ascii;
    var f, m, n := "file", "MeshMS1", "MeshMS2";
    assert |f| == 4 && |m| == |n| == 7 && m[6] == '1' && n[6] == '2';
    assert Ascii(m)[6] == 49 && Ascii(n)[6] == 50;
  }

  lemma ChoiceCode(value: seq<byte>)
    requires |TOKENS| == FIELDS && KindOf(10) == Choice && |OPTIONS| == 3
    ensures var o := FindOption(value, 0);
            && EncodeField(10, value) == (if o == 3 then Plain else Compact([TOKENS[10], o]))
            && (o == 3 ==> value !in OPTIONS)
  {
    hide TOKENS, OPTIONS;
    assert FindOption(value, 3) == 3;
    assert FindOption(value, 2) == if OPTIONS[2] == value then 2 else 3;
    assert FindOption(value, 1) == if OPTIONS[1] == value then 1 else FindOption(value, 2);
  }

  lemma ChoiceText(o: nat)
    requires o < 3 && |NAMES| == FIELDS && KindOf(10) == Choice && |OPTIONS| == 3
    ensures DecodeField(10, [o], 0) == Text(LineOf(NAMES[10], OPTIONS[o]), 1)
  {
    hide NAMES, OPTIONS;
  }
}
