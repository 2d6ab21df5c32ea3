/** Storing a manifest for sending (manifest_text_to_binary, prime_bundle_cache) and reading it back
    (manifest_binary_to_text): the loops of manifest_compress.c. */
module ManifestPacker {
  import opened Bits
  import opened ManifestFields
  import opened ManifestText

  // ---------------------------------------------------------------- one field

  /** A byte of a C string, or of memory past a buffer's end. */
  function ByteAt(s: seq<byte>, i: nat): byte {
    if i < |s| then s[i] else 0
  }

  lemma HexStep(value: seq<byte>, n: nat)
    requires n > 0
    ensures HexEncode(value, n) ==
            if CharToHex(ByteAt(value, 0)) < 0 || CharToHex(ByteAt(value, 1)) < 0 then None
            else if HexEncode(After(value, 2), n - 1).None? then None
            else Some([CharToHex(value[0]) * 16 + CharToHex(value[1])] + HexEncode(After(value, 2), n - 1).s)
  {
  }

  method EncodeHex(value: seq<byte>, n: nat) returns (r: Option)
    ensures r == HexEncode(value, n)
  {
    hide HexEncode, CharToHex;
    var out: seq<byte> := [];
    var i := 0;
    while i < n
      invariant 0 <= i <= n
      invariant var h := HexEncode(After(value, 2 * i), n - i); HexEncode(value, n) == if h.None? then None else Some(out + h.s)
    {
      ghost var v := After(value, 2 * i);
      HexStep(v, n - i);
      assert ByteAt(v, 0) == ByteAt(value, 2 * i) && ByteAt(v, 1) == ByteAt(value, 2 * i + 1) && After(v, 2) == After(value, 2 * (i + 1));
      var hi, lo := CharToHex(ByteAt(value, i * 2)), CharToHex(ByteAt(value, i * 2 + 1));
      if hi < 0 || lo < 0 { return None; }
      HexDigits(ByteAt(value, i * 2), ByteAt(value, i * 2 + 1));
      ghost var h := HexEncode(After(value, 2 * (i + 1)), n - (i + 1));
      assert h.Some? ==> out + ([hi * 16 + lo] + h.s) == (out + [hi * 16 + lo]) + h.s;
      out := out + [hi * 16 + lo];
      i := i + 1;
    }
    HexNone(After(value, 2 * i));
    assert out + [] == out;
    r := Some(out);
  }

  lemma HexDigits(a: byte, b: byte)
    requires CharToHex(a) >= 0 && CharToHex(b) >= 0
    ensures 0 <= CharToHex(a) * 16 + CharToHex(b) < 256 && a != 0 && b != 0
  {
  }

  lemma HexNone(value: seq<byte>)
    ensures HexEncode(value, 0) == Some([])
  {
  }

  method EncodeNumber(v0: nat) returns (out: seq<byte>)
    ensures out == Varint(v0)
  {
    out := [];
    var v := v0;
    while v >= 128
      invariant Varint(v0) == out + Varint(v)
    {
      out := out + [v % 128 + 128];
      v := v / 128;
    }
    out := out + [v];
  }

  method EncodeChoice(value: seq<byte>) returns (o: nat)
    ensures o == FindOption(value, 0) <= |OPTIONS|
  {
    o := 0;
    while o < |OPTIONS| && OPTIONS[o] != value
      invariant 0 <= o <= |OPTIONS| && FindOption(value, 0) == FindOption(value, o)
    {
      o := o + 1;
    }
  }

  /** field_encode */
  method FieldEncode(f: nat, value: seq<byte>) returns (r: Encoding)
    requires f < FIELDS
    ensures r == EncodeField(f, value)
  {
    hide TOKENS, HexEncode, Varint, StrToLL, FindOption;
    TableSizes();
    match KindOf(f) {
      case Hex(n) =>
        var h := EncodeHex(value, n);
        r := if h.None? then Plain else Compact([TOKENS[f]] + h.s);
      case Number =>
        var v := StrToLL(value);
        if v < 0 { return Endless; }
        var s := EncodeNumber(v);
        r := Compact([TOKENS[f]] + s);
      case Choice =>
        var o := EncodeChoice(value);
        r := if o == |OPTIONS| then Plain else Compact([TOKENS[f], o]);
    }
  }

  method DecodeHex(bin: seq<byte>, at: nat, n: nat) returns (out: seq<byte>)
    ensures out == HexDecode(Taken(After(bin, at), n))
  {
    hide HexDecode, Taken, After, ByteAt, HexToChar;
    out := [];
    NoneTaken(After(bin, at));
    var i := 0;
    while i < n
      invariant 0 <= i <= n
      invariant HexDecode(Taken(After(bin, at), n)) == out + HexDecode(Taken(After(bin, at + i), n - i))
    {
      var v := ByteAt(bin, at + i);
      TakenOne(bin, at + i, n - i);
      var two := [HexToChar(v / 16), HexToChar(v % 16)];
      HexOne(v, Taken(After(bin, at + i + 1), n - i - 1));
      assert out + (two + HexDecode(Taken(After(bin, at + i + 1), n - i - 1)))
          == (out + two) + HexDecode(Taken(After(bin, at + i + 1), n - i - 1));
      out := out + two;
      i := i + 1;
    }
    NoneTaken(After(bin, at + i));
    assert out + [] == out;
  }

  lemma NoneTaken(s: seq<byte>)
    ensures Taken(s, 0) == [] && HexDecode(Taken(s, 0)) == []
  {
  }

  lemma TakenOne(bin: seq<byte>, at: nat, n: nat)
    requires n > 0
    ensures Taken(After(bin, at), n) == [ByteAt(bin, at)] + Taken(After(bin, at + 1), n - 1)
  {
    if at < |bin| { assert bin[at..][1..] == bin[at + 1..]; }
  }

  lemma HexOne(v: byte, rest: seq<byte>)
    ensures HexDecode([v] + rest) == [HexToChar(v / 16), HexToChar(v % 16)] + HexDecode(rest)
  {
    assert ([v] + rest)[1..] == rest;
  }

  /** The number, and how many bytes it took. */
  method DecodeNumber(bin: seq<byte>, at: nat) returns (v: nat, used: nat)
    ensures v == VarintValue(After(bin, at)) && used == VarintLen(After(bin, at))
  {
    hide VarintValue, VarintLen, After, ByteAt;
    v, used := 0, 0;
    var shift := 1;
    while ByteAt(bin, at + used) >= 128
      invariant shift >= 1
      invariant VarintLen(After(bin, at)) == used + VarintLen(After(bin, at + used))
      invariant VarintValue(After(bin, at)) == v + shift * VarintValue(After(bin, at + used))
      decreases |bin| - (at + used)
    {
      ghost var rest := VarintValue(After(bin, at + used + 1));
      var b := ByteAt(bin, at + used) % 128;
      VarintStep(bin, at + used);
      Shifted(shift, b, rest);
      v := v + b * shift;
      shift := shift * 128;
      used := used + 1;
    }
    VarintStep(bin, at + used);
    v := v + ByteAt(bin, at + used) * shift;
    used := used + 1;
  }

  lemma VarintStep(bin: seq<byte>, at: nat)
    ensures var b, rest := ByteAt(bin, at), After(bin, at + 1);
            && VarintLen(After(bin, at)) == (if b < 128 then 1 else 1 + VarintLen(rest))
            && VarintValue(After(bin, at)) == (if b < 128 then b else b % 128 + 128 * VarintValue(rest))
            && (b >= 128 ==> at < |bin|)
  {
    if at < |bin| { assert After(bin, at)[1..] == After(bin, at + 1); }
  }

  lemma Shifted(shift: nat, b: nat, rest: nat)
    ensures shift * (b + 128 * rest) == b * shift + (shift * 128) * rest
  {
  }

  /** field_decode, with the bytes read after the token. */
  method FieldDecode(f: nat, bin: seq<byte>, at: nat, outAt: nat) returns (r: Decoding)
    requires f < FIELDS
    ensures r == DecodeField(f, After(bin, at), outAt)
  {
    hide NAMES, HexDecode, Taken, Signed, VarintValue, VarintLen;
    TableSizes();
    if outAt > 900 { return Bad; }
    var name := NAMES[f] + [EQUALS];
    match KindOf(f) {
      case Hex(n) =>
        var s := DecodeHex(bin, at, n);
        r := Text(name + s + [NEWLINE], n);
      case Number =>
        var v, used := DecodeNumber(bin, at);
        r := Text(name + Signed(v) + [NEWLINE], used);
      case Choice =>
        var o: nat := ByteAt(bin, at);
        r := if o < |OPTIONS| then Text(name + OPTIONS[o] + [NEWLINE], 1) else Bad;
    }
  }

  // ---------------------------------------------------------------- a manifest

  lemma AfterAfter(s: seq<byte>, a: nat, b: nat)
    ensures After(After(s, a), b) == After(s, a + b)
  {
    if a + b <= |s| { assert s[a..][b..] == s[a + b..]; }
  }

  /** Putting more out ahead of the rest. */
  lemma BeforeMore(out: seq<byte>, a: seq<byte>, r: Coded)
    ensures Before(out, Before(a, r)) == Before(out + a, r)
  {
    assert r.Coded? ==> out + (a + r.s) == (out + a) + r.s;
  }

  lemma FollowingMore(out: seq<byte>, a: seq<byte>, r: Decoded)
    ensures Following(out, Following(a, r)) == Following(out + a, r)
  {
    assert r.Decoded? ==> out + (a + r.s) == (out + a) + r.s;
  }

  /** The loop of manifest_text_to_binary. */
  method PackText(text: seq<byte>) returns (r: Coded)
    ensures r == EncodeText(text)
  {
    hide Scan, FindName, EncodeField, LineOf, EncodeText;
    var out: seq<byte> := [];
    var offset := 0;
    assert After(text, 0) == text;
    while offset < |text|
      invariant EncodeText(text) == Before(out, EncodeText(After(text, offset)))
      decreases |text| - offset
    {
      ghost var s := After(text, offset);
      EncodeStep(s);
      match Scan(text[offset..]) {
        case Field(key, value) =>
          var f := FindName(key, 0);
          var code := Plain;
          if f < FIELDS { code := FieldEncode(f, value); }
          AfterAfter(text, offset, |key| + 1 + |value| + 1);
          if code.Endless? { return Loops; }
          var part := if code.Plain? then LineOf(key, value) else code.s;
          BeforeMore(out, part, EncodeText(After(text, offset + |key| + 1 + |value| + 1)));
          out := out + part;
          offset := offset + |key| + 1 + |value|;
        case NoField =>
          if text[offset] == 0 {
            return Coded(out + text[offset..]);
          }
          assert s[1..] == After(text, offset + 1);
          BeforeMore(out, [text[offset]], EncodeText(After(text, offset + 1)));
          out := out + [text[offset]];
      }
      offset := offset + 1;
    }
    EmptyPacks();
    assert After(text, offset) == [] && out + [] == out;
    r := Coded(out);
  }

  /** The loop of manifest_binary_to_text. */
  method UnpackText(bin: seq<byte>) returns (r: Decoded)
    ensures r == ToText(bin)
  {
    hide DecodeField, FindToken, DecodeText;
    EmptyPacks();
    var out: seq<byte> := [];
    var offset, lineStart := 0, true;
    assert After(bin, 0) == bin;
    while offset < |bin|
      invariant DecodeText(bin, 0, true) == Following(out, DecodeText(After(bin, offset), |out|, lineStart))
      decreases |bin| - offset
    {
      ghost var s := After(bin, offset);
      DecodeStep(s, |out|, lineStart);
      var b := bin[offset];
      assert s[0] == b && s[1..] == After(bin, offset + 1);
      if b == 0 {
        if |out| + |bin| - offset + 1 >= 1024 { return Fail; }
        assert out + s == out + bin[offset..];
        return Decoded(out + bin[offset..]);
      }
      if lineStart && b >= 0x80 {
        var f := FindToken(b, 0);
        if f == FIELDS { return Fail; }
        var d := FieldDecode(f, bin, offset + 1, |out|);
        if d.Bad? { return Fail; }
        AfterAfter(bin, offset + 1, d.used);
        FollowingMore(out, d.s, DecodeText(After(bin, offset + 1 + d.used), |out| + |d.s|, true));
        out := out + d.s;
        offset := offset + 1 + d.used;
      } else {
        lineStart := b == NEWLINE;
        if |out| > 1023 { return Fail; }
        FollowingMore(out, [b], DecodeText(After(bin, offset + 1), |out| + 1, lineStart));
        out := out + [b];
        offset := offset + 1;
      }
    }
    DecodeNone(|out|, lineStart);
    assert After(bin, offset) == [] && out + [] == out;
    r := Decoded(out);
  }

  /** manifest_text_to_binary: the compact form is checked by decoding it. */
  method TextToBinary(text: seq<byte>) returns (r: Stored)
    ensures r == ToBinary(text)
  {
    hide EncodeText, DecodeText;
    if |text| > 1024 { return TooLong; }
    var bin := PackText(text);
    if bin.Loops? { return Never; }
    var verify := UnpackText(bin.s);
    var verified: seq<byte> := if verify.Decoded? then verify.s else [];
    EmptyPacks();
    if |verified| != |text| || verified != text {
      r := Unpacked(text);
    } else {
      r := Packed(bin.s);
    }
  }

  /** A failed decoding counts as empty text, which is never the empty text's. */
  lemma EmptyPacks()
    ensures EncodeText([]) == Coded([]) && ToText([]) == Decoded([])
  {
  }

  datatype Cached = Refused | NeverDone | Kept(encoded: seq<byte>)

  /** What prime_bundle_cache keeps of a manifest: the stored form, which every receiver decodes to the
      manifest if that is at most 1022 bytes and no line of it starts like a token. */
  method CacheManifest(manifest: seq<byte>) returns (r: Cached)
    ensures r.Refused? <==> |manifest| > 1024
    ensures r.NeverDone? <==> ToBinary(manifest).Never?
    ensures r.Kept? ==> (ToText(r.encoded) == Decoded(manifest)
                         <==> ToBinary(manifest).Packed? || (StartsLow(manifest, true) && FitsFrom(manifest, 0)))
    ensures r.Kept? && |manifest| <= 1022 && StartsLow(manifest, true) ==> ToText(r.encoded) == Decoded(manifest)
  {
    hide ToText, StartsLow, FitsFrom, EncodeText;
    if |manifest| > 1024 { return Refused; }
    var stored := TextToBinary(manifest);
    if stored.Never? { return NeverDone; }
    StoredDecodes(manifest);
    if |manifest| <= 1022 && StartsLow(manifest, true) { SmallManifestsDecode(manifest); }
    r := Kept(if stored.Packed? then stored.s else manifest);
  }
}
