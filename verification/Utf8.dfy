/** The UTF-8 codec. */
module Utf8 {
  type Byte = bv8
  type CodePoint = bv32

  /** Unicode scalar values: all code points but surrogates. */
  predicate IsScalar(c: CodePoint) {
    c < 0xD800 || 0xE000 <= c < 0x110000
  }

  /** The subtraction wraps around. */
  predicate CodePointValid(c: CodePoint) {
    c - 0xD800 > 0x07FF && c < 0x110000
  }

  lemma ValidIsScalar(c: CodePoint)
    ensures CodePointValid(c) <==> IsScalar(c)
  {
  }

  function Truncate(x: bv32): Byte {
    (x & 0xFF) as bv8
  }

  // The bytes of an encoding: the lead byte of two, three or four, and the trail bytes with six bits each.

  function Lead2(c: CodePoint): Byte { Truncate(0xC0 + (c >> 6)) }
  function Lead3(c: CodePoint): Byte { Truncate(0xE0 + (c >> 12)) }
  function Lead4(c: CodePoint): Byte { Truncate(0xF0 + (c >> 18)) }
  function Trail0(c: CodePoint): Byte { Truncate(0x80 + (c & 0x3F)) }
  function Trail6(c: CodePoint): Byte { Truncate(0x80 + ((c >> 6) & 0x3F)) }
  function Trail12(c: CodePoint): Byte { Truncate(0x80 + ((c >> 12) & 0x3F)) }

  /** The bytes written for a code point; none if it is too large. A negative one is, too. */
  function Encode(c: CodePoint): seq<Byte> {
    if c < 0x80 then [Truncate(c)]
    else if c < 0x800 then [Lead2(c), Trail0(c)]
    else if c < 0x10000 then [Lead3(c), Trail6(c), Trail0(c)]
    else if c < 0x110000 then [Lead4(c), Trail12(c), Trail6(c), Trail0(c)]
    else []
  }

  predicate IsContinuation(b: Byte) {
    b & 0xC0 == 0x80
  }

  datatype Decoded = Nothing | Invalid | Char(code: CodePoint, length: nat)

  function Bits(b: Byte, mask: bv32): bv32 {
    (b as bv32) & mask
  }

  function Join2(a: Byte, b: Byte): CodePoint { (Bits(a, 0x1F) << 6) | Bits(b, 0x3F) }
  function Join3(a: Byte, b: Byte, c: Byte): CodePoint {
    (Bits(a, 0xF) << 12) | (Bits(b, 0x3F) << 6) | Bits(c, 0x3F)
  }
  function Join4(a: Byte, b: Byte, c: Byte, d: Byte): CodePoint {
    (Bits(a, 7) << 18) | (Bits(b, 0x3F) << 12) | (Bits(c, 0x3F) << 6) | Bits(d, 0x3F)
  }

  /** Decodes the first code point. */
  function Iterate(str: seq<Byte>): Decoded {
    if str == [] then Nothing
    else
      var uc := str[0];
      if uc < 0x80 then Char(uc as bv32, 1)
      else if (uc as bv32) - 0xC2 > 0xF4 - 0xC2 then Invalid
      else if uc < 0xE0 then IterateTwo(str)
      else if uc < 0xF0 then IterateThree(str)
      else IterateFour(str)
  }

  function IterateTwo(str: seq<Byte>): Decoded
    requires |str| > 0
  {
    if |str| < 2 || !IsContinuation(str[1]) then Invalid
    else Char(Join2(str[0], str[1]), 2)
  }

  function IterateThree(str: seq<Byte>): Decoded
    requires |str| > 0
  {
    if |str| < 3 || !IsContinuation(str[1]) || !IsContinuation(str[2]) then Invalid
    else if str[0] == 0xED && str[1] > 0x9F then Invalid
    else
      var uc := Join3(str[0], str[1], str[2]);
      if uc < 0x800 then Invalid else Char(uc, 3)
  }

  function IterateFour(str: seq<Byte>): Decoded
    requires |str| > 0
  {
    if |str| < 4 || !IsContinuation(str[1]) || !IsContinuation(str[2]) || !IsContinuation(str[3]) then Invalid
    else if str[0] == 0xF0 && str[1] < 0x90 then Invalid
    else if str[0] == 0xF4 && str[1] > 0x8F then Invalid
    else Char(Join4(str[0], str[1], str[2], str[3]), 4)
  }

  // ----- Decoding what was encoded, byte by byte -----

  lemma EncodeTwo(c: CodePoint, b0: Byte, b1: Byte)
    requires 0x80 <= c < 0x800 && b0 == Lead2(c) && b1 == Trail0(c)
    ensures IsContinuation(b1) && c == Join2(b0, b1)
  {
  }

  lemma DecodeTwo(c: CodePoint, b0: Byte, b1: Byte)
    requires 0xC2 <= b0 < 0xE0 && IsContinuation(b1) && c == Join2(b0, b1)
    ensures 0x80 <= c < 0x800 && b0 == Lead2(c) && b1 == Trail0(c)
  {
  }

  lemma EncodeThree(c: CodePoint, b0: Byte, b1: Byte, b2: Byte)
    requires IsScalar(c) && 0x800 <= c < 0x10000 && b0 == Lead3(c)
    requires b1 == Trail6(c) && b2 == Trail0(c)
    ensures IsContinuation(b1) && IsContinuation(b2) && !(b0 == 0xED && b1 > 0x9F)
    ensures c == Join3(b0, b1, b2)
  {
  }

  lemma DecodeThree(c: CodePoint, b0: Byte, b1: Byte, b2: Byte)
    requires 0xE0 <= b0 < 0xF0 && IsContinuation(b1) && IsContinuation(b2) && !(b0 == 0xED && b1 > 0x9F) && c >= 0x800
    requires c == Join3(b0, b1, b2)
    ensures IsScalar(c) && 0x800 <= c < 0x10000 && b0 == Lead3(c)
    ensures b1 == Trail6(c) && b2 == Trail0(c)
  {
  }

  lemma EncodeFour(c: CodePoint, b0: Byte, b1: Byte, b2: Byte, b3: Byte)
    requires 0x10000 <= c < 0x110000 && b0 == Lead4(c) && b1 == Trail12(c) && b2 == Trail6(c) && b3 == Trail0(c)
    ensures IsContinuation(b1) && IsContinuation(b2) && IsContinuation(b3)
    ensures !(b0 == 0xF0 && b1 < 0x90) && !(b0 == 0xF4 && b1 > 0x8F)
    ensures c == Join4(b0, b1, b2, b3)
  {
    hide Lead4, Trail0, Trail6, Trail12, Join4, IsContinuation;
    TrailsContinue(c);
    LeadFour(c);
    JoinFour(c);
  }

  lemma TrailsContinue(c: CodePoint)
    ensures IsContinuation(Trail0(c)) && IsContinuation(Trail6(c)) && IsContinuation(Trail12(c))
  {
  }

  lemma LeadFour(c: CodePoint)
    requires 0x10000 <= c < 0x110000
    ensures !(Lead4(c) == 0xF0 && Trail12(c) < 0x90) && !(Lead4(c) == 0xF4 && Trail12(c) > 0x8F)
  {
  }

  lemma JoinFour(c: CodePoint)
    requires 0x10000 <= c < 0x110000
    ensures c == Join4(Lead4(c), Trail12(c), Trail6(c), Trail0(c))
  {
  }

  lemma DecodeFour(c: CodePoint, b0: Byte, b1: Byte, b2: Byte, b3: Byte)
    requires 0xF0 <= b0 <= 0xF4 && IsContinuation(b1) && IsContinuation(b2) && IsContinuation(b3)
    requires !(b0 == 0xF0 && b1 < 0x90) && !(b0 == 0xF4 && b1 > 0x8F)
    requires c == Join4(b0, b1, b2, b3)
    ensures 0x10000 <= c < 0x110000 && b0 == Lead4(c) && b1 == Trail12(c)
    ensures b2 == Trail6(c) && b3 == Trail0(c)
  {
  }

  /** The first byte says how many bytes there are. */
  lemma FirstByte(c: CodePoint)
    requires IsScalar(c)
    ensures var b := Encode(c);
      && (|b| == 1 ==> b[0] < 0x80 && b[0] as bv32 == c) && (|b| == 2 ==> 0xC2 <= b[0] < 0xE0)
      && (|b| == 3 ==> 0xE0 <= b[0] < 0xF0) && (|b| == 4 ==> 0xF0 <= b[0] <= 0xF4)
      && 1 <= |b| <= 4
  {
  }

  lemma LeadByte(b: Byte)
    ensures (b as bv32) - 0xC2 > 0xF4 - 0xC2 <==> b < 0xC2 || b > 0xF4
  {
  }

  // ----- The codec -----

  lemma PrefixOf<T>(a: seq<T>, s: seq<T>)
    ensures a <= s <==> |a| <= |s| && forall k | 0 <= k < |a| :: s[k] == a[k]
  {
    if |a| <= |s| && forall k | 0 <= k < |a| :: s[k] == a[k] {
      assert s[..|a|] == a;
    }
  }

  /** What decoding has to do with encoding, for a first byte that asks for `bytes` bytes. */
  predicate Inverse(str: seq<Byte>, c: CodePoint, bytes: nat) {
    Iterate(str) == Char(c, bytes) <==> IsScalar(c) && Encode(c) <= str && bytes == |Encode(c)|
  }

  lemma OneByte(str: seq<Byte>, c: CodePoint)
    requires str != [] && str[0] < 0x80
    ensures Inverse(str, c, 1)
  {
    PrefixOf(Encode(c), str);
    if IsScalar(c) { FirstByte(c); }
  }

  /** Which case encodes a code point. */
  lemma EncodedBy(c: CodePoint)
    ensures |Encode(c)| == 2 <==> 0x80 <= c < 0x800
    ensures |Encode(c)| == 3 <==> 0x800 <= c < 0x10000
    ensures |Encode(c)| == 4 <==> 0x10000 <= c < 0x110000
  {
    hide Truncate, Lead2, Lead3, Lead4, Trail0, Trail6, Trail12;
  }

  /** Which case decodes a text. */
  lemma DecodedBy(str: seq<Byte>)
    requires str != [] && 0xC2 <= str[0] <= 0xF4
    ensures Iterate(str) == if str[0] < 0xE0 then IterateTwo(str) else if str[0] < 0xF0 then IterateThree(str)
                            else IterateFour(str)
  {
    hide IterateTwo, IterateThree, IterateFour;
    LeadByte(str[0]);
  }

  lemma TwoBytes(str: seq<Byte>, c: CodePoint)
    requires str != [] && 0xC2 <= str[0] < 0xE0
    ensures Inverse(str, c, 2)
  {
    hide Lead2, Lead3, Lead4, Trail0, Trail6, Trail12, Join2, Join3, Join4, IsContinuation, Iterate, IsScalar, Encode;
    DecodedBy(str);
    EncodedBy(c);
    if Iterate(str) == Char(c, 2) {
      DecodeTwo(c, str[0], str[1]);
      TwoIs(c, str);
    } else if |Encode(c)| == 2 && Encode(c) <= str {
      TwoIs(c, str);
      EncodeTwo(c, str[0], str[1]);
    }
  }

  lemma TwoIs(c: CodePoint, str: seq<Byte>)
    requires 0x80 <= c < 0x800
    ensures IsScalar(c)
    ensures Encode(c) <= str <==>
            |str| >= 2 && str[0] == Lead2(c) && str[1] == Trail0(c)
  {
    hide Truncate, Lead2, Lead3, Lead4, Trail0, Trail6, Trail12;
    PrefixOf(Encode(c), str);
  }

  lemma ThreeDecode(str: seq<Byte>, c: CodePoint)
    requires str != [] && 0xE0 <= str[0] < 0xF0 && Iterate(str) == Char(c, 3)
    ensures IsScalar(c) && Encode(c) <= str && |Encode(c)| == 3
  {
    hide Lead2, Lead3, Lead4, Trail0, Trail6, Trail12, Join2, Join3, Join4, IsContinuation, Iterate, IsScalar, Encode;
    DecodedBy(str);
    DecodeThree(c, str[0], str[1], str[2]);
    ThreeIs(c, str);
    EncodedBy(c);
  }

  lemma ThreeEncode(str: seq<Byte>, c: CodePoint)
    requires str != [] && 0xE0 <= str[0] < 0xF0 && |Encode(c)| == 3 && IsScalar(c) && Encode(c) <= str
    ensures Iterate(str) == Char(c, 3)
  {
    hide Lead2, Lead3, Lead4, Trail0, Trail6, Trail12, Join2, Join3, Join4, IsContinuation, Iterate, IsScalar, Encode;
    EncodedBy(c);
    ThreeIs(c, str);
    EncodeThree(c, str[0], str[1], str[2]);
    DecodedBy(str);
  }

  lemma ThreeBytes(str: seq<Byte>, c: CodePoint)
    requires str != [] && 0xE0 <= str[0] < 0xF0
    ensures Inverse(str, c, 3)
  {
    hide Iterate, Encode, IsScalar;
    if Iterate(str) == Char(c, 3) {
      ThreeDecode(str, c);
    } else if IsScalar(c) && |Encode(c)| == 3 && Encode(c) <= str {
      ThreeEncode(str, c);
    }
  }

  lemma ThreeIs(c: CodePoint, str: seq<Byte>)
    requires 0x800 <= c < 0x10000
    ensures Encode(c) <= str <==>
            |str| >= 3 && str[0] == Lead3(c) && str[1] == Trail6(c) &&
            str[2] == Trail0(c)
  {
    hide Truncate, Lead2, Lead3, Lead4, Trail0, Trail6, Trail12;
    PrefixOf(Encode(c), str);
  }

  lemma FourDecode(str: seq<Byte>, c: CodePoint)
    requires str != [] && 0xF0 <= str[0] <= 0xF4 && Iterate(str) == Char(c, 4)
    ensures IsScalar(c) && Encode(c) <= str && |Encode(c)| == 4
  {
    hide Lead2, Lead3, Lead4, Trail0, Trail6, Trail12, Join2, Join3, Join4, IsContinuation, Iterate, IsScalar, Encode;
    DecodedBy(str);
    DecodeFour(c, str[0], str[1], str[2], str[3]);
    FourIs(c, str);
    EncodedBy(c);
  }

  lemma FourEncode(str: seq<Byte>, c: CodePoint)
    requires str != [] && 0xF0 <= str[0] <= 0xF4 && |Encode(c)| == 4 && Encode(c) <= str
    ensures Iterate(str) == Char(c, 4)
  {
    hide Lead2, Lead3, Lead4, Trail0, Trail6, Trail12, Join2, Join3, Join4, IsContinuation, Iterate, IsScalar, Encode;
    EncodedBy(c);
    FourIs(c, str);
    EncodeFour(c, str[0], str[1], str[2], str[3]);
    DecodedBy(str);
  }

  lemma FourBytes(str: seq<Byte>, c: CodePoint)
    requires str != [] && 0xF0 <= str[0] <= 0xF4
    ensures Inverse(str, c, 4)
  {
    hide Iterate, Encode, IsScalar;
    if Iterate(str) == Char(c, 4) {
      FourDecode(str, c);
    } else if IsScalar(c) && |Encode(c)| == 4 && Encode(c) <= str {
      FourEncode(str, c);
    }
  }

  lemma FourIs(c: CodePoint, str: seq<Byte>)
    requires 0x10000 <= c < 0x110000
    ensures IsScalar(c)
    ensures Encode(c) <= str <==>
            |str| >= 4 && str[0] == Lead4(c) && str[1] == Trail12(c) &&
            str[2] == Trail6(c) && str[3] == Trail0(c)
  {
    hide Truncate, Lead2, Lead3, Lead4, Trail0, Trail6, Trail12;
    PrefixOf(Encode(c), str);
  }

  /** The first byte decides how many bytes are decoded, if any. */
  lemma LengthOf(str: seq<Byte>, c: CodePoint, n: nat)
    requires Iterate(str) == Char(c, n)
    ensures str != [] && 1 <= n <= 4
    ensures (n == 1 ==> str[0] < 0x80) && (n == 2 ==> 0xC2 <= str[0] < 0xE0)
    ensures (n == 3 ==> 0xE0 <= str[0] < 0xF0) && (n == 4 ==> 0xF0 <= str[0] <= 0xF4)
  {
    hide Join2, Join3, Join4, IsContinuation, Encode;
    LeadByte(str[0]);
  }

  /**
   A code point is decoded exactly if the text begins with the encoding of that scalar value. So
   decoding inverts encoding whatever follows, and what is decoded is encoded to the same bytes.
   */
  lemma DecodesEncoded(str: seq<Byte>, c: CodePoint, n: nat)
    ensures Iterate(str) == Char(c, n) <==> IsScalar(c) && Encode(c) <= str && n == |Encode(c)|
  {
    hide Encode, IsScalar, Iterate;
    if Iterate(str) == Char(c, n) { LengthOf(str, c, n); }
    if IsScalar(c) { FirstByte(c); PrefixOf(Encode(c), str); }
    if str != [] {
      if str[0] < 0x80 {
        OneByte(str, c);
      } else if 0xC2 <= str[0] < 0xE0 {
        TwoBytes(str, c);
      } else if 0xE0 <= str[0] < 0xF0 {
        ThreeBytes(str, c);
      } else if 0xF0 <= str[0] <= 0xF4 {
        FourBytes(str, c);
      }
    }
  }

  /** A scalar value is decoded from its encoding, whatever follows. */
  lemma DecodeOfEncode(c: CodePoint, rest: seq<Byte>)
    requires IsScalar(c)
    ensures Iterate(Encode(c) + rest) == Char(c, |Encode(c)|)
  {
    hide Iterate, Encode, IsScalar;
    DecodesEncoded(Encode(c) + rest, c, |Encode(c)|);
  }

  /** Writes the encoding into a buffer with room for it. */
  method EncodeChar(c: CodePoint, dst: array<Byte>, at: nat) returns (length: nat)
    requires at + |Encode(c)| <= dst.Length
    modifies dst
    ensures length == |Encode(c)|
    ensures dst[..] == old(dst[..at]) + Encode(c) + old(dst[at + length..])
  {
    hide Lead2, Lead3, Lead4, Trail0, Trail6, Trail12, Truncate;
    if c < 0x80 {
      dst[at] := Truncate(c);
      length := 1;
    } else if c < 0x800 {
      dst[at], dst[at + 1] := Lead2(c), Trail0(c);
      length := 2;
    } else if c < 0x10000 {
      dst[at], dst[at + 1], dst[at + 2] := Lead3(c), Trail6(c), Trail0(c);
      length := 3;
    } else if c < 0x110000 {
      dst[at], dst[at + 1], dst[at + 2], dst[at + 3] := Lead4(c), Trail12(c), Trail6(c), Trail0(c);
      length := 4;
    } else {
      length := 0;
    }
  }

  // ----- Texts -----

  function EncodeAll(cs: seq<CodePoint>): seq<Byte> {
    if cs == [] then [] else Encode(cs[0]) + EncodeAll(cs[1..])
  }

  predicate AllScalars(cs: seq<CodePoint>) {
    forall c | c in cs :: IsScalar(c)
  }

  /** The encoding of some text. */
  ghost predicate IsText(data: seq<Byte>) {
    exists cs :: AllScalars(cs) && EncodeAll(cs) == data
  }

  /** What follows the first code point of a text is a text, and of a text only. */
  lemma TextRest(data: seq<Byte>, c: CodePoint, n: nat)
    requires Iterate(data) == Char(c, n)
    ensures n <= |data| && (IsText(data) <==> IsText(data[n..]))
  {
    hide Iterate, Encode, IsScalar;
    DecodesEncoded(data, c, n);
    assert data == Encode(c) + data[n..];
    if IsText(data) {
      var cs :| AllScalars(cs) && EncodeAll(cs) == data;
      assert cs != [] by { if cs == [] { EmptyDecodes(data); } }
      var d := cs[0];
      DecodesEncoded(data, d, |Encode(d)|);
      assert d == c;
      assert EncodeAll(cs[1..]) == data[n..];
    }
    if IsText(data[n..]) {
      var cs :| AllScalars(cs) && EncodeAll(cs) == data[n..];
      assert ([c] + cs)[1..] == cs;
      assert EncodeAll([c] + cs) == data;
    }
  }

  lemma EmptyDecodes(data: seq<Byte>)
    ensures Iterate(data) == Nothing <==> data == []
  {
    hide IterateTwo, IterateThree, IterateFour;
    if data != [] { NotNothing(data); }
  }

  lemma NotNothing(data: seq<Byte>)
    requires data != []
    ensures !IterateTwo(data).Nothing? && !IterateThree(data).Nothing? && !IterateFour(data).Nothing?
  {
    hide Join2, Join3, Join4, IsContinuation;
  }

  /** What cannot be decoded begins no text. */
  lemma NoText(data: seq<Byte>)
    requires Iterate(data) == Invalid
    ensures !IsText(data)
  {
    hide Iterate, Encode, IsScalar;
    if IsText(data) {
      var cs :| AllScalars(cs) && EncodeAll(cs) == data;
      if cs != [] {
        DecodesEncoded(data, cs[0], |Encode(cs[0])|);
      } else {
        EmptyDecodes(data);
      }
    }
  }

  /** Whether data is UTF-8: it has to be the encoding of some text. */
  method IsString(data: seq<Byte>) returns (valid: bool)
    ensures valid <==> IsText(data)
  {
    hide Iterate, IsText;
    var off := 0;
    assert data[0..] == data;
    while off < |data|
      invariant off <= |data| && (IsText(data) <==> IsText(data[off..]))
    {
      var rest := data[off..];
      EmptyDecodes(rest);
      match Iterate(rest) {
        case Invalid =>
          NoText(rest);
          return false;
        case Char(c, n) =>
          TextRest(rest, c, n);
          LengthOf(rest, c, n);
          assert rest[n..] == data[off + n..];
          off := off + n;
      }
    }
    assert data[off..] == [];
    EmptyIsText();
    valid := true;
  }

  lemma EmptyIsText()
    ensures IsText([])
  {
    assert AllScalars([]) && EncodeAll([]) == [];
  }

  /** Different texts have different encodings. */
  lemma {:induction false} EncodingIsUnique(cs: seq<CodePoint>, ds: seq<CodePoint>)
    requires AllScalars(cs) && AllScalars(ds) && EncodeAll(cs) == EncodeAll(ds)
    ensures cs == ds
    decreases |cs| + |ds|
  {
    hide Iterate, Encode, IsScalar;
    EmptyDecodes(EncodeAll(cs));
    if cs != [] { DecodesEncoded(EncodeAll(cs), cs[0], |Encode(cs[0])|); }
    if ds != [] { DecodesEncoded(EncodeAll(ds), ds[0], |Encode(ds[0])|); }
    if cs != [] && ds != [] {
      assert EncodeAll(cs[1..]) == EncodeAll(cs)[|Encode(cs[0])|..];
      assert EncodeAll(ds[1..]) == EncodeAll(ds)[|Encode(ds[0])|..];
      EncodingIsUnique(cs[1..], ds[1..]);
      assert cs == [cs[0]] + cs[1..] && ds == [ds[0]] + ds[1..];
    }
  }
}
