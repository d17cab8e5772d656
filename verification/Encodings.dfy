/**
 What the units of a client's positions are: bytes in UTF-8 (section 3 of RFC 3629), 16-bit units in
 UTF-16 (section 2.1 of RFC 2781), and code points in UTF-32.
 */
module Encodings {
  import opened Positions
  import Utf8

  predicate IsScalar(c: nat) {
    c < 0xD800 || 0xE000 <= c < 0x110000
  }

  predicate AllScalars(s: seq<nat>) {
    forall k | 0 <= k < |s| :: IsScalar(s[k])
  }

  // ----- UTF-16 -----

  predicate IsHigh(unit: nat) {
    0xD800 <= unit < 0xDC00
  }

  predicate IsLow(unit: nat) {
    0xDC00 <= unit < 0xE000
  }

  /** Code points beyond 16 bits are pairs of surrogates. */
  function Encode16(c: nat): seq<nat> {
    if c < 0x10000 then [c] else [0xD800 + (c - 0x10000) / 0x400, 0xDC00 + (c - 0x10000) % 0x400]
  }

  function EncodeAll16(s: seq<nat>): seq<nat> {
    if s == [] then [] else EncodeAll16(s[..|s| - 1]) + Encode16(s[|s| - 1])
  }

  function Decode16(units: seq<nat>): seq<nat> {
    var n := |units|;
    if n == 0 then []
    else if n > 1 && IsHigh(units[n - 2]) && IsLow(units[n - 1]) then
      Decode16(units[..n - 2]) + [0x10000 + (units[n - 2] - 0xD800) * 0x400 + (units[n - 1] - 0xDC00)]
    else Decode16(units[..n - 1]) + [units[n - 1]]
  }

  lemma Pairs(c: nat)
    requires 0x10000 <= c < 0x110000
    ensures IsHigh(Encode16(c)[0]) && IsLow(Encode16(c)[1])
    ensures 0x10000 + (Encode16(c)[0] - 0xD800) * 0x400 + (Encode16(c)[1] - 0xDC00) == c
  {
  }

  lemma DecodesLast(units: seq<nat>, c: nat)
    requires IsScalar(c)
    ensures Decode16(units + Encode16(c)) == Decode16(units) + [c]
    ensures forall k | 0 <= k < |Encode16(c)| :: Encode16(c)[k] < 0x10000
  {
    var all := units + Encode16(c);
    assert all[..|units|] == units;
    if c >= 0x10000 {
      hide Encode16;
      Pairs(c);
      assert |Encode16(c)| == 2 by { Lengths(c); }
      assert all[|all| - 2] == Encode16(c)[0] && all[|all| - 1] == Encode16(c)[1];
    }
  }

  lemma Lengths(c: nat)
    ensures |Encode16(c)| == Units(c, UTF16)
  {
  }

  /** What is encoded can be decoded, and fits 16 bits. */
  lemma {:induction false} Decodes16(s: seq<nat>)
    requires AllScalars(s)
    ensures Decode16(EncodeAll16(s)) == s && forall k | 0 <= k < |EncodeAll16(s)| :: EncodeAll16(s)[k] < 0x10000
    decreases |s|
  {
    hide Decode16, Encode16;
    if s != [] {
      var (rest, c) := (s[..|s| - 1], s[|s| - 1]);
      Decodes16(rest);
      DecodesLast(EncodeAll16(rest), c);
      assert s == rest + [c];
    } else {
      DecodesNothing();
    }
  }

  lemma DecodesNothing()
    ensures Decode16([]) == []
  {
  }

  /** The units of a text in UTF-16 are those it is encoded with. */
  lemma {:induction false} UnitsAre16(s: seq<nat>)
    ensures AllUnits(s, UTF16) == |EncodeAll16(s)|
    decreases |s|
  {
    hide Encode16, Units;
    if s != [] {
      UnitsAre16(s[..|s| - 1]);
      Lengths(s[|s| - 1]);
    }
  }

  // ----- UTF-8 and UTF-32 -----

  function AsNumbers(text: seq<Utf8.CodePoint>): (r: seq<nat>)
    ensures |r| == |text| && forall k | 0 <= k < |text| :: r[k] == text[k] as nat
  {
    seq(|text|, k requires 0 <= k < |text| => text[k] as nat)
  }

  lemma Lengths8(c: Utf8.CodePoint)
    requires Utf8.IsScalar(c)
    ensures |Utf8.Encode(c)| == Units(c as nat, UTF8)
  {
    assert c < 0x80 <==> c as nat < 0x80;
    assert c < 0x800 <==> c as nat < 0x800;
    assert c < 0x10000 <==> c as nat < 0x10000;
  }

  lemma {:induction false} EncodeLast(text: seq<Utf8.CodePoint>, c: Utf8.CodePoint)
    ensures Utf8.EncodeAll(text + [c]) == Utf8.EncodeAll(text) + Utf8.Encode(c)
  {
    hide Utf8.Encode;
    if text != [] {
      EncodeLast(text[1..], c);
      assert (text + [c])[1..] == text[1..] + [c];
    } else {
      assert Utf8.EncodeAll([c][1..]) == [] && [] + [c] == [c];
    }
  }

  lemma {:induction false} UnitsAre8(text: seq<Utf8.CodePoint>)
    requires Utf8.AllScalars(text)
    ensures AllUnits(AsNumbers(text), UTF8) == |Utf8.EncodeAll(text)|
    decreases |text|
  {
    hide Utf8.Encode, Utf8.IsScalar, Units;
    if text != [] {
      var (rest, c) := (text[..|text| - 1], text[|text| - 1]);
      assert AsNumbers(text)[..|text| - 1] == AsNumbers(rest);
      assert text == rest + [c] && c in text;
      UnitsAre8(rest);
      Lengths8(c);
      EncodeLast(rest, c);
    }
  }

  /** In UTF-32 each code point is a unit. */
  lemma {:induction false} UnitsAre32(s: seq<nat>)
    ensures AllUnits(s, UTF32) == |s|
    decreases |s|
  {
    if s != [] { UnitsAre32(s[..|s| - 1]); }
  }
}
