/**
 The paths of documents: the percent-encoding of URIs that are not files into paths, the paths of file
 URIs, and both ways back.
 */
module PercentEncoding {
  type Byte = b: int | 0 <= b < 256

  const PERCENT: Byte := 0x25
  const SLASH: Byte := 0x2F

  /** Characters that stand for themselves; in paths of files the slash is one. */
  predicate IsPlain(c: Byte, file: bool) {
    0x30 <= c <= 0x39 || 0x41 <= c <= 0x5A || 0x61 <= c <= 0x7A || c == 0x2D || c == 0x2E || c == 0x5F || c == 0x7E ||
    (file && c == SLASH)
  }

  function HexDigit(d: int): Byte
    requires 0 <= d < 16
  {
    if d < 10 then 0x30 + d else 0x41 + d - 10
  }

  /** -1 if the character is no digit. */
  function HexValue(c: Byte): int {
    if 0x30 <= c <= 0x39 then c - 0x30
    else if 0x61 <= c <= 0x66 then c - 0x61 + 10
    else if 0x41 <= c <= 0x46 then c - 0x41 + 10
    else -1
  }

  function EncodeByte(c: Byte, file: bool): (r: seq<Byte>)
    ensures r != []
  {
    if IsPlain(c, file) then [c] else [PERCENT, HexDigit(c / 16), HexDigit(c % 16)]
  }

  function Encoded(text: seq<Byte>, file: bool): (r: seq<Byte>)
    ensures r == [] <==> text == []
  {
    if text == [] then [] else EncodeByte(text[0], file) + Encoded(text[1..], file)
  }

  method PercentEncode(text: seq<Byte>, file: bool) returns (encoded: seq<Byte>)
    ensures encoded == Encoded(text, file)
  {
    hide HexDigit, Encoded;
    encoded := [];
    assert text[0..] == text;
    for i := 0 to |text|
      invariant Encoded(text, file) == encoded + Encoded(text[i..], file)
    {
      EncodeNext(text, i, file);
      var c := text[i];
      if IsPlain(c, file) {
        encoded := encoded + [c];
      } else {
        encoded := encoded + [PERCENT];
        encoded := encoded + [HexDigit(c / 16)];
        encoded := encoded + [HexDigit(c % 16)];
      }
    }
    EncodeNothing(text[|text|..], file);
  }

  lemma EncodeNext(text: seq<Byte>, i: nat, file: bool)
    requires i < |text|
    ensures Encoded(text[i..], file) == EncodeByte(text[i], file) + Encoded(text[i + 1..], file)
  {
    assert text[i..][1..] == text[i + 1..];
  }

  lemma EncodeNothing(text: seq<Byte>, file: bool)
    requires text == []
    ensures Encoded(text, file) == []
  {
  }

  /** A character of the result is cut to a byte. */
  function ToByte(x: int): Byte {
    x % 256
  }

  /**
   A percent sign with two characters behind it stands for a byte. In URIs of files they have to be
   digits.
   */
  predicate IsEscape(text: seq<Byte>, i: nat, file: bool)
    requires i < |text|
  {
    text[i] == PERCENT && i + 2 < |text| && (file ==> HexValue(text[i + 1]) >= 0 && HexValue(text[i + 2]) >= 0)
  }

  function Decoded(encoded: seq<Byte>, file: bool): seq<Byte> {
    if encoded == [] then []
    else if IsEscape(encoded, 0, file) then
      [ToByte(HexValue(encoded[1]) * 16 + HexValue(encoded[2]))] + Decoded(encoded[3..], file)
    else [encoded[0]] + Decoded(encoded[1..], file)
  }

  method PercentDecode(encoded: seq<Byte>, file: bool) returns (text: seq<Byte>)
    ensures text == Decoded(encoded, file)
  {
    hide HexValue, ToByte, Decoded, IsEscape;
    text := [];
    var i := 0;
    assert encoded[0..] == encoded;
    while i < |encoded|
      invariant 0 <= i <= |encoded| && Decoded(encoded, file) == text + Decoded(encoded[i..], file)
    {
      DecodeNext(encoded, i, file);
      ghost var before := text;
      if IsEscape(encoded, i, file) {
        text := text + [ToByte(HexValue(encoded[i + 1]) * 16 + HexValue(encoded[i + 2]))];
        i := i + 2;
      } else {
        text := text + [encoded[i]];
      }
      i := i + 1;
      Joined(before, text[|before|], Decoded(encoded[i..], file));
    }
    assert encoded[i..] == [] && Decoded([], file) == [] by { DecodeEnd(file); }
  }

  lemma Joined(a: seq<Byte>, b: Byte, c: seq<Byte>)
    ensures a + ([b] + c) == a + [b] + c
  {
  }

  lemma DecodeEnd(file: bool)
    ensures Decoded([], file) == []
  {
  }

  lemma DecodeNext(encoded: seq<Byte>, i: nat, file: bool)
    requires i < |encoded|
    ensures IsEscape(encoded, i, file) ==> i + 2 < |encoded|
    ensures Decoded(encoded[i..], file) ==
            if IsEscape(encoded, i, file) then
              [ToByte(HexValue(encoded[i + 1]) * 16 + HexValue(encoded[i + 2]))] + Decoded(encoded[i + 3..], file)
            else [encoded[i]] + Decoded(encoded[i + 1..], file)
  {
    hide HexValue, ToByte;
    assert encoded[i..][1..] == encoded[i + 1..];
    assert i + 2 < |encoded| ==> encoded[i..][3..] == encoded[i + 3..];
  }

  lemma HexBack(c: Byte)
    ensures HexValue(HexDigit(c / 16)) == c / 16 && HexValue(HexDigit(c % 16)) == c % 16
    ensures ToByte(c / 16 * 16 + c % 16) == c
  {
  }

  lemma DecodeByte(c: Byte, rest: seq<Byte>, file: bool)
    ensures Decoded(EncodeByte(c, file) + rest, file) == [c] + Decoded(rest, file)
  {
    hide HexValue, HexDigit, ToByte;
    var all := EncodeByte(c, file) + rest;
    HexBack(c);
    if IsPlain(c, file) {
      assert all[1..] == rest;
    } else {
      assert all[3..] == rest;
    }
  }

  /** Decoding inverts encoding, so different documents have different paths. */
  lemma {:induction false} DecodeOfEncode(text: seq<Byte>, file: bool)
    ensures Decoded(Encoded(text, file), file) == text
  {
    hide EncodeByte;
    if text != [] {
      DecodeOfEncode(text[1..], file);
      DecodeByte(text[0], Encoded(text[1..], file), file);
      assert text == [text[0]] + text[1..];
    }
  }

  lemma EncodeIsInjective(a: seq<Byte>, b: seq<Byte>, file: bool)
    requires Encoded(a, file) == Encoded(b, file)
    ensures a == b
  {
    DecodeOfEncode(a, file);
    DecodeOfEncode(b, file);
  }

  // ----- Digits in either case -----

  const UPPER: seq<Byte> := [0x30, 0x31, 0x32, 0x33, 0x34, 0x35, 0x36, 0x37, 0x38, 0x39, 0x41, 0x42, 0x43, 0x44, 0x45, 0x46]
  const LOWER: seq<Byte> := [0x30, 0x31, 0x32, 0x33, 0x34, 0x35, 0x36, 0x37, 0x38, 0x39, 0x61, 0x62, 0x63, 0x64, 0x65, 0x66]

  /** The character is the hexadecimal digit, in either case. */
  predicate IsDigit(c: Byte, d: int) {
    0 <= d < 16 && (c == UPPER[d] || c == LOWER[d])
  }

  lemma HexDigits(c: Byte, d: int)
    ensures 0 <= d < 16 ==> HexDigit(d) == UPPER[d]
    ensures IsDigit(c, d) <==> HexValue(c) == d && d >= 0
  {
  }

  /** An escape is written with digits of either case, and decoded to the byte. */
  lemma DecodeEscape(a: Byte, b: Byte, c: Byte, rest: seq<Byte>, file: bool)
    requires IsDigit(a, c / 16) && IsDigit(b, c % 16)
    ensures Decoded([PERCENT, a, b] + rest, file) == [c] + Decoded(rest, file)
  {
    hide HexValue;
    HexDigits(a, c / 16);
    HexDigits(b, c % 16);
    assert ([PERCENT, a, b] + rest)[3..] == rest;
  }

  /** In URIs of files a percent sign without digits stands for itself. */
  lemma DecodePercent(rest: seq<Byte>)
    requires |rest| < 2 || (forall d :: !IsDigit(rest[0], d)) || forall d :: !IsDigit(rest[1], d)
    ensures Decoded([PERCENT] + rest, true) == [PERCENT] + Decoded(rest, true)
  {
    hide IsDigit, HexValue;
    assert ([PERCENT] + rest)[1..] == rest;
    if |rest| >= 2 {
      HexDigits(rest[0], HexValue(rest[0]));
      HexDigits(rest[1], HexValue(rest[1]));
    }
  }

  // ----- URIs and paths -----

  function Bytes(text: string): (r: seq<Byte>)
    ensures |r| == |text|
  {
    seq(|text|, i requires 0 <= i < |text| => text[i] as int % 256)
  }

  const FILE := Bytes("file://")
  const VIRTUAL := Bytes("/.emojicode-virtual-documents/")
  const DOCUMENT := Bytes("/document.emojic")

  predicate IsSnapshot(uri: seq<Byte>) {
    Bytes("git:") <= uri || Bytes("gitlens:") <= uri
  }

  /** What is in front of the first slash is dropped: only local files are supported. */
  function DropAuthority(path: seq<Byte>): (r: seq<Byte>)
    ensures r == [] || r[0] == SLASH
    ensures r == path <==> path == [] || path[0] == SLASH
    ensures |r| <= |path|
  {
    if path == [] || path[0] == SLASH then path else DropAuthority(path[1..])
  }

  /** `canonical` is what the file system makes of a path. */
  function ToPath(uri: seq<Byte>, canonical: seq<Byte> -> seq<Byte>): seq<Byte> {
    if FILE <= uri then canonical(DropAuthority(Decoded(uri[|FILE|..], true)))
    else if uri == [] || IsSnapshot(uri) then []
    else VIRTUAL + Encoded(uri, false) + DOCUMENT
  }

  /** The path is one that is made up for a document that is not a file. */
  predicate IsVirtual(path: seq<Byte>) {
    |path| > |VIRTUAL| + |DOCUMENT| && VIRTUAL <= path && path[|path| - |DOCUMENT|..] == DOCUMENT
  }

  function ToUri(path: seq<Byte>): seq<Byte> {
    if IsVirtual(path) then Decoded(path[|VIRTUAL|..|path| - |DOCUMENT|], false) else FILE + Encoded(path, true)
  }

  method UriToPath(uri: seq<Byte>, canonical: seq<Byte> -> seq<Byte>) returns (path: seq<Byte>)
    ensures path == ToPath(uri, canonical)
  {
    if !(FILE <= uri) {
      if uri == [] || IsSnapshot(uri) {
        return [];
      }
      var encoded := PercentEncode(uri, false);
      return VIRTUAL + encoded + DOCUMENT;
    }
    path := PercentDecode(uri[|FILE|..], true);
    if path != [] && path[0] != SLASH {
      var slash := 0;
      assert path[0..] == path;
      while slash < |path| && path[slash] != SLASH
        invariant slash <= |path| && DropAuthority(path) == DropAuthority(path[slash..])
      {
        assert path[slash..][1..] == path[slash + 1..];
        slash := slash + 1;
      }
      path := path[slash..];
    }
    path := canonical(path);
  }

  method PathToUri(path: seq<Byte>) returns (uri: seq<Byte>)
    ensures uri == ToUri(path)
  {
    if IsVirtual(path) {
      uri := PercentDecode(path[|VIRTUAL|..|path| - |DOCUMENT|], false);
    } else {
      var encoded := PercentEncode(path, true);
      uri := FILE + encoded;
    }
  }

  /** A document that is not a file has its URI back. */
  lemma VirtualRoundTrip(uri: seq<Byte>, canonical: seq<Byte> -> seq<Byte>)
    requires !(FILE <= uri) && uri != [] && !IsSnapshot(uri)
    ensures IsVirtual(ToPath(uri, canonical)) && ToUri(ToPath(uri, canonical)) == uri
  {
    hide Encoded, Decoded, IsSnapshot, Bytes;
    var encoded := Encoded(uri, false);
    var path := VIRTUAL + encoded + DOCUMENT;
    assert path[|VIRTUAL|..|path| - |DOCUMENT|] == encoded;
    DecodeOfEncode(uri, false);
  }

  /** So different documents that are not files never share a path. */
  lemma VirtualIsInjective(a: seq<Byte>, b: seq<Byte>, canonical: seq<Byte> -> seq<Byte>)
    requires !(FILE <= a) && a != [] && !IsSnapshot(a) && !(FILE <= b) && b != [] && !IsSnapshot(b)
    requires ToPath(a, canonical) == ToPath(b, canonical)
    ensures a == b
  {
    VirtualRoundTrip(a, canonical);
    VirtualRoundTrip(b, canonical);
  }

  /** The host in the URI of a file is dropped. */
  lemma HostIsDropped(host: seq<Byte>, path: seq<Byte>, canonical: seq<Byte> -> seq<Byte>)
    requires SLASH !in host && PERCENT !in host && path != [] && path[0] == SLASH
    ensures ToPath(FILE + host + Encoded(path, true), canonical) == canonical(path)
  {
    hide Encoded, Decoded, Bytes;
    var uri := FILE + host + Encoded(path, true);
    assert FILE <= uri && uri[|FILE|..] == host + Encoded(path, true);
    DecodePlain(host, Encoded(path, true));
    DecodeOfEncode(path, true);
    DropHost(host, path);
  }

  lemma {:induction false} DecodePlain(text: seq<Byte>, rest: seq<Byte>)
    requires PERCENT !in text
    ensures Decoded(text + rest, true) == text + Decoded(rest, true)
  {
    if text != [] {
      DecodePlain(text[1..], rest);
      assert (text + rest)[1..] == text[1..] + rest;
    } else {
      assert text + rest == rest;
    }
  }

  lemma {:induction false} DropHost(host: seq<Byte>, path: seq<Byte>)
    requires SLASH !in host && path != [] && path[0] == SLASH
    ensures DropAuthority(host + path) == path
  {
    if host != [] {
      DropHost(host[1..], path);
      assert (host + path)[1..] == host[1..] + path;
    } else {
      assert host + path == path;
    }
  }

  /** Only unreserved characters (section 2.3 of RFC 3986) are written as they are, and slashes in paths. */
  lemma {:induction false} EncodedIsPortable(text: seq<Byte>, file: bool)
    ensures forall c | c in Encoded(text, file) :: c == PERCENT || IsUnreserved(c as char) || (file && c == SLASH)
    ensures (forall c | c in text :: IsUnreserved(c as char)) ==> Encoded(text, file) == text
  {
    if text != [] {
      assert forall c | c in text[1..] :: c in text;
      assert text[0] in text;
      EncodedIsPortable(text[1..], file);
      PortableByte(text[0], file);
      assert text == [text[0]] + text[1..];
    }
  }

  predicate IsUnreserved(c: char) {
    'a' <= c <= 'z' || 'A' <= c <= 'Z' || '0' <= c <= '9' || c in "-._~"
  }

  lemma PortableByte(c: Byte, file: bool)
    ensures forall b | b in EncodeByte(c, file) :: b == PERCENT || IsUnreserved(b as char) || (file && b == SLASH)
    ensures IsUnreserved(c as char) ==> EncodeByte(c, file) == [c]
  {
  }

  /** The URI of a path that is not made up leads to what the file system makes of it, without an authority. */
  lemma FileRoundTrip(path: seq<Byte>, canonical: seq<Byte> -> seq<Byte>)
    requires !IsVirtual(path)
    ensures ToPath(ToUri(path), canonical) == canonical(DropAuthority(path))
    ensures path != [] && path[0] == SLASH ==> ToPath(ToUri(path), canonical) == canonical(path)
  {
    hide Encoded, Decoded, Bytes, IsVirtual;
    var uri := FILE + Encoded(path, true);
    assert FILE <= uri && uri[|FILE|..] == Encoded(path, true);
    DecodeOfEncode(path, true);
  }
}
