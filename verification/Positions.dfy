/** Positions in a text: offsets, the client's lines and characters, and the compiler's. */
module Positions {
  const LF := 0xA
  const CR := 0xD

  /** The last code point of a line break: a CR is one unless an LF follows. */
  predicate EndsLine(text: seq<nat>, i: nat)
    requires i < |text|
  {
    text[i] == LF || (text[i] == CR && (i + 1 == |text| || text[i + 1] != LF))
  }

  predicate EndsCompilerLine(text: seq<nat>, i: nat)
    requires i < |text|
  {
    text[i] == LF || text[i] == 0x2028 || text[i] == 0x2029
  }

  /** The LF of a CRLF. */
  predicate IsSecondOfBreak(text: seq<nat>, i: nat) {
    0 < i < |text| && text[i] == LF && text[i - 1] == CR
  }

  // ----- Ascending offsets -----

  predicate Ascending(s: seq<nat>) {
    forall i, j | 0 <= i < j < |s| :: s[i] < s[j]
  }

  lemma AscendingAppend(s: seq<nat>, o: nat)
    requires Ascending(s) && forall x | x in s :: x < o
    ensures Ascending(s + [o]) && forall x :: x in s + [o] <==> x in s || x == o
  {
    assert forall i | 0 <= i < |s| :: s[i] in s;
  }

  /** How many are at most `o`. */
  function UpperBound(s: seq<nat>, o: nat): (r: nat)
    requires Ascending(s)
    ensures r <= |s| && (forall k | 0 <= k < r :: s[k] <= o) && (forall k | r <= k < |s| :: s[k] > o)
  {
    if s == [] then 0 else if s[|s| - 1] <= o then |s| else UpperBound(s[..|s| - 1], o)
  }

  datatype Encoding = UTF8 | UTF16 | UTF32

  function Units(c: nat, encoding: Encoding): (n: nat)
    ensures n > 0
  {
    match encoding
    case UTF32 => 1
    case UTF16 => if c >= 0x10000 then 2 else 1
    case UTF8 => if c < 0x80 then 1 else if c < 0x800 then 2 else if c < 0x10000 then 3 else 4
  }

  function AllUnits(s: seq<nat>, encoding: Encoding): nat {
    if s == [] then 0 else AllUnits(s[..|s| - 1], encoding) + Units(s[|s| - 1], encoding)
  }

  /** Every code point counts. */
  lemma {:induction false} UnitsGrow(s: seq<nat>, a: nat, b: nat, encoding: Encoding)
    requires a < b <= |s|
    ensures AllUnits(s[..a], encoding) < AllUnits(s[..b], encoding)
    decreases b
  {
    assert s[..b][..b - 1] == s[..b - 1];
    if a < b - 1 {
      UnitsGrow(s, a, b - 1, encoding);
    }
  }

  function Min(a: nat, b: nat): nat {
    if a < b then a else b
  }

  /** Where the line break before a line start begins. */
  function BreakBefore(text: seq<nat>, start: nat): int {
    if start > 0 && IsSecondOfBreak(text, start - 1) then start - 2 else start - 1
  }

  /** All starts of lines up to i. */
  ghost predicate StartsTo(text: seq<nat>, i: nat, starts: seq<nat>) {
    && i <= |text| && Ascending(starts) && |starts| > 0 && starts[0] == 0
    && forall o: nat :: o in starts <==> o == 0 || (o <= i && EndsLine(text, o - 1))
  }

  ghost predicate CompilerStartsTo(text: seq<nat>, i: nat, starts: seq<nat>) {
    && i <= |text| && Ascending(starts) && |starts| > 0 && starts[0] == 0
    && forall o: nat :: o in starts <==> o == 0 || (o <= i && EndsCompilerLine(text, o - 1))
  }

  /** The ends of all lines but the last. */
  ghost predicate EndsOf(text: seq<nat>, starts: seq<nat>, ends: seq<nat>) {
    |ends| == |starts| - 1 && forall k | 0 <= k < |ends| :: ends[k] == BreakBefore(text, starts[k + 1])
  }

  lemma NextStarts(text: seq<nat>, i: nat, starts: seq<nat>)
    requires StartsTo(text, i, starts) && i < |text|
    ensures StartsTo(text, i + 1, if EndsLine(text, i) then starts + [i + 1] else starts)
  {
    AscendingAppend(starts, i + 1);
  }

  lemma NextCompilerStarts(text: seq<nat>, i: nat, starts: seq<nat>)
    requires CompilerStartsTo(text, i, starts) && i < |text|
    ensures CompilerStartsTo(text, i + 1, if EndsCompilerLine(text, i) then starts + [i + 1] else starts)
  {
    AscendingAppend(starts, i + 1);
  }

  lemma NextEnds(text: seq<nat>, i: nat, starts: seq<nat>, ends: seq<nat>)
    requires EndsOf(text, starts, ends) && i < |text| && EndsLine(text, i)
    ensures EndsOf(text, starts + [i + 1], ends + [if text[i] == LF && i > 0 && text[i - 1] == CR then i - 1 else i])
  {
  }

  class LineIndex {
    const text: seq<nat>
    const lineStarts: seq<nat>
    const lineEnds: seq<nat>
    const compilerLineStarts: seq<nat>

    /** The starts are 0 and what is behind a line end; the ends are in front of the line breaks. */
    ghost predicate Valid()
    {
      && StartsTo(text, |text|, lineStarts) && CompilerStartsTo(text, |text|, compilerLineStarts)
      && |lineEnds| == |lineStarts| && EndsOf(text, lineStarts, lineEnds[..|lineEnds| - 1])
      && lineEnds[|lineEnds| - 1] == |text|
    }

    constructor (text: seq<nat>)
      ensures Valid() && this.text == text
    {
      var starts, ends, compilerStarts := FindLines(text);
      assert (ends + [|text|])[..|ends|] == ends;
      this.text := text;
      lineStarts, lineEnds, compilerLineStarts := starts, ends + [|text|], compilerStarts;
    }

    static method FindLines(text: seq<nat>) returns (starts: seq<nat>, ends: seq<nat>, compilerStarts: seq<nat>)
      ensures StartsTo(text, |text|, starts) && CompilerStartsTo(text, |text|, compilerStarts) && EndsOf(text, starts, ends)
    {
      hide StartsTo, CompilerStartsTo, EndsOf, Ascending;
      starts, ends, compilerStarts := [0], [], [0];
      Beginning(text);
      for i := 0 to |text|
        invariant StartsTo(text, i, starts) && CompilerStartsTo(text, i, compilerStarts) && EndsOf(text, starts, ends)
      {
        NextStarts(text, i, starts);
        NextCompilerStarts(text, i, compilerStarts);
        if text[i] == LF || (text[i] == CR && (i + 1 == |text| || text[i + 1] != LF)) {
          NextEnds(text, i, starts, ends);
          ends := ends + [if text[i] == LF && i > 0 && text[i - 1] == CR then i - 1 else i];
          starts := starts + [i + 1];
        }
        if text[i] == LF || text[i] == 0x2028 || text[i] == 0x2029 {
          compilerStarts := compilerStarts + [i + 1];
        }
      }
    }

    static lemma Beginning(text: seq<nat>)
      ensures StartsTo(text, 0, [0]) && CompilerStartsTo(text, 0, [0]) && EndsOf(text, [0], [])
    {
    }

    // ----- Lookups -----

    function CompilerLineEnd(line: nat): nat
      requires Valid()
    {
      if line == 0 || line > |compilerLineStarts| then |text|
      else if line < |compilerLineStarts| then
        assert compilerLineStarts[0] < compilerLineStarts[line];
        compilerLineStarts[line] - 1
      else |text|
    }

    function CompilerOffset(line: nat, character: nat): nat
      requires Valid()
    {
      if line == 0 then 0
      else if line > |compilerLineStarts| then |text|
      else Min(compilerLineStarts[line - 1] + (if character > 0 then character - 1 else 0), CompilerLineEnd(line))
    }

    function CompilerPosition(offset: nat): (nat, nat)
      requires Valid()
    {
      var line := UpperBound(compilerLineStarts, offset);
      assert line > 0;
      (line, offset - compilerLineStarts[line - 1] + 1)
    }

    /** The bounds of a line without its line break. */
    lemma LineBounds(line: nat)
      requires Valid() && line < |lineStarts|
      ensures lineStarts[line] <= lineEnds[line] <= |text|
      ensures line + 1 < |lineStarts| ==> lineEnds[line] < lineStarts[line + 1] <= |text|
    {
      assert lineStarts[line] in lineStarts;
      if line + 1 < |lineStarts| {
        var next := lineStarts[line + 1];
        assert next in lineStarts && lineStarts[line] < next;
        assert lineEnds[line] == lineEnds[..|lineEnds| - 1][line] == BreakBefore(text, next);
        assert lineStarts[line] > 0 ==> EndsLine(text, lineStarts[line] - 1);
      }
    }

    /** The code points of a line without the line break. */
    function Line(line: nat): seq<nat>
      requires Valid()
    {
      if line >= |lineStarts| then []
      else
        LineBounds(line);
        text[lineStarts[line]..lineEnds[line]]
    }

    function Offset(line: nat, character: nat): nat
      requires Valid()
    {
      if line >= |lineStarts| then |text| else lineStarts[line] + Min(character, |Line(line)|)
    }

    function LineAndCharacter(offset: nat): (r: (nat, nat))
      requires Valid()
      ensures r.0 < |lineStarts| && lineStarts[r.0] + r.1 == offset
      ensures r.0 + 1 < |lineStarts| ==> offset < lineStarts[r.0 + 1]
    {
      var line := UpperBound(lineStarts, offset);
      assert line > 0;
      (line - 1, offset - lineStarts[line - 1])
    }

    // ----- Conversions for the client -----

    method ToClient(line: nat, character: nat, encoding: Encoding) returns (position: (nat, nat))
      requires Valid()
      ensures position == ClientPosition(line, character, encoding)
    {
      var inLine, upTo := line, character;
      if line >= |lineStarts| {
        inLine := |lineStarts| - 1;
        upTo := |Line(inLine)|;
      }
      var codePoints := Line(inLine);
      upTo := Min(upTo, |codePoints|);
      var result := 0;
      assert codePoints[..0] == [];
      for i := 0 to upTo
        invariant result == AllUnits(codePoints[..i], encoding)
      {
        assert codePoints[..i + 1][..i] == codePoints[..i];
        result := result + Units(codePoints[i], encoding);
      }
      assert codePoints[..|codePoints|] == codePoints;
      position := (inLine, result);
    }

    /** Positions behind the end of a line or the text are moved there. */
    ghost function ClientPosition(line: nat, character: nat, encoding: Encoding): (nat, nat)
      requires Valid()
    {
      if line < |lineStarts| then (line, AllUnits(Line(line)[..Min(character, |Line(line)|)], encoding))
      else (|lineStarts| - 1, AllUnits(Line(|lineStarts| - 1), encoding))
    }

    /** The first code point of the line at or behind a position. */
    method ToCodePoint(line: nat, character: nat, encoding: Encoding) returns (i: nat)
      requires Valid()
      ensures i <= |Line(line)|
      ensures forall k | 0 <= k < i :: AllUnits(Line(line)[..k], encoding) < character
      ensures i < |Line(line)| ==> AllUnits(Line(line)[..i], encoding) >= character
    {
      var codePoints := Line(line);
      var counted := 0;
      i := 0;
      while i < |codePoints| && counted < character
        invariant i <= |codePoints| && counted == AllUnits(codePoints[..i], encoding)
        invariant forall k | 0 <= k < i :: AllUnits(codePoints[..k], encoding) < character
      {
        assert codePoints[..i + 1][..i] == codePoints[..i];
        counted := counted + Units(codePoints[i], encoding);
        i := i + 1;
      }
    }

    // ----- Round trips -----

    /** The compiler's position of an offset is the position of that offset. */
    lemma CompilerRoundTrip(offset: nat)
      requires Valid() && offset <= |text|
      ensures var (line, character) := CompilerPosition(offset);
        CompilerOffset(line, character) == offset
    {
      var line := UpperBound(compilerLineStarts, offset);
      if line < |compilerLineStarts| {
        assert compilerLineStarts[line] > offset;
      }
    }

    /** So is the client's, but for the second character of a line break: that becomes the first. */
    lemma ClientRoundTrip(offset: nat)
      requires Valid() && offset <= |text|
      ensures var (line, character) := LineAndCharacter(offset);
        Offset(line, character) == if IsSecondOfBreak(text, offset) then offset - 1 else offset
    {
      hide UpperBound, Ascending;
      var (line, character) := LineAndCharacter(offset);
      LineBounds(line);
      if IsSecondOfBreak(text, offset) {
        assert offset + 1 > 0 && EndsLine(text, (offset + 1) - 1);
        NotBetween(line, offset + 1);
      }
      if line + 1 < |lineStarts| {
        assert lineStarts[line + 1] in lineStarts;
      }
    }

    /** Positions behind the end of a line are moved there, and those behind the last line to the end of the text. */
    lemma BehindTheEnd(line: nat, character: nat)
      requires Valid()
      ensures line < |lineStarts| && character >= |Line(line)| ==> Offset(line, character) == lineEnds[line]
      ensures line >= |lineStarts| ==> Offset(line, character) == |text|
      ensures 0 < line < |compilerLineStarts| && compilerLineStarts[line - 1] + character > compilerLineStarts[line] ==>
                CompilerOffset(line, character) == compilerLineStarts[line] - 1
      ensures line >= |compilerLineStarts| && character > |text| ==> CompilerOffset(line, character) == |text|
    {
      if line < |lineStarts| { LineBounds(line); }
    }

    /** The compiler counts lines and characters from 1, and begins again behind the end of a line. */
    lemma CompilerCounts(offset: nat)
      requires Valid() && offset < |text|
      ensures CompilerPosition(0) == (1, 1)
      ensures var (line, character) := CompilerPosition(offset);
        CompilerPosition(offset + 1) == if EndsCompilerLine(text, offset) then (line + 1, 1) else (line, character + 1)
    {
      hide Ascending;
      CountsFrom(compilerLineStarts, offset);
      var line := UpperBound(compilerLineStarts, offset);
      assert offset + 1 in compilerLineStarts <==> EndsCompilerLine(text, offset + 1 - 1);
    }

    /** The client counts from 0. */
    lemma ClientCounts(offset: nat)
      requires Valid() && offset < |text|
      ensures LineAndCharacter(0) == (0, 0)
      ensures var (line, character) := LineAndCharacter(offset);
        LineAndCharacter(offset + 1) == if EndsLine(text, offset) then (line + 1, 0) else (line, character + 1)
    {
      hide Ascending;
      CountsFrom(lineStarts, offset);
      assert offset + 1 in lineStarts <==> EndsLine(text, offset + 1 - 1);
    }

    static lemma CountsFrom(starts: seq<nat>, offset: nat)
      requires Ascending(starts) && |starts| > 0 && starts[0] == 0
      ensures UpperBound(starts, 0) == 1
      ensures var line := UpperBound(starts, offset);
        if offset + 1 in starts then UpperBound(starts, offset + 1) == line + 1 && starts[line] == offset + 1
        else UpperBound(starts, offset + 1) == line
    {
      UpperIs(starts, 0, 1);
      var a := UpperBound(starts, offset);
      if offset + 1 in starts {
        StartsAt(starts, offset, a);
        UpperIs(starts, offset + 1, a + 1);
      } else {
        assert forall k | a <= k < |starts| :: starts[k] in starts && starts[k] > offset;
        UpperIs(starts, offset + 1, a);
      }
    }

    static lemma UpperIs(starts: seq<nat>, o: nat, r: nat)
      requires Ascending(starts) && r <= |starts|
      requires (forall k | 0 <= k < r :: starts[k] <= o) && forall k | r <= k < |starts| :: starts[k] > o
      ensures UpperBound(starts, o) == r
    {
      var b := UpperBound(starts, o);
      assert b < |starts| ==> starts[b] > o;
      assert r < |starts| ==> starts[r] > o;
    }

    static lemma StartsAt(starts: seq<nat>, offset: nat, a: nat)
      requires Ascending(starts) && offset + 1 in starts && a == UpperBound(starts, offset)
      ensures a < |starts| && starts[a] == offset + 1
    {
      var k :| 0 <= k < |starts| && starts[k] == offset + 1;
      assert k >= a;
      assert starts[a] <= starts[k];
    }

    /** No line has a character of a line break, and behind each but the last there is an LF, a CR or both. */
    lemma LinesHaveNoBreaks(line: nat)
      requires Valid() && line < |lineStarts|
      ensures LF !in Line(line) && CR !in Line(line)
      ensures line + 1 < |lineStarts| ==> lineEnds[line] < lineStarts[line + 1] <= |text| &&
                                          text[lineEnds[line]..lineStarts[line + 1]] in {[LF], [CR], [CR, LF]}
    {
      hide Ascending;
      LineBounds(line);
      var (start, end) := (lineStarts[line], lineEnds[line]);
      forall o | start <= o < end ensures text[o] != LF && text[o] != CR {
        NoBreakAt(line, o);
      }
      if line + 1 < |lineStarts| {
        var next := lineStarts[line + 1];
        assert next in lineStarts;
        assert lineEnds[..|lineEnds| - 1][line] == BreakBefore(text, next);
        assert EndsLine(text, next - 1);
        if end + 2 == next {
          assert text[end..next] == [text[end], text[end + 1]];
        } else {
          assert text[end..next] == [text[end]];
        }
      }
    }

    lemma NoBreakAt(line: nat, o: nat)
      requires Valid() && line < |lineStarts| && lineStarts[line] <= o < lineEnds[line] <= |text|
      ensures text[o] != LF && text[o] != CR
    {
      hide Ascending;
      LineBounds(line);
      if line + 1 < |lineStarts| {
        assert lineStarts[line + 1] in lineStarts;
        assert lineEnds[..|lineEnds| - 1][line] == BreakBefore(text, lineStarts[line + 1]);
      }
      if EndsLine(text, o) {
        assert o + 1 > 0 && EndsLine(text, o + 1 - 1);
        NotBetween(line, o + 1);
      } else if text[o] == CR {
        assert EndsLine(text, o + 2 - 1);
        NotBetween(line, o + 2);
      }
    }

    lemma NotBetween(line: nat, start: nat)
      requires Valid() && line < |lineStarts| && start in lineStarts && start > lineStarts[line]
      ensures line + 1 < |lineStarts| && start >= lineStarts[line + 1]
    {
      var k :| 0 <= k < |lineStarts| && lineStarts[k] == start;
      assert k > line + 1 ==> lineStarts[line + 1] < lineStarts[k];
    }
  }

  /** A code point of a line is found again at its position in any encoding. */
  method ClientCodePoint(lines: LineIndex, line: nat, character: nat, encoding: Encoding) returns (again: nat)
    requires lines.Valid() && line < |lines.lineStarts| && character <= |lines.Line(line)|
    ensures again == character
  {
    var position := lines.ToClient(line, character, encoding);
    again := lines.ToCodePoint(position.0, position.1, encoding);
    ghost var codePoints := lines.Line(line);
    if again < character {
      UnitsGrow(codePoints, again, character, encoding);
    }
  }
}
