/** Semantic tokens: tokens divided into pieces that do not span lines, in the delta encoding. */
module SemanticTokens {
  import opened Wrappers
  import opened Positions

  datatype Kind = Kind(type_: nat, modifiers: nat)

  /** A token of the source, and how it is highlighted, if at all. */
  datatype Token = Token(start: nat, end: nat, kind: Option<Kind>)

  /** Code points of a line. */
  datatype Piece = Piece(line: nat, from: nat, to: nat, kind: Kind)

  /** What the client is told: start and length in the units of the encoding. */
  datatype Absolute = Absolute(line: nat, start: nat, length: nat, kind: Kind)

  const UINT32 := 0x1_0000_0000

  // ----- Pieces of tokens -----

  /** Positions behind the end of the line are moved there; nothing is told about nothing. */
  ghost function PieceOn(lines: LineIndex, line: nat, from: nat, to: nat, kind: Kind): (r: seq<Piece>)
    requires lines.Valid()
    ensures |r| <= 1
  {
    var size := |lines.Line(line)|;
    if Min(from, size) < Min(to, size) then [Piece(line, Min(from, size), Min(to, size), kind)] else []
  }

  /** The pieces of a token from a line on. */
  ghost function TokenPieces(lines: LineIndex, t: Token, line: nat): seq<Piece>
    requires lines.Valid() && t.kind.Some?
    decreases lines.LineAndCharacter(t.end).0 + 1 - line
  {
    if line > lines.LineAndCharacter(t.end).0 then []
    else PieceHere(lines, t, line) + TokenPieces(lines, t, line + 1)
  }

  /** What a token covers of a line. */
  ghost function PieceHere(lines: LineIndex, t: Token, line: nat): (r: seq<Piece>)
    requires lines.Valid() && t.kind.Some?
    ensures |r| <= 1
  {
    var (first, last) := (lines.LineAndCharacter(t.start), lines.LineAndCharacter(t.end));
    PieceOn(lines, line, if line == first.0 then first.1 else 0, if line == last.0 then last.1 else |lines.Line(line)|,
            t.kind.value)
  }

  ghost function Pieces(lines: LineIndex, tokens: seq<Token>): seq<Piece>
    requires lines.Valid()
  {
    if tokens == [] then []
    else Pieces(lines, tokens[..|tokens| - 1]) + PiecesOfLast(lines, tokens[|tokens| - 1])
  }

  ghost function PiecesOfLast(lines: LineIndex, t: Token): seq<Piece>
    requires lines.Valid()
  {
    if t.kind.None? then [] else TokenPieces(lines, t, lines.LineAndCharacter(t.start).0)
  }

  /** In order and disjoint, as the lexer returns them. */
  predicate Sorted(text: seq<nat>, tokens: seq<Token>) {
    && (forall k | 0 <= k < |tokens| :: tokens[k].start <= tokens[k].end <= |text|)
    && (forall j, k | 0 <= j < k < |tokens| :: tokens[j].end <= tokens[k].start)
  }

  // ----- What the client is told -----

  ghost function Tell(lines: LineIndex, p: Piece, encoding: Encoding): Absolute
    requires lines.Valid()
  {
    var start := lines.ClientPosition(p.line, p.from, encoding).1;
    var end := lines.ClientPosition(p.line, p.to, encoding).1;
    Absolute(p.line, start, if end > start then end - start else 0, p.kind)
  }

  ghost function TellAll(lines: LineIndex, pieces: seq<Piece>, encoding: Encoding): (r: seq<Absolute>)
    requires lines.Valid()
    ensures |r| == |pieces| && forall k | 0 <= k < |pieces| :: r[k] == Tell(lines, pieces[k], encoding)
  {
    if pieces == [] then []
    else TellAll(lines, pieces[..|pieces| - 1], encoding) + [Tell(lines, pieces[|pieces| - 1], encoding)]
  }

  // ----- The delta encoding -----

  /** Unsigned subtraction that is cut to 32 bits. */
  function Delta(a: nat, b: nat): nat {
    (a - b) % UINT32
  }

  /** The five numbers of a token, relative to where the one before starts. */
  function Five(a: Absolute, previousLine: nat, previousStart: nat): seq<nat> {
    [Delta(a.line, previousLine), if a.line == previousLine then Delta(a.start, previousStart) else a.start % UINT32,
     a.length % UINT32, a.kind.type_, a.kind.modifiers]
  }

  function LastLine(tokens: seq<Absolute>): nat {
    if tokens == [] then 0 else tokens[|tokens| - 1].line
  }

  function LastStart(tokens: seq<Absolute>): nat {
    if tokens == [] then 0 else tokens[|tokens| - 1].start
  }

  function EncodeAll(tokens: seq<Absolute>): seq<nat> {
    if tokens == [] then []
    else
      var rest := tokens[..|tokens| - 1];
      EncodeAll(rest) + Five(tokens[|tokens| - 1], LastLine(rest), LastStart(rest))
  }

  /** How a client reads the numbers (LSP 3.17, section "Semantic Tokens"). */
  function DecodeAll(data: seq<nat>): seq<Absolute> {
    if |data| < 5 then []
    else
      var (rest, five) := (DecodeAll(data[..|data| - 5]), data[|data| - 5..]);
      rest + [Absolute(LastLine(rest) + five[0], (if five[0] == 0 then LastStart(rest) else 0) + five[1], five[2],
                       Kind(five[3], five[4]))]
  }

  predicate Follows(a: Absolute, b: Absolute) {
    a.line < b.line || (a.line == b.line && a.start + a.length <= b.start)
  }

  /** Tokens in order that neither overlap nor are empty. */
  predicate Ordered(tokens: seq<Absolute>) {
    tokens == [] ||
    var (rest, last) := (tokens[..|tokens| - 1], tokens[|tokens| - 1]);
    Ordered(rest) && last.length > 0 && (rest == [] || Follows(rest[|rest| - 1], last))
  }

  /** Then every token follows all before it. */
  lemma {:induction false} OrderedPairs(tokens: seq<Absolute>, j: nat, k: nat)
    requires Ordered(tokens) && j < k < |tokens|
    ensures Follows(tokens[j], tokens[k]) && tokens[k].length > 0
    decreases |tokens|, k - j
  {
    var n := |tokens| - 1;
    if k < n {
      OrderedPairs(tokens[..n], j, k);
    } else if j < n - 1 {
      OrderedPairs(tokens[..n], j, n - 1);
      assert Follows(tokens[..n][n - 1], tokens[n]);
    }
  }

  /** The five numbers of a token fit 32 bits. */
  predicate Fits(a: Absolute, previousLine: nat, previousStart: nat) {
    && a.line - previousLine < UINT32
    && (if a.line == previousLine then a.start - previousStart else a.start) < UINT32
    && a.length < UINT32
  }

  predicate AllFit(tokens: seq<Absolute>) {
    tokens == [] ||
    var (rest, last) := (tokens[..|tokens| - 1], tokens[|tokens| - 1]);
    AllFit(rest) && Fits(last, LastLine(rest), LastStart(rest))
  }

  lemma DecodeOne(data: seq<nat>, rest: seq<Absolute>, last: Absolute)
    requires DecodeAll(data) == rest
    requires LastLine(rest) <= last.line && (LastLine(rest) == last.line ==> LastStart(rest) <= last.start)
    ensures DecodeAll(data + Five(last, LastLine(rest), LastStart(rest))) == rest + [last] <==>
            Fits(last, LastLine(rest), LastStart(rest))
  {
    hide LastLine, LastStart;
    var five := Five(last, LastLine(rest), LastStart(rest));
    var all := data + five;
    assert all[..|all| - 5] == data && all[|all| - 5..] == five;
    CutOff(last.line - LastLine(rest));
    CutOff(if last.line == LastLine(rest) then last.start - LastStart(rest) else last.start);
    CutOff(last.length);
    var read := DecodeAll(all);
    assert read[|rest|] == (rest + [last])[|rest|] <==> read == rest + [last];
  }

  lemma CutOff(x: nat)
    ensures x % UINT32 == x <==> x < UINT32
  {
  }

  lemma DecodeFront(data: seq<nat>, five: seq<nat>)
    requires |five| == 5
    ensures DecodeAll(data + five) != [] && DecodeAll(data + five)[..|DecodeAll(data + five)| - 1] == DecodeAll(data)
  {
    var all := data + five;
    assert all[..|all| - 5] == data && all[|all| - 5..] == five;
  }

  /**
   No subtraction underflows in tokens that are in order, and the client reads the same tokens
   exactly if all numbers fit.
   */
  lemma {:induction false} DecodeOfEncode(tokens: seq<Absolute>)
    requires Ordered(tokens)
    ensures DecodeAll(EncodeAll(tokens)) == tokens <==> AllFit(tokens)
    ensures tokens != [] ==> var rest := tokens[..|tokens| - 1];
      LastLine(rest) <= LastLine(tokens) && (LastLine(rest) == LastLine(tokens) ==> LastStart(rest) <= LastStart(tokens))
    decreases |tokens|
  {
    hide DecodeAll, Fits;
    if tokens != [] {
      var n := |tokens| - 1;
      var (rest, five) := (tokens[..n], Five(tokens[n], LastLine(tokens[..n]), LastStart(tokens[..n])));
      DecodeOfEncode(rest);
      assert tokens == rest + [tokens[n]];
      if AllFit(rest) {
        DecodeOne(EncodeAll(rest), rest, tokens[n]);
      } else {
        DecodeFront(EncodeAll(rest), five);
      }
    } else {
      NothingDecoded();
    }
  }

  lemma NothingDecoded()
    ensures DecodeAll([]) == []
  {
  }

  // ----- The pieces are in order -----

  /** A piece lies on its line. */
  ghost predicate IsPiece(lines: LineIndex, p: Piece)
    requires lines.Valid()
  {
    p.line < |lines.lineStarts| && p.from < p.to <= |lines.Line(p.line)|
  }

  lemma TellPiece(lines: LineIndex, p: Piece, encoding: Encoding)
    requires lines.Valid() && IsPiece(lines, p)
    ensures Tell(lines, p, encoding).length > 0
    ensures Tell(lines, p, encoding).start == AllUnits(lines.Line(p.line)[..p.from], encoding)
    ensures Tell(lines, p, encoding).start + Tell(lines, p, encoding).length == AllUnits(lines.Line(p.line)[..p.to], encoding)
  {
    UnitsGrow(lines.Line(p.line), p.from, p.to, encoding);
  }

  /** One piece is behind the other, on a later line or on the same. */
  predicate Behind(p: Piece, q: Piece) {
    p.line < q.line || (p.line == q.line && p.to <= q.from)
  }

  ghost predicate PiecesOrdered(lines: LineIndex, pieces: seq<Piece>)
    requires lines.Valid()
  {
    && (forall k | 0 <= k < |pieces| :: IsPiece(lines, pieces[k]))
    && (forall j, k | 0 <= j < k < |pieces| :: Behind(pieces[j], pieces[k]))
  }

  lemma TellBehind(lines: LineIndex, p: Piece, q: Piece, encoding: Encoding)
    requires lines.Valid() && IsPiece(lines, p) && IsPiece(lines, q) && Behind(p, q)
    ensures Follows(Tell(lines, p, encoding), Tell(lines, q, encoding))
  {
    TellPiece(lines, p, encoding);
    TellPiece(lines, q, encoding);
    if p.line == q.line && p.to < q.from {
      UnitsGrow(lines.Line(p.line), p.to, q.from, encoding);
    }
  }

  lemma {:induction false} TellOrdered(lines: LineIndex, pieces: seq<Piece>, encoding: Encoding)
    requires lines.Valid() && PiecesOrdered(lines, pieces)
    ensures Ordered(TellAll(lines, pieces, encoding))
    decreases |pieces|
  {
    hide Tell, IsPiece, Behind, PiecesOrdered, Follows, Ordered;
    if pieces != [] {
      var n := |pieces| - 1;
      OrderedParts(lines, pieces);
      TellOrdered(lines, pieces[..n], encoding);
      TellPiece(lines, pieces[n], encoding);
      if n > 0 { TellBehind(lines, pieces[n - 1], pieces[n], encoding); }
      OrderedWhole(TellAll(lines, pieces, encoding), TellAll(lines, pieces[..n], encoding));
    } else {
      assert Ordered([]) by { NothingOrdered(); }
    }
  }

  lemma NothingOrdered()
    ensures Ordered([])
  {
  }

  lemma OrderedWhole(tokens: seq<Absolute>, rest: seq<Absolute>)
    requires |tokens| == |rest| + 1 && tokens[..|rest|] == rest && Ordered(rest) && tokens[|rest|].length > 0
    requires rest != [] ==> Follows(tokens[|rest| - 1], tokens[|rest|])
    ensures Ordered(tokens)
  {
  }

  lemma OrderedParts(lines: LineIndex, pieces: seq<Piece>)
    requires lines.Valid() && PiecesOrdered(lines, pieces) && pieces != []
    ensures PiecesOrdered(lines, pieces[..|pieces| - 1])
    ensures forall p | p in pieces :: IsPiece(lines, p)
    ensures |pieces| > 1 ==> Behind(pieces[|pieces| - 2], pieces[|pieces| - 1])
  {
    hide IsPiece, Behind;
  }

  lemma JoinOrdered(lines: LineIndex, a: seq<Piece>, b: seq<Piece>)
    requires lines.Valid() && PiecesOrdered(lines, a) && PiecesOrdered(lines, b)
    requires forall p, q | p in a && q in b :: Behind(p, q)
    ensures PiecesOrdered(lines, a + b)
  {
    forall j, k | 0 <= j < k < |a + b| ensures Behind((a + b)[j], (a + b)[k]) {
      if j < |a| <= k {
        assert a[j] in a && b[k - |a|] in b;
      }
    }
  }

  /** The pieces of a token are on its lines, in order; an earlier position stays in front of them. */
  lemma {:induction false} TokenPiecesOrdered(lines: LineIndex, t: Token, line: nat)
    requires lines.Valid() && t.kind.Some? && t.start <= t.end <= |lines.text|
    requires line >= lines.LineAndCharacter(t.start).0
    ensures PiecesOrdered(lines, TokenPieces(lines, t, line))
    ensures forall p | p in TokenPieces(lines, t, line) :: line <= p.line && InToken(lines, t, p)
    decreases lines.LineAndCharacter(t.end).0 + 1 - line
  {
    hide PiecesOrdered, InToken, Behind, IsPiece, PieceHere;
    if line <= lines.LineAndCharacter(t.end).0 {
      TokenPiecesOrdered(lines, t, line + 1);
      HereOrdered(lines, t, line);
      var here, rest := PieceHere(lines, t, line), TokenPieces(lines, t, line + 1);
      forall p, q | p in here && q in rest ensures Behind(p, q) {
        LaterLine(p, q);
      }
      JoinOrdered(lines, here, rest);
    } else {
      NoPiecesOrdered(lines);
    }
  }

  lemma LaterLine(p: Piece, q: Piece)
    requires p.line < q.line
    ensures Behind(p, q)
  {
  }

  lemma NoPiecesOrdered(lines: LineIndex)
    requires lines.Valid()
    ensures PiecesOrdered(lines, [])
  {
  }

  lemma HereOrdered(lines: LineIndex, t: Token, line: nat)
    requires lines.Valid() && t.kind.Some? && t.start <= t.end <= |lines.text|
    requires lines.LineAndCharacter(t.start).0 <= line <= lines.LineAndCharacter(t.end).0
    ensures PiecesOrdered(lines, PieceHere(lines, t, line))
    ensures forall p | p in PieceHere(lines, t, line) :: p.line == line && InToken(lines, t, p)
  {
  }

  /** A piece does not reach out of its token. */
  ghost predicate InToken(lines: LineIndex, t: Token, p: Piece)
    requires lines.Valid()
  {
    var (first, last) := (lines.LineAndCharacter(t.start), lines.LineAndCharacter(t.end));
    && t.kind == Some(p.kind) && first.0 <= p.line <= last.0
    && (p.line == first.0 ==> first.1 <= p.from) && (p.line == last.0 ==> p.to <= last.1)
  }

  /** Positions are in the order of offsets. */
  lemma PositionsOrdered(lines: LineIndex, a: nat, b: nat)
    requires lines.Valid() && a <= b
    ensures var (p, q) := (lines.LineAndCharacter(a), lines.LineAndCharacter(b));
      p.0 < q.0 || (p.0 == q.0 && p.1 <= q.1)
  {
    var (p, q) := (lines.LineAndCharacter(a), lines.LineAndCharacter(b));
  }

  lemma {:induction false} PiecesAreOrdered(lines: LineIndex, tokens: seq<Token>)
    requires lines.Valid() && Sorted(lines.text, tokens)
    ensures PiecesOrdered(lines, Pieces(lines, tokens))
    ensures forall p | p in Pieces(lines, tokens) :: exists t :: t in tokens && InToken(lines, t, p)
    decreases |tokens|
  {
    if tokens != [] {
      var n := |tokens| - 1;
      var (before, last) := (Pieces(lines, tokens[..n]), PiecesOfLast(lines, tokens[n]));
      PiecesAreOrdered(lines, tokens[..n]);
      if tokens[n].kind.Some? {
        TokenPiecesOrdered(lines, tokens[n], lines.LineAndCharacter(tokens[n].start).0);
      }
      forall p, q | p in before && q in last ensures Behind(p, q) {
        var t :| t in tokens[..n] && InToken(lines, t, p);
        PositionsOrdered(lines, t.end, tokens[n].start);
      }
      JoinOrdered(lines, before, last);
      assert tokens[n] in tokens;
    }
  }

  // ----- The pieces cover the tokens -----

  /** A code point of a line is in one of the pieces. */
  ghost predicate Covered(pieces: seq<Piece>, line: nat, character: nat, kind: Kind) {
    exists p :: p in pieces && p.line == line && p.from <= character < p.to && p.kind == kind
  }

  lemma {:induction false} TokenIsCovered(lines: LineIndex, t: Token, line: nat, offset: nat)
    requires lines.Valid() && t.kind.Some? && t.start <= offset < t.end <= |lines.text|
    requires line <= lines.LineAndCharacter(offset).0
    requires lines.LineAndCharacter(offset).1 < |lines.Line(lines.LineAndCharacter(offset).0)|
    ensures var at := lines.LineAndCharacter(offset);
      Covered(TokenPieces(lines, t, line), at.0, at.1, t.kind.value)
    decreases lines.LineAndCharacter(t.end).0 + 1 - line
  {
    hide Covered, PieceHere;
    var at := lines.LineAndCharacter(offset);
    PositionsOrdered(lines, offset, t.end);
    var here, rest := PieceHere(lines, t, line), TokenPieces(lines, t, line + 1);
    if line == at.0 {
      HereCovers(lines, t, offset);
    } else {
      TokenIsCovered(lines, t, line + 1, offset);
    }
    CoveredConcat(here, rest, at.0, at.1, t.kind.value);
  }

  lemma HereCovers(lines: LineIndex, t: Token, offset: nat)
    requires lines.Valid() && t.kind.Some? && t.start <= offset < t.end <= |lines.text|
    requires lines.LineAndCharacter(offset).1 < |lines.Line(lines.LineAndCharacter(offset).0)|
    ensures var at := lines.LineAndCharacter(offset);
      Covered(PieceHere(lines, t, at.0), at.0, at.1, t.kind.value)
  {
    var at := lines.LineAndCharacter(offset);
    PositionsOrdered(lines, t.start, offset);
    PositionsOrdered(lines, offset, t.end);
    var p := PieceHere(lines, t, at.0)[0];
    assert p in PieceHere(lines, t, at.0) && p.line == at.0 && p.from <= at.1 < p.to;
  }

  lemma CoveredConcat(a: seq<Piece>, b: seq<Piece>, line: nat, character: nat, kind: Kind)
    ensures Covered(a + b, line, character, kind) <==> Covered(a, line, character, kind) || Covered(b, line, character, kind)
  {
    if p :| p in a + b && p.line == line && p.from <= character < p.to && p.kind == kind {
      assert p in a || p in b;
    }
    if p :| p in a && p.line == line && p.from <= character < p.to && p.kind == kind {
      assert p in a + b;
    }
    if p :| p in b && p.line == line && p.from <= character < p.to && p.kind == kind {
      assert p in a + b;
    }
  }

  lemma {:induction false} CoveredByPieces(lines: LineIndex, tokens: seq<Token>, k: nat, offset: nat)
    requires lines.Valid() && Sorted(lines.text, tokens) && k < |tokens|
    requires tokens[k].kind.Some? && tokens[k].start <= offset < tokens[k].end
    requires lines.LineAndCharacter(offset).1 < |lines.Line(lines.LineAndCharacter(offset).0)|
    ensures var at := lines.LineAndCharacter(offset);
      Covered(Pieces(lines, tokens), at.0, at.1, tokens[k].kind.value)
    decreases |tokens|
  {
    hide Covered, TokenPieces;
    var n, at := |tokens| - 1, lines.LineAndCharacter(offset);
    if k < n {
      CoveredByPieces(lines, tokens[..n], k, offset);
    } else {
      PositionsOrdered(lines, tokens[k].start, offset);
      TokenIsCovered(lines, tokens[k], lines.LineAndCharacter(tokens[k].start).0, offset);
    }
    CoveredConcat(Pieces(lines, tokens[..n]), PiecesOfLast(lines, tokens[n]), at.0, at.1, tokens[k].kind.value);
  }

  /**
   The pieces are the classified tokens without their line breaks: a code point of a line is in a
   piece of a kind exactly if it is in a token of that kind.
   */
  lemma PiecesAreTokens(lines: LineIndex, tokens: seq<Token>, offset: nat, kind: Kind)
    requires lines.Valid() && Sorted(lines.text, tokens)
    requires lines.LineAndCharacter(offset).1 < |lines.Line(lines.LineAndCharacter(offset).0)|
    ensures var at := lines.LineAndCharacter(offset);
      Covered(Pieces(lines, tokens), at.0, at.1, kind) <==>
      exists t :: t in tokens && t.kind == Some(kind) && t.start <= offset < t.end
  {
    var at := lines.LineAndCharacter(offset);
    if Covered(Pieces(lines, tokens), at.0, at.1, kind) {
      var p :| p in Pieces(lines, tokens) && p.line == at.0 && p.from <= at.1 < p.to && p.kind == kind;
      PiecesAreOrdered(lines, tokens);
      var t :| t in tokens && InToken(lines, t, p);
      WithinToken(lines, t, p, offset);
    }
    if t :| t in tokens && t.kind == Some(kind) && t.start <= offset < t.end {
      var k :| 0 <= k < |tokens| && tokens[k] == t;
      CoveredByPieces(lines, tokens, k, offset);
    }
  }

  lemma WithinToken(lines: LineIndex, t: Token, p: Piece, offset: nat)
    requires lines.Valid() && InToken(lines, t, p)
    requires lines.LineAndCharacter(offset).0 == p.line && p.from <= lines.LineAndCharacter(offset).1 < p.to
    ensures t.start <= offset < t.end
  {
    var (first, last) := (lines.LineAndCharacter(t.start), lines.LineAndCharacter(t.end));
    assert first.0 < p.line ==> lines.lineStarts[first.0 + 1] <= lines.lineStarts[p.line];
    assert p.line < last.0 ==> lines.lineStarts[p.line + 1] <= lines.lineStarts[last.0];
  }

  // ----- Writing the numbers -----

  class Writer {
    var data: seq<nat>
    var previousLine: nat
    var previousStart: nat

    constructor ()
      ensures data == [] && previousLine == previousStart == 0
    {
      data, previousLine, previousStart := [], 0, 0;
    }

    /** What was written are these tokens. */
    ghost predicate Wrote(tokens: seq<Absolute>)
      reads this
    {
      data == EncodeAll(tokens) && previousLine == LastLine(tokens) && previousStart == LastStart(tokens)
    }

    method Emit(lines: LineIndex, line: nat, startCharacter: nat, endCharacter: nat, kind: Kind, encoding: Encoding,
                ghost written: seq<Absolute>)
      requires lines.Valid() && line < |lines.lineStarts| && Wrote(written)
      modifies this
      ensures Wrote(written + TellAll(lines, PieceOn(lines, line, startCharacter, endCharacter, kind), encoding))
    {
      hide EncodeAll, LastLine, LastStart, PieceOn, TellAll, Wrote;
      var start := lines.ToClient(line, startCharacter, encoding);
      var end := lines.ToClient(line, endCharacter, encoding);
      SpanOf(lines, line, startCharacter, endCharacter, kind, encoding);
      if end.1 <= start.1 {
        assert written + [] == written;
        return;
      }
      Append(line, start.1, end.1 - start.1, kind, written);
    }

    method Append(line: nat, start: nat, length: nat, kind: Kind, ghost written: seq<Absolute>)
      requires Wrote(written)
      modifies this
      ensures Wrote(written + [Absolute(line, start, length, kind)])
    {
      hide EncodeAll, LastLine, LastStart, Delta;
      OneMore(written, Absolute(line, start, length, kind));
      data := data + [Delta(line, previousLine), if line == previousLine then Delta(start, previousStart) else start % UINT32,
                      length % UINT32, kind.type_, kind.modifiers];
      previousLine, previousStart := line, start;
    }

    /** Tokens cannot span lines, so those with line breaks are split. */
    method Write(lines: LineIndex, token: Token, encoding: Encoding, ghost pieces: seq<Piece>)
      requires lines.Valid() && token.kind.Some? && token.end <= |lines.text| && Wrote(TellAll(lines, pieces, encoding))
      modifies this
      ensures Wrote(TellAll(lines, pieces + PiecesOfLast(lines, token), encoding))
    {
      hide EncodeAll, TellAll, LastLine, LastStart, PieceOn, TokenPieces, Wrote;
      var start, end := lines.LineAndCharacter(token.start), lines.LineAndCharacter(token.end);
      var line := start.0;
      ghost var done := pieces;
      while line <= end.0
        invariant start.0 <= line && Wrote(TellAll(lines, done, encoding))
        invariant done + TokenPieces(lines, token, line) == pieces + TokenPieces(lines, token, start.0)
      {
        var from := if line == start.0 then start.1 else 0;
        var to := if line == end.0 then end.1 else |lines.Line(line)|;
        Emit(lines, line, from, to, token.kind.value, encoding, TellAll(lines, done, encoding));
        TellConcat(lines, done, PieceHere(lines, token, line), encoding);
        NextLine(lines, token, line, done);
        done := done + PieceHere(lines, token, line);
        line := line + 1;
      }
      NoMoreLines(lines, token, line, done);
    }
  }

  lemma NextLine(lines: LineIndex, t: Token, line: nat, done: seq<Piece>)
    requires lines.Valid() && t.kind.Some? && line <= lines.LineAndCharacter(t.end).0
    ensures done + TokenPieces(lines, t, line) == done + PieceHere(lines, t, line) + TokenPieces(lines, t, line + 1)
  {
    hide PieceHere;
  }

  lemma NoMoreLines(lines: LineIndex, t: Token, line: nat, done: seq<Piece>)
    requires lines.Valid() && t.kind.Some? && line > lines.LineAndCharacter(t.end).0
    ensures done + TokenPieces(lines, t, line) == done
  {
  }

  lemma OneMore(tokens: seq<Absolute>, last: Absolute)
    ensures EncodeAll(tokens + [last]) == EncodeAll(tokens) + Five(last, LastLine(tokens), LastStart(tokens))
    ensures LastLine(tokens + [last]) == last.line && LastStart(tokens + [last]) == last.start
  {
    assert (tokens + [last])[..|tokens|] == tokens;
  }

  /** There is something to tell exactly if the client's end is behind its start. */
  lemma SpanOf(lines: LineIndex, line: nat, from: nat, to: nat, kind: Kind, encoding: Encoding)
    requires lines.Valid() && line < |lines.lineStarts|
    ensures var start := lines.ClientPosition(line, from, encoding).1;
      var end := lines.ClientPosition(line, to, encoding).1;
      TellAll(lines, PieceOn(lines, line, from, to, kind), encoding) ==
      if end <= start then [] else [Absolute(line, start, end - start, kind)]
  {
    var codePoints := lines.Line(line);
    var (f, t) := (Min(from, |codePoints|), Min(to, |codePoints|));
    if f < t {
      UnitsGrow(codePoints, f, t, encoding);
      assert [Piece(line, f, t, kind)][..0] == [];
    } else if t < f {
      UnitsGrow(codePoints, t, f, encoding);
    }
  }

  lemma TellConcat(lines: LineIndex, a: seq<Piece>, b: seq<Piece>, encoding: Encoding)
    requires lines.Valid()
    ensures TellAll(lines, a + b, encoding) == TellAll(lines, a, encoding) + TellAll(lines, b, encoding)
  {
  }

  /** Divides the classified tokens at line breaks and writes the pieces. */
  method SemanticTokens(lines: LineIndex, tokens: seq<Token>, encoding: Encoding) returns (data: seq<nat>)
    requires lines.Valid() && Sorted(lines.text, tokens)
    ensures data == EncodeAll(TellAll(lines, Pieces(lines, tokens), encoding))
  {
    hide EncodeAll, TellAll, LastLine, LastStart, TokenPieces;
    var writer := new Writer();
    ghost var pieces: seq<Piece> := [];
    NothingWritten(lines, encoding);
    for k := 0 to |tokens|
      invariant pieces == Pieces(lines, tokens[..k]) && writer.Wrote(TellAll(lines, pieces, encoding))
    {
      assert tokens[..k + 1][..k] == tokens[..k];
      if tokens[k].kind.Some? {
        writer.Write(lines, tokens[k], encoding, pieces);
      } else {
        assert pieces + [] == pieces;
      }
      pieces := pieces + PiecesOfLast(lines, tokens[k]);
    }
    assert tokens[..|tokens|] == tokens;
    data := writer.data;
  }

  lemma NothingWritten(lines: LineIndex, encoding: Encoding)
    requires lines.Valid()
    ensures TellAll(lines, [], encoding) == [] && EncodeAll([]) == [] && LastLine([]) == LastStart([]) == 0
  {
  }

  /** The client reads the pieces of the tokens, in order and without overlaps, exactly if all numbers fit. */
  lemma ClientReads(lines: LineIndex, tokens: seq<Token>, encoding: Encoding)
    requires lines.Valid() && Sorted(lines.text, tokens)
    ensures var told := TellAll(lines, Pieces(lines, tokens), encoding);
      Ordered(told) && (DecodeAll(EncodeAll(told)) == told <==> AllFit(told))
  {
    var told := TellAll(lines, Pieces(lines, tokens), encoding);
    PiecesAreOrdered(lines, tokens);
    TellOrdered(lines, Pieces(lines, tokens), encoding);
    DecodeOfEncode(told);
  }
}
