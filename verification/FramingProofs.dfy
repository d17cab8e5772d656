/** Messages come out of the transport as they were framed, however the input is divided into chunks. */
module FramingProofs {
  import opened Wrappers
  import opened Framing

  // ----- Chunks do not matter -----

  /** The state once the transport is at a header, if it gets there. */
  function AtHeader(s: State): Option<string>
    requires !s.skipping
  {
    if !s.resynchronizing then Some(s.buffer)
    else match Find(LowerAll(s.buffer), FIELD)
      case None => None
      case Some(k) => Some(s.buffer[k..])
  }

  /** A header and its end, or the beginning of one, are not longer than what is buffered. */
  predicate HeaderFits(buffer: string) {
    match Find(buffer, HEADER_END)
    case None => |buffer| <= MAXIMUM_HEADER_SIZE
    case Some(end) => end + |HEADER_END| - 1 <= MAXIMUM_HEADER_SIZE
  }

  /** All headers in the buffer fit. */
  predicate HeadersFit(s: State)
    decreases |s.buffer|
  {
    && !s.skipping
    && (AtHeader(s).Some? ==> HeaderFits(AtHeader(s).value))
    && (!Take(s).0.Incomplete? ==> HeadersFit(Take(s).1))
  }

  lemma TakeAtHeader(s: State)
    requires !s.skipping
    ensures Take(s) == if AtHeader(s).None? then (Incomplete, State(Tail(s.buffer, |FIELD| - 1), false, true))
                       else TakeHeader(AtHeader(s).value)
  {
  }

  /** If more follows, a header stays where it is; if there is none, only the end of the buffer matters. */
  lemma AtHeaderAppend(s: State, t: string)
    requires !s.skipping
    ensures AtHeader(s).Some? ==> AtHeader(s.Append(t)) == Some(AtHeader(s).value + t)
    ensures AtHeader(s).None? ==> AtHeader(s.Append(t)) == AtHeader(Take(s).1.Append(t))
    ensures AtHeader(s).None? ==> Tail((s.buffer + t), |FIELD| - 1) == Tail(Take(s).1.buffer + t, |FIELD| - 1)
  {
    hide Find, Tail, LowerAll;
    if s.resynchronizing {
      LowerAppend(s.buffer, t);
      var low := LowerAll(s.buffer);
      if Find(low, FIELD).Some? {
        FindAppend(low, LowerAll(t), FIELD);
        assert (s.buffer + t)[Find(low, FIELD).value..] == s.buffer[Find(low, FIELD).value..] + t;
      } else {
        FieldInTail(s.buffer, t);
      }
    }
  }

  /** Only the end of what was searched matters for the next search. */
  lemma FieldInTail(buffer: string, t: string)
    requires Find(LowerAll(buffer), FIELD).None?
    ensures var keep := Tail(buffer, |FIELD| - 1);
      && AtHeader(State(buffer + t, false, true)) == AtHeader(State(keep + t, false, true))
      && Tail(buffer + t, |FIELD| - 1) == Tail(keep + t, |FIELD| - 1)
  {
    hide Find, LowerAll, Tail;
    var keep := Tail(buffer, |FIELD| - 1);
    TailIsEnd(buffer, |FIELD| - 1);
    var d := |buffer| - |keep|;
    LowerAppend(buffer, t);
    FindTail(LowerAll(buffer), LowerAll(t), FIELD);
    LowerTail(buffer, |FIELD| - 1);
    LowerAppend(keep, t);
    TailAppend(buffer, t, |FIELD| - 1);
    SameRest(buffer, keep, t, d, Find(LowerAll(keep + t), FIELD));
  }

  lemma TailIsEnd(s: string, n: nat)
    ensures |Tail(s, n)| <= |s| && Tail(s, n) == s[|s| - |Tail(s, n)|..]
  {
  }

  lemma SameRest(buffer: string, keep: string, t: string, d: nat, found: Option<nat>)
    requires d <= |buffer| && keep == buffer[d..] && (found.Some? ==> found.value <= |keep + t|)
    ensures found.Some? ==> (buffer + t)[d + found.value..] == (keep + t)[found.value..]
  {
    assert (buffer + t)[d..] == keep + t;
  }

  lemma TakeHeaderAppend(buffer: string, t: string)
    requires HeaderFits(buffer + t)
    ensures HeaderFits(buffer)
    ensures var (r, s) := TakeHeader(buffer);
      if r.Incomplete? then s == State(buffer, false, false) else TakeHeader(buffer + t) == (r, s.Append(t))
  {
    hide ContentLength;
    match Find(buffer, HEADER_END)
    case None =>
      if Find(buffer + t, HEADER_END).Some? {
        var end := Find(buffer + t, HEADER_END).value;
        if end + |HEADER_END| <= |buffer| { AtAppend(buffer, t, HEADER_END, end); }
      }
    case Some(end) =>
      var body := end + |HEADER_END|;
      FindAppend(buffer, t, HEADER_END);
      assert (buffer + t)[..end] == buffer[..end];
      assert (buffer + t)[body..] == buffer[body..] + t;
      match ContentLength(buffer[..end])
      case None =>
      case Some(n) =>
        if |buffer| - body >= n {
          assert (buffer + t)[body..body + n] == buffer[body..body + n];
          assert (buffer + t)[body + n..] == buffer[body + n..] + t;
        }
  }

  /** What is taken does not depend on whether more has arrived; what is left is what arrived later. */
  lemma TakeAppend(s: State, t: string)
    requires HeadersFit(s.Append(t))
    ensures !s.skipping && !Take(s).1.skipping
    ensures var (r, s1) := Take(s);
      if r.Incomplete? then Take(s1.Append(t)) == Take(s.Append(t)) else Take(s.Append(t)) == (r, s1.Append(t))
  {
    AtHeaderAppend(s, t);
    TakeAtHeader(s);
    TakeAtHeader(s.Append(t));
    if AtHeader(s).Some? {
      TakeHeaderAppend(AtHeader(s).value, t);
    } else {
      TakeAtHeader(Take(s).1.Append(t));
    }
  }

  lemma {:induction false} DrainAppend(s: State, t: string)
    requires HeadersFit(s.Append(t))
    ensures var (first, s1) := Drain(s);
      var (rest, s2) := Drain(s1.Append(t));
      Drain(s.Append(t)) == (first + rest, s2)
    decreases |s.buffer|
  {
    hide Take;
    var (r, s1) := Take(s);
    TakeAppend(s, t);
    if !r.Incomplete? {
      DrainAppend(s1, t);
      var (first, s2) := Drain(s1);
      var (rest, s3) := Drain(s2.Append(t));
      assert [r] + (first + rest) == ([r] + first) + rest;
    } else {
      assert forall rest: seq<Framing> :: [] + rest == rest;
    }
  }

  lemma {:induction false} FitsAfter(s: State, t: string)
    requires HeadersFit(s.Append(t))
    ensures HeadersFit(Drain(s).1.Append(t))
    decreases |s.buffer|
  {
    hide Take;
    var (r, s1) := Take(s);
    TakeAppend(s, t);
    if r.Incomplete? {
      FitsSame(s, t);
    } else {
      FitsAfter(s1, t);
    }
  }

  lemma FitsSame(s: State, t: string)
    requires HeadersFit(s.Append(t)) && Take(s).0.Incomplete?
    ensures HeadersFit(Take(s).1.Append(t))
  {
    TakeAppend(s, t);
    AtHeaderAppend(s, t);
    TakeAtHeader(s);
    if AtHeader(s).Some? {
      TakeHeaderAppend(AtHeader(s).value, t);
    }
  }

  lemma {:induction false} FitsPrefix(s: State, t: string)
    requires HeadersFit(s.Append(t))
    ensures HeadersFit(s)
    decreases |s.buffer|
  {
    TakeAppend(s, t);
    AtHeaderAppend(s, t);
    if AtHeader(s).Some? { TakeHeaderAppend(AtHeader(s).value, t); }
    if !Take(s).0.Incomplete? { FitsPrefix(Take(s).1, t); }
  }

  /** However the input is divided, the same messages are taken and the same is left. */
  lemma {:induction false} ChunksDoNotMatter(s: State, chunks: seq<string>)
    requires HeadersFit(s.Append(Concat(chunks))) && Drain(s) == ([], s)
    ensures Feed(s, chunks) == Drain(s.Append(Concat(chunks)))
    decreases chunks
  {
    if chunks == [] {
      assert s.Append("") == s;
    } else {
      var (chunk, rest) := (chunks[0], Concat(chunks[1..]));
      var s1 := s.Append(chunk);
      assert s1.Append(rest) == s.Append(Concat(chunks)) by { assert s.buffer + (chunk + rest) == s.buffer + chunk + rest; }
      DrainAppend(s1, rest);
      FitsAfter(s1, rest);
      FitsPrefix(s1, rest);
      DrainedTwice(s1);
      ChunksDoNotMatter(Drain(s1).1, chunks[1..]);
    }
  }

  // ----- Reading again -----

  lemma FindInTail(s: string, pattern: string, n: nat)
    requires Find(s, pattern).None?
    ensures Find(Tail(s, n), pattern).None?
  {
    var t := Tail(s, n);
    TailIsEnd(s, n);
    forall j: nat ensures !IsAt(t, pattern, j) {
      AtDrop(s, pattern, |s| - |t|, j);
    }
  }

  /** Nothing is found in what an incomplete message leaves, and it stays the same. */
  lemma TakeAgain(s: State)
    requires Take(s).0.Incomplete?
    ensures Take(Take(s).1) == Take(s)
  {
    hide Find, LowerAll, ContentLength;
    if s.resynchronizing && Find(LowerAll(s.buffer), FIELD).None? {
      FindInTail(LowerAll(s.buffer), FIELD, |FIELD| - 1);
      LowerTail(s.buffer, |FIELD| - 1);
    } else {
      var buffer := if s.resynchronizing then s.buffer[Find(LowerAll(s.buffer), FIELD).value..] else s.buffer;
      if s.skipping && Find(buffer, HEADER_END).None? {
        FindInTail(buffer, HEADER_END, |HEADER_END| - 1);
      }
    }
  }

  /** What a session yields is what is taken, and what the session from there yields. */
  lemma SessionTakes(s: State, chunks: seq<string>)
    ensures var (all, (r, s1)) := (Session(s, chunks), Take(s));
      if r.Incomplete? then all == Feed(s1, chunks) && Take(s1) == (Incomplete, s1)
      else all == ([r] + Session(s1, chunks).0, Session(s1, chunks).1) && |s1.buffer| < |s.buffer|
  {
    hide Take;
    var (r, s1) := Take(s);
    if r.Incomplete? {
      TakeAgain(s);
      assert [] + Feed(s1, chunks).0 == Feed(s1, chunks).0;
    } else {
      var (rest, s2) := Drain(s1);
      assert [r] + rest + Feed(s2, chunks).0 == [r] + (rest + Feed(s2, chunks).0);
    }
  }

  lemma FeedNothing(s: State)
    ensures Feed(s, []) == ([], s)
  {
  }

  lemma FeedIsSession(s: State, chunk: string, chunks: seq<string>)
    ensures Feed(s, [chunk] + chunks) == Session(s.Append(chunk), chunks)
  {
    assert ([chunk] + chunks)[1..] == chunks;
  }

  /** From the start, reading is feeding. */
  lemma SessionFromEmpty(chunks: seq<string>)
    ensures Session(EMPTY, chunks) == Feed(EMPTY, chunks)
  {
    SessionTakes(EMPTY, chunks);
  }

  lemma DrainedTwice(s: State)
    requires HeadersFit(s)
    ensures Drain(Drain(s).1) == ([], Drain(s).1)
  {
    assert s.Append("") == s && Drain(s).1.Append("") == Drain(s).1;
    DrainAppend(s, "");
    var (first, s1) := Drain(s);
    var (rest, s2) := Drain(s1);
    assert |first| == |first + rest|;
  }

  // ----- What is written is read -----

  function Digit(d: nat): char
    requires d < 10
  {
    '0' + d as char
  }

  function Decimal(n: nat): string {
    if n < 10 then [Digit(n)] else Decimal(n / 10) + [Digit(n % 10)]
  }

  function Header(n: nat): string {
    "Content-Length: " + Decimal(n)
  }

  function Frame(content: string): string {
    Header(|content|) + HEADER_END + content
  }

  function Frames(contents: seq<string>): string {
    if contents == [] then "" else Frame(contents[0]) + Frames(contents[1..])
  }

  lemma {:induction false} DecimalNumber(n: nat)
    ensures Decimal(n) != "" && AllDigits(Decimal(n)) && Number(Decimal(n)) == n
  {
    if n >= 10 {
      DecimalNumber(n / 10);
      assert Decimal(n)[..|Decimal(n)| - 1] == Decimal(n / 10);
    } else {
      assert Decimal(n)[..0] == "";
    }
  }

  lemma {:induction false} DecimalShort(n: nat, digits: nat, bound: nat)
    requires n < bound && digits > 0 && (digits == 1 ==> bound == 10)
    requires digits > 1 ==> bound % 10 == 0 && forall m: nat :: m < bound / 10 ==> |Decimal(m)| <= digits - 1
    ensures |Decimal(n)| <= digits
  {
  }

  lemma DecimalOfSize(n: nat)
    requires n <= MAXIMUM_MESSAGE_SIZE
    ensures |Decimal(n)| <= 9
  {
    forall m: nat | m < 10 ensures |Decimal(m)| <= 1 { DecimalShort(m, 1, 10); }
    forall m: nat | m < 100 ensures |Decimal(m)| <= 2 { DecimalShort(m, 2, 100); }
    forall m: nat | m < 1000 ensures |Decimal(m)| <= 3 { DecimalShort(m, 3, 1000); }
    forall m: nat | m < 10000 ensures |Decimal(m)| <= 4 { DecimalShort(m, 4, 10000); }
    forall m: nat | m < 100000 ensures |Decimal(m)| <= 5 { DecimalShort(m, 5, 100000); }
    forall m: nat | m < 1000000 ensures |Decimal(m)| <= 6 { DecimalShort(m, 6, 1000000); }
    forall m: nat | m < 10000000 ensures |Decimal(m)| <= 7 { DecimalShort(m, 7, 10000000); }
    forall m: nat | m < 100000000 ensures |Decimal(m)| <= 8 { DecimalShort(m, 8, 100000000); }
    DecimalShort(n, 9, 1000000000);
  }

  /** Nothing is found before d. */
  lemma FindSkip(s: string, pattern: string, d: nat)
    requires d <= |s| && forall j: nat | j < d :: !IsAt(s, pattern, j)
    ensures Find(s, pattern) == Shift(Find(s[d..], pattern), d)
  {
    forall j: nat ensures IsAt(s, pattern, j) <==> j >= d && IsAt(s[d..], pattern, j - d) {
      if j >= d { AtDrop(s, pattern, d, j - d); }
    }
    FindUnique(s, s[d..], pattern, d);
  }

  /** Nothing is found in a text without the first character of the pattern. */
  lemma FindAfter(s: string, t: string, pattern: string)
    requires pattern != "" && pattern[0] !in s
    ensures Find(s + t, pattern) == Shift(Find(t, pattern), |s|)
  {
    forall j: nat | j < |s| ensures !IsAt(s + t, pattern, j) {
      assert (s + t)[j + 0] == s[j] != pattern[0];
    }
    assert (s + t)[|s|..] == t;
    FindSkip(s + t, pattern, |s|);
  }

  lemma FindNot(s: string, pattern: string)
    requires pattern != "" && pattern[0] !in s
    ensures Find(s, pattern).None?
  {
    FindAfter(s, "", pattern);
    assert s + "" == s;
  }

  lemma FindAtStart(pattern: string, rest: string)
    ensures Find(pattern + rest, pattern) == Some(0)
  {
    assert IsAt(pattern + rest, pattern, 0);
  }

  lemma HeaderValue(n: nat)
    ensures FieldValue(Header(n)) == Some(Decimal(n))
  {
    hide Decimal, LowerAll, TrimLeft, TrimRight;
    var line, d := Header(n), Decimal(n);
    DecimalNumber(n);
    LowerField();
    assert line[..|FIELD|] == "Content-Length:" && line[|FIELD|..] == " " + d;
    TrimDigits(d);
  }

  lemma LowerField()
    ensures LowerAll("Content-Length:") == FIELD
  {
    hide LowerAll;
    var name, low := "Content-Length:", LowerAll("Content-Length:");
    assert low[0] == 'c' && low[1] == 'o' && low[2] == 'n' && low[3] == 't' && low[4] == 'e';
    assert low[5] == 'n' && low[6] == 't' && low[7] == '-' && low[8] == 'l' && low[9] == 'e';
    assert low[10] == 'n' && low[11] == 'g' && low[12] == 't' && low[13] == 'h' && low[14] == ':';
  }

  lemma TrimDigits(d: string)
    requires d != "" && AllDigits(d)
    ensures TrimRight(TrimLeft(" " + d)) == d
  {
    assert (" " + d)[1..] == d && IsDigit(d[0]) && IsDigit(d[|d| - 1]);
  }

  lemma HeaderLength(n: nat)
    ensures ContentLength(Header(n)) == if n <= MAXIMUM_MESSAGE_SIZE then Some(n) else None
    ensures '\r' !in Header(n) && ValueOf(Header(n)) == [Decimal(n)]
  {
    hide Decimal, FieldValue;
    DecimalNumber(n);
    HeaderValue(n);
    forall c | c in Header(n) ensures c != '\r' {
      if c in Decimal(n) { assert IsDigit(c); }
    }
    FindNot(Header(n), LINE_END);
    assert Values(Header(n)) == [Decimal(n)];
  }

  lemma FindHeaderEnd(header: string, rest: string)
    requires '\r' !in header
    ensures Find(header + HEADER_END + rest, HEADER_END) == Some(|header|)
  {
    FindAfter(header, HEADER_END + rest, HEADER_END);
    FindAtStart(HEADER_END, rest);
    assert header + HEADER_END + rest == header + (HEADER_END + rest);
  }

  /** A framed message is taken exactly if it is not too long. */
  lemma TakeFrame(content: string, rest: string)
    ensures Take(State(Frame(content) + rest, false, false)) ==
            if |content| <= MAXIMUM_MESSAGE_SIZE then (Complete(content), State(rest, false, false))
            else (Invalid, State(content + rest, false, true))
    ensures |content| <= MAXIMUM_MESSAGE_SIZE ==> HeaderFits(Frame(content) + rest)
  {
    hide Header, ContentLength, Find, HeaderFits, TakeHeader;
    var header, tail := Header(|content|), content + rest;
    HeaderLength(|content|);
    assert Frame(content) + rest == header + HEADER_END + tail;
    TakeWithHeader(header, content, rest);
    if |content| <= MAXIMUM_MESSAGE_SIZE {
      DecimalOfSize(|content|);
      HeaderIsShort(|content|);
    }
  }

  lemma HeaderIsShort(n: nat)
    requires |Decimal(n)| <= 9
    ensures |Header(n)| <= 25
  {
  }

  lemma TakeWithHeader(header: string, content: string, rest: string)
    requires '\r' !in header
    requires ContentLength(header) == if |content| <= MAXIMUM_MESSAGE_SIZE then Some(|content|) else None
    ensures var buffer := header + HEADER_END + (content + rest);
      && TakeHeader(buffer) == (if |content| <= MAXIMUM_MESSAGE_SIZE then (Complete(content), State(rest, false, false))
                                else (Invalid, State(content + rest, false, true)))
      && (HeaderFits(buffer) <==> |header| + 3 <= MAXIMUM_HEADER_SIZE)
  {
    hide ContentLength;
    var buffer, body := header + HEADER_END + (content + rest), |header| + 4;
    FindHeaderEnd(header, content + rest);
    assert buffer[..|header|] == header && buffer[body..] == content + rest;
    assert buffer[body..body + |content|] == content && buffer[body + |content|..] == rest;
  }

  function Completed(contents: seq<string>): seq<Framing> {
    if contents == [] then [] else [Complete(contents[0])] + Completed(contents[1..])
  }

  lemma {:induction false} DrainFrames(contents: seq<string>)
    requires forall c | c in contents :: |c| <= MAXIMUM_MESSAGE_SIZE
    ensures Drain(State(Frames(contents), false, false)) == (Completed(contents), EMPTY)
    ensures HeadersFit(State(Frames(contents), false, false))
  {
    if contents != [] {
      TakeFrame(contents[0], Frames(contents[1..]));
      DrainFrames(contents[1..]);
    }
  }

  /** Framed messages come out as they were, in order, in whatever chunks they arrive. */
  lemma RoundTrip(contents: seq<string>, chunks: seq<string>)
    requires forall c | c in contents :: |c| <= MAXIMUM_MESSAGE_SIZE
    requires Concat(chunks) == Frames(contents)
    ensures Feed(EMPTY, chunks) == (Completed(contents), EMPTY)
  {
    DrainFrames(contents);
    assert EMPTY.Append(Concat(chunks)) == State(Frames(contents), false, false);
    ChunksDoNotMatter(EMPTY, chunks);
  }

  /** A header that announces a message of this length, whatever its fields are. */
  predicate Announces(header: string, length: nat) {
    Find(header + HEADER_END, HEADER_END) == Some(|header|) && ContentLength(header) == Some(length)
  }

  /** The chunks of a message come out as the message. */
  ghost predicate ComesOut(chunks: seq<string>, content: string) {
    Feed(EMPTY, chunks) == ([Complete(content)], EMPTY)
  }

  /** A message comes out of all divisions into chunks exactly if its header fits. */
  lemma FitsExactly(header: string, content: string)
    requires Announces(header, |content|)
    ensures (forall chunks | Concat(chunks) == header + HEADER_END + content :: ComesOut(chunks, content)) <==>
            |header| + 3 <= MAXIMUM_HEADER_SIZE
  {
    hide Feed, Announces, Concat, HeadersFit, Drain;
    if |header| + 3 <= MAXIMUM_HEADER_SIZE {
      MessageFits(header, content);
      DrainEmpty();
      forall chunks | Concat(chunks) == header + HEADER_END + content ensures ComesOut(chunks, content) {
        assert EMPTY.Append(Concat(chunks)) == State(header + HEADER_END + content, false, false);
        ChunksDoNotMatter(EMPTY, chunks);
      }
    } else {
      var chunks := LateEnd(header, content);
      assert Feed(EMPTY, chunks).0[0] == Invalid;
      assert !ComesOut(chunks, content);
    }
  }

  lemma MessageFits(header: string, content: string)
    requires Announces(header, |content|) && |header| + 3 <= MAXIMUM_HEADER_SIZE
    ensures var s := State(header + HEADER_END + content, false, false);
      HeadersFit(s) && Drain(s) == ([Complete(content)], EMPTY)
  {
    hide ContentLength, Find;
    var buffer, body := header + HEADER_END + content, |header| + |HEADER_END|;
    FindAppend(header + HEADER_END, content, HEADER_END);
    assert buffer[..|header|] == header && buffer[body..body + |content|] == content && buffer[body + |content|..] == "";
    DrainEmpty();
    assert Take(State(buffer, false, false)) == TakeHeader(buffer) == (Complete(content), EMPTY);
    assert Drain(State(buffer, false, false)) == ([Complete(content)] + Drain(EMPTY).0, EMPTY);
    assert [Complete(content)] + [] == [Complete(content)];
  }

  lemma DrainEmpty()
    ensures Drain(EMPTY) == ([], EMPTY) && HeadersFit(EMPTY)
  {
  }

  /** The end of a header that does not fit arrives too late: it is invalid by then. */
  lemma LateEnd(header: string, content: string) returns (chunks: seq<string>)
    requires Announces(header, |content|) && |header| + 3 > MAXIMUM_HEADER_SIZE
    ensures Concat(chunks) == header + HEADER_END + content && [Invalid] <= Feed(EMPTY, chunks).0
  {
    hide ContentLength, Find;
    var first := header + "\r\n\r";
    var s := EMPTY.Append(first);
    chunks := [first, "\n" + content];
    assert first + "\n" == header + HEADER_END && s.buffer == first;
    if Find(first, HEADER_END).Some? { FindAppend(first, "\n", HEADER_END); }
    assert Take(s).0 == Invalid && Drain(s).0[0] == Invalid;
    assert chunks[1..] == ["\n" + content] && Concat(chunks[1..]) == "\n" + content + Concat([]);
    assert first + ("\n" + content) == header + HEADER_END + content;
    assert Feed(EMPTY, chunks).0[0] == Drain(s).0[0];
  }

  /** A header that does not announce a message, whatever its fields are. */
  predicate Refused(header: string) {
    Find(header + HEADER_END, HEADER_END) == Some(|header|) && ContentLength(header).None?
  }

  /** What is taken of a stream that begins with a refused header. */
  function AfterRefused(rest: string): (seq<Framing>, State) {
    ([Invalid] + Drain(State(rest, false, true)).0, Drain(State(rest, false, true)).1)
  }

  /** A refused header that fits gives the same in all divisions into chunks; one that does not fit
      exactly if what follows does not depend on whether the transport looks for a field in it. */
  lemma RefusedExactly(header: string, rest: string)
    requires Refused(header)
    requires HeadersFit(State(rest, false, false)) && HeadersFit(State(rest, false, true))
    ensures Drain(State(header + HEADER_END + rest, false, false)) == AfterRefused(rest)
    ensures (forall chunks | Concat(chunks) == header + HEADER_END + rest :: Feed(EMPTY, chunks) == AfterRefused(rest)) <==>
            |header| + 3 <= MAXIMUM_HEADER_SIZE || Drain(State(rest, false, false)) == Drain(State(rest, false, true))
  {
    hide Feed, Refused, Concat, HeadersFit, Drain;
    DrainRefused(header, rest);
    if |header| + 3 <= MAXIMUM_HEADER_SIZE || Drain(State(rest, false, false)) == Drain(State(rest, false, true)) {
      forall chunks | Concat(chunks) == header + HEADER_END + rest ensures Feed(EMPTY, chunks) == AfterRefused(rest) {
        assert "" + Concat(chunks) == Concat(chunks);
        FeedRefused(header, rest, "", chunks);
      }
    } else {
      var chunks := LateRefused(header, rest);
      assert Feed(EMPTY, chunks).0[1..] == Drain(State(rest, false, false)).0;
      assert AfterRefused(rest).0[1..] == Drain(State(rest, false, true)).0;
    }
  }

  lemma DrainRefused(header: string, rest: string)
    requires Refused(header)
    ensures Drain(State(header + HEADER_END + rest, false, false)) == AfterRefused(rest)
  {
    hide ContentLength, Find;
    var buffer := header + HEADER_END + rest;
    FindAppend(header + HEADER_END, rest, HEADER_END);
    assert buffer[..|header|] == header && buffer[|header| + |HEADER_END|..] == rest;
    assert Take(State(buffer, false, false)) == TakeHeader(buffer) == (Invalid, State(rest, false, true));
  }

  /** The end of the header is not in what comes before it. */
  lemma NotYet(header: string, seen: string)
    requires Refused(header) && seen <= header + HEADER_END && |seen| < |header| + |HEADER_END|
    ensures Find(seen, HEADER_END).None?
  {
    hide ContentLength, Find;
    var later := (header + HEADER_END)[|seen|..];
    assert seen + later == header + HEADER_END;
    if Find(seen, HEADER_END).Some? { FindAppend(seen, later, HEADER_END); }
  }

  /** Skipping goes on behind the end of the header. */
  lemma SkipRefused(header: string, seen: string, more: string, rest: string)
    requires Refused(header) && seen <= header + HEADER_END && |seen| < |header| + |HEADER_END|
    requires seen + more == header + HEADER_END + rest
    ensures Drain(State(Tail(seen, 3) + more, true, false)) == Drain(State(rest, false, false))
  {
    hide ContentLength, Find, Tail, TakeHeader;
    var keep := Tail(seen, 3);
    TailIsEnd(seen, 3);
    NotYet(header, seen);
    FindTail(seen, more, HEADER_END);
    FindAppend(header + HEADER_END, rest, HEADER_END);
    var d := |seen| - |keep|;
    assert (seen + more)[d..] == keep + more;
    assert (keep + more)[|header| - d + |HEADER_END|..] == (seen + more)[|header| + |HEADER_END|..] == rest;
    assert Take(State(keep + more, true, false)) == TakeHeader(rest) == Take(State(rest, false, false));
  }

  /** Nothing is taken while the end of the header is skipped for. */
  lemma SkipMore(header: string, seen: string, more: string)
    requires Refused(header) && seen + more <= header + HEADER_END && |seen + more| < |header| + |HEADER_END|
    ensures Drain(State(Tail(seen, 3) + more, true, false)) == ([], State(Tail(seen + more, 3), true, false))
  {
    hide ContentLength, Find;
    assert seen <= header + HEADER_END;
    NotYet(header, seen);
    NotYet(header, seen + more);
    FindTail(seen, more, HEADER_END);
    TailAppend(seen, more, 3);
  }

  /** What follows a skipped header is read as if nothing had been in front of it. */
  lemma {:induction false} FeedSkipping(header: string, rest: string, seen: string, chunks: seq<string>)
    requires Refused(header) && HeadersFit(State(rest, false, false))
    requires seen + Concat(chunks) == header + HEADER_END + rest && |seen| < |header| + |HEADER_END|
    ensures Feed(State(Tail(seen, 3), true, false), chunks) == Drain(State(rest, false, false))
    decreases chunks
  {
    hide Refused, HeadersFit, Drain, Tail;
    assert chunks != [];
    var s := State(Tail(seen, 3), true, false);
    var later := NextPart(header, rest, seen, chunks);
    if |seen + chunks[0]| < |header| + |HEADER_END| {
      SkipMore(header, seen, chunks[0]);
      FeedSkipping(header, rest, seen + chunks[0], chunks[1..]);
      assert [] + Drain(State(rest, false, false)).0 == Drain(State(rest, false, false)).0;
    } else {
      SkipRefused(header, seen, chunks[0], later);
      SessionFits(State(later, false, false), chunks[1..]);
    }
  }

  /** A chunk belongs to the header or ends it. */
  lemma NextPart(header: string, rest: string, seen: string, chunks: seq<string>) returns (later: string)
    requires chunks != []
    requires seen + Concat(chunks) == header + HEADER_END + rest && |seen| < |header| + |HEADER_END|
    ensures seen <= header + HEADER_END && seen + chunks[0] + Concat(chunks[1..]) == header + HEADER_END + rest
    ensures |seen + chunks[0]| < |header| + |HEADER_END| ==> seen + chunks[0] <= header + HEADER_END
    ensures |seen + chunks[0]| >= |header| + |HEADER_END| ==>
              seen + chunks[0] == header + HEADER_END + later && later + Concat(chunks[1..]) == rest
  {
    var (head, more) := (header + HEADER_END, Concat(chunks[1..]));
    assert Concat(chunks) == chunks[0] + more;
    hide Concat;
    assert seen + (chunks[0] + more) == seen + chunks[0] + more;
    Divided(seen, chunks[0] + more, head, rest);
    Divided(seen + chunks[0], more, head, rest);
    later := if |seen + chunks[0]| < |head| then "" else (seen + chunks[0])[|head|..];
  }

  lemma Divided(now: string, more: string, head: string, rest: string)
    requires now + more == head + rest
    ensures |now| < |head| ==> now <= head
    ensures |now| >= |head| ==> now == head + now[|head|..] && now[|head|..] + more == rest
  {
    if |now| < |head| {
      assert now == (head + rest)[..|now|] == head[..|now|];
    } else {
      assert head == (now + more)[..|head|] == now[..|head|];
      assert rest == (now + more)[|head|..];
    }
  }

  /** Reading from any state in which the headers fit. */
  lemma SessionFits(s: State, chunks: seq<string>)
    requires HeadersFit(s.Append(Concat(chunks)))
    ensures Session(s, chunks) == Drain(s.Append(Concat(chunks)))
  {
    hide HeadersFit, Drain, Feed;
    var rest := Concat(chunks);
    DrainAppend(s, rest);
    FitsAfter(s, rest);
    FitsPrefix(s, rest);
    DrainedTwice(s);
    ChunksDoNotMatter(Drain(s).1, chunks);
  }

  lemma {:induction false} FeedRefused(header: string, rest: string, seen: string, chunks: seq<string>)
    requires Refused(header)
    requires HeadersFit(State(rest, false, false)) && HeadersFit(State(rest, false, true))
    requires |header| + 3 <= MAXIMUM_HEADER_SIZE || Drain(State(rest, false, false)) == Drain(State(rest, false, true))
    requires seen + Concat(chunks) == header + HEADER_END + rest && |seen| < |header| + |HEADER_END|
    requires |seen| <= MAXIMUM_HEADER_SIZE
    ensures Feed(State(seen, false, false), chunks) == AfterRefused(rest)
    decreases chunks
  {
    hide Refused, HeadersFit, Drain, Tail;
    assert chunks != [];
    var now := seen + chunks[0];
    var later := NextPart(header, rest, seen, chunks);
    if |now| >= |header| + |HEADER_END| {
      DrainRefused(header, later);
      SessionFits(State(later, false, true), chunks[1..]);
      JoinThree([Invalid], Drain(State(later, false, true)).0, Feed(Drain(State(later, false, true)).1, chunks[1..]).0);
    } else if |now| <= MAXIMUM_HEADER_SIZE {
      DrainBegun(header, now);
      FeedRefused(header, rest, now, chunks[1..]);
      assert [] + AfterRefused(rest).0 == AfterRefused(rest).0;
    } else {
      DrainTooLong(header, now);
      FeedSkipping(header, rest, now, chunks[1..]);
    }
  }

  lemma JoinThree(a: seq<Framing>, b: seq<Framing>, c: seq<Framing>)
    ensures (a + b) + c == a + (b + c)
  {
  }

  /** Nothing is taken while a header can still fit, and it is refused as soon as it cannot. */
  lemma DrainBegun(header: string, seen: string)
    requires Refused(header) && seen <= header + HEADER_END && |seen| < |header| + |HEADER_END|
    requires |seen| <= MAXIMUM_HEADER_SIZE
    ensures Drain(State(seen, false, false)) == ([], State(seen, false, false))
  {
    hide ContentLength, Find;
    NotYet(header, seen);
  }

  lemma DrainTooLong(header: string, seen: string)
    requires Refused(header) && seen <= header + HEADER_END && |seen| < |header| + |HEADER_END|
    requires |seen| > MAXIMUM_HEADER_SIZE
    ensures Drain(State(seen, false, false)) == ([Invalid], State(Tail(seen, 3), true, false))
  {
    hide ContentLength, Find;
    NotYet(header, seen);
    assert Take(State(seen, false, false)) == (Invalid, State(Tail(seen, 3), true, false));
    SkipMore(header, seen, "");
    assert seen + "" == seen && Tail(seen, 3) + "" == Tail(seen, 3);
    assert [Invalid] + [] == [Invalid];
  }

  /** The end of a refused header that does not fit arrives too late: it is skipped by then. */
  lemma LateRefused(header: string, rest: string) returns (chunks: seq<string>)
    requires Refused(header) && HeadersFit(State(rest, false, false)) && |header| + 3 > MAXIMUM_HEADER_SIZE
    ensures Concat(chunks) == header + HEADER_END + rest
    ensures Feed(EMPTY, chunks) == ([Invalid] + Drain(State(rest, false, false)).0, Drain(State(rest, false, false)).1)
  {
    hide Refused, HeadersFit, Drain, Tail;
    var first := header + "\r\n\r";
    chunks := [first, "\n" + rest];
    assert first + "\n" == header + HEADER_END;
    assert chunks[1..] == ["\n" + rest] && Concat(chunks[1..]) == "\n" + rest + Concat([]) == "\n" + rest;
    assert first + ("\n" + rest) == header + HEADER_END + rest;
    assert EMPTY.Append(first) == State(first, false, false);
    DrainTooLong(header, first);
    FeedSkipping(header, rest, first, chunks[1..]);
  }

  /** There are headers that do not fit: any other field can be that long. */
  lemma LongHeader(filling: string)
    requires filling != "" && '\r' !in filling && FieldValue(filling).None?
    ensures var header := Header(0) + LINE_END + filling;
      Announces(header, 0)
  {
    hide FieldValue, Find, ContentLength, Header, IsAt;
    var first := Header(0);
    var header := first + LINE_END + filling;
    HeaderLength(0);
    LongHeaderLength(filling);
    EndAfterFilling(first, filling, HEADER_END);
    FindAfter(filling, HEADER_END, HEADER_END);
    FindAtStart(HEADER_END, "");
    assert HEADER_END + "" == HEADER_END;
  }

  lemma EndAfterFilling(first: string, filling: string, rest: string)
    requires filling != "" && '\r' !in filling && '\r' !in first
    ensures Find(first + LINE_END + filling + rest, HEADER_END) == Shift(Find(filling + rest, HEADER_END), |first| + 2)
  {
    hide Find;
    EndAfterLine(filling, rest);
    FindAfter(first, LINE_END + filling + rest, HEADER_END);
    assert first + LINE_END + filling + rest == first + (LINE_END + filling + rest);
  }

  lemma LongHeaderLength(filling: string)
    requires filling != "" && '\r' !in filling && FieldValue(filling).None?
    ensures ContentLength(Header(0) + LINE_END + filling) == Some(0)
  {
    hide Decimal, FieldValue, Length, Find, Header;
    var first, last := Header(0), LINE_END + filling;
    var header := first + LINE_END + filling;
    HeaderLength(0);
    assert header == first + last;
    FindAfter(first, last, LINE_END);
    FindAtStart(LINE_END, filling);
    assert header[..|first|] == first && header[|first| + 2..] == filling;
    FindNot(filling, LINE_END);
    FindNot(first, LINE_END);
    assert Values(header) == ValueOf(first) + Values(filling) == [Decimal(0)];
    assert Values(first) == [Decimal(0)];
  }

  lemma EndAfterLine(filling: string, rest: string)
    requires filling != "" && '\r' !in filling
    ensures Find(LINE_END + filling + rest, HEADER_END) == Shift(Find(filling + rest, HEADER_END), 2)
  {
    var s := LINE_END + filling + rest;
    assert filling[0] in filling && s[2] == filling[0];
    assert s[0 + 2] == filling[0] != HEADER_END[2] && s[1 + 0] == '\n' != HEADER_END[0];
    assert !IsAt(s, HEADER_END, 0) && !IsAt(s, HEADER_END, 1);
    assert s[2..] == filling + rest;
    FindSkip(s, HEADER_END, 2);
  }

  // ----- Headers as other programs write them -----

  function Capital(c: char): char {
    if 'a' <= c <= 'z' then c - 'a' + 'A' else c
  }

  /** The name of the field with any of its letters capital. */
  predicate NamesField(line: string) {
    |line| >= |FIELD| && forall k | 0 <= k < |FIELD| :: line[k] == FIELD[k] || line[k] == Capital(FIELD[k])
  }

  lemma FieldCharacter(k: nat)
    requires k < |FIELD|
    ensures !('A' <= FIELD[k] <= 'Z') && FIELD[k] != '\r' && Capital(FIELD[k]) != '\r'
  {
    if k == 0 {} else if k == 1 {} else if k == 2 {} else if k == 3 {} else if k == 4 {} else if k == 5 {} else if k == 6 {}
    else if k == 7 {} else if k == 8 {} else if k == 9 {} else if k == 10 {} else if k == 11 {} else if k == 12 {} else {}
  }

  /** A line is the field exactly if it begins with the name of the field, in whatever case. */
  lemma FieldInAnyCase(line: string)
    ensures FieldValue(line).Some? <==> NamesField(line)
  {
    if |line| >= |FIELD| {
      var name := line[..|FIELD|];
      forall k | 0 <= k < |FIELD| ensures LowerAll(name)[k] == FIELD[k] <==> line[k] == FIELD[k] || line[k] == Capital(FIELD[k]) {
        FieldCharacter(k);
      }
      assert LowerAll(name) == FIELD <==> forall k | 0 <= k < |FIELD| :: LowerAll(name)[k] == FIELD[k];
    }
  }

  predicate AllBlank(s: string) {
    forall k | 0 <= k < |s| :: s[k] in " \t"
  }

  lemma {:induction false} TrimBefore(blanks: string, s: string)
    requires AllBlank(blanks) && (s == "" || s[0] !in " \t")
    ensures TrimLeft(blanks + s) == s
  {
    if blanks != "" {
      TrimBefore(blanks[1..], s);
      assert (blanks + s)[1..] == blanks[1..] + s;
    } else {
      assert blanks + s == s;
    }
  }

  lemma {:induction false} TrimAfter(s: string, blanks: string)
    requires AllBlank(blanks) && (s == "" || s[|s| - 1] !in " \t")
    ensures TrimRight(s + blanks) == s
  {
    if blanks != "" {
      var n := |blanks| - 1;
      TrimAfter(s, blanks[..n]);
      assert (s + blanks)[..|s + blanks| - 1] == s + blanks[..n];
    } else {
      assert s + blanks == s;
    }
  }

  /** Blanks around the length make no difference, and neither does the case of the name. */
  lemma LengthOfLine(name: string, before: string, n: nat, after: string)
    requires |name| == |FIELD| && NamesField(name) && AllBlank(before) && AllBlank(after)
    ensures FieldValue(name + before + Decimal(n) + after) == Some(Decimal(n))
    ensures Length(Decimal(n)) == if n <= MAXIMUM_MESSAGE_SIZE then Some(n) else None
  {
    hide Decimal, LowerAll, TrimLeft, TrimRight;
    var (d, line) := (Decimal(n), name + before + Decimal(n) + after);
    DecimalNumber(n);
    FieldInAnyCase(line);
    assert line[|FIELD|..] == before + (d + after);
    assert IsDigit(d[0]) && IsDigit(d[|d| - 1]) && (d + after)[0] == d[0];
    TrimBefore(before, d + after);
    TrimAfter(d, after);
  }

  function Joined(lines: seq<string>): string
    requires lines != []
  {
    if |lines| == 1 then lines[0] else lines[0] + LINE_END + Joined(lines[1..])
  }

  function AllValues(lines: seq<string>): seq<string> {
    if lines == [] then [] else ValueOf(lines[0]) + AllValues(lines[1..])
  }

  predicate AreLines(lines: seq<string>) {
    forall line | line in lines :: '\r' !in line
  }

  lemma {:induction false} ValuesOfLines(lines: seq<string>)
    requires lines != [] && AreLines(lines)
    ensures Values(Joined(lines)) == AllValues(lines)
    decreases lines
  {
    hide Find, FieldValue, ValueOf;
    var line := lines[0];
    if |lines| == 1 {
      FindNot(line, LINE_END);
      assert lines[1..] == [] && ValueOf(line) + [] == ValueOf(line);
    } else {
      var rest := Joined(lines[1..]);
      var header := line + LINE_END + rest;
      FindAfter(line, LINE_END + rest, LINE_END);
      FindAtStart(LINE_END, rest);
      assert header == line + (LINE_END + rest) && header[..|line|] == line && header[|line| + 2..] == rest;
      assert AreLines(lines[1..]);
      ValuesOfLines(lines[1..]);
    }
  }

  lemma {:induction false} ValuesBetween(before: seq<string>, after: seq<string>)
    ensures AllValues(before + after) == AllValues(before) + AllValues(after)
  {
    hide ValueOf;
    if before != [] {
      ValuesBetween(before[1..], after);
      assert (before + after)[1..] == before[1..] + after;
    } else {
      assert before + after == after;
    }
  }

  lemma {:induction false} OtherFields(lines: seq<string>)
    requires forall line | line in lines :: !NamesField(line)
    ensures AllValues(lines) == []
  {
    hide FieldValue;
    if lines != [] {
      FieldInAnyCase(lines[0]);
      OtherFields(lines[1..]);
    }
  }

  /** Of lines of which only one is the field, the value is found. */
  lemma ValueAmongLines(above: seq<string>, line: string, below: seq<string>)
    requires forall other | other in above :: '\r' !in other && !NamesField(other)
    requires forall other | other in below :: '\r' !in other && !NamesField(other)
    requires '\r' !in line && FieldValue(line).Some?
    ensures Values(Joined(above + [line] + below)) == [FieldValue(line).value]
  {
    hide FieldValue, NamesField, Joined;
    var lines := above + [line] + below;
    assert lines == above + ([line] + below);
    ValuesOfLines(lines);
    OtherFields(above);
    OtherFields(below);
    ValuesBetween(above, [line] + below);
    ValuesBetween([line], below);
    assert AllValues([line]) == ValueOf(line) + AllValues([line][1..]);
  }

  /** The length is found among other fields, wherever it is and however it is written. */
  lemma LengthAmongLines(above: seq<string>, name: string, before: string, n: nat, after: string, below: seq<string>)
    requires |name| == |FIELD| && NamesField(name) && AllBlank(before) && AllBlank(after)
    requires forall line | line in above :: '\r' !in line && !NamesField(line)
    requires forall line | line in below :: '\r' !in line && !NamesField(line)
    ensures ContentLength(Joined(above + [name + before + Decimal(n) + after] + below)) ==
            if n <= MAXIMUM_MESSAGE_SIZE then Some(n) else None
  {
    hide Decimal, FieldValue, NamesField, Joined, Values, Length, AllBlank;
    LengthOfLine(name, before, n, after);
    LineHasNoBreak(name, before, n, after);
    ValueAmongLines(above, name + before + Decimal(n) + after, below);
  }

  lemma LineHasNoBreak(name: string, before: string, n: nat, after: string)
    requires |name| == |FIELD| && NamesField(name) && AllBlank(before) && AllBlank(after)
    ensures '\r' !in name + before + Decimal(n) + after
  {
    hide Decimal;
    DecimalNumber(n);
    NameHasNoBreak(name);
    forall c | c in Decimal(n) ensures c != '\r' {
      assert IsDigit(c);
    }
  }

  lemma NameHasNoBreak(name: string)
    requires |name| == |FIELD| && NamesField(name)
    ensures '\r' !in name
  {
    forall k | 0 <= k < |name| ensures name[k] != '\r' {
      FieldCharacter(k);
    }
  }

  /** Where the field is. */
  function FieldLines(lines: seq<string>): set<nat> {
    set k: nat | k < |lines| && NamesField(lines[k])
  }

  lemma FieldInLast(lines: seq<string>, line: string)
    ensures |AllValues(lines + [line])| == |AllValues(lines)| + if NamesField(line) then 1 else 0
    ensures |FieldLines(lines + [line])| == |FieldLines(lines)| + if NamesField(line) then 1 else 0
  {
    hide FieldValue, NamesField;
    ValuesBetween(lines, [line]);
    FieldInAnyCase(line);
    assert AllValues([line]) == ValueOf(line) + AllValues([line][1..]);
    var more := lines + [line];
    assert forall k: nat | k < |lines| :: more[k] == lines[k];
    assert FieldLines(more) == FieldLines(lines) + if NamesField(line) then {|lines|} else {};
  }

  lemma {:induction false} ValuesAreCounted(lines: seq<string>)
    ensures |AllValues(lines)| == |FieldLines(lines)|
  {
    hide AllValues, FieldLines;
    if lines != [] {
      var n := |lines| - 1;
      ValuesAreCounted(lines[..n]);
      FieldInLast(lines[..n], lines[n]);
      assert lines == lines[..n] + [lines[n]];
    } else {
      NoFields();
    }
  }

  lemma NoFields()
    ensures |AllValues([])| == |FieldLines([])| == 0
  {
    assert FieldLines([]) == {};
  }

  /** A header without the field is refused, and so is one that has it more than once. */
  lemma OnlyOneField(lines: seq<string>)
    requires lines != [] && AreLines(lines) && ContentLength(Joined(lines)).Some?
    ensures |FieldLines(lines)| == 1
  {
    hide Values, AllValues, Joined, FieldLines;
    ValuesOfLines(lines);
    ValuesAreCounted(lines);
  }

  function Zeros(k: nat): string {
    seq(k, i => '0')
  }

  /** Only decimal numbers are lengths, with any number of zeros in front. */
  lemma {:induction false} DigitsAreDecimal(value: string) returns (k: nat)
    requires value != "" && AllDigits(value)
    ensures value == Zeros(k) + Decimal(Number(value))
  {
    var n := |value| - 1;
    var (rest, last) := (value[..n], (value[n] - '0') as nat);
    assert value == rest + [value[n]] && [Digit(last)] == [value[n]];
    k := 0;
    if rest == "" {
      assert Number(rest) == 0 && Number(value) == last;
    } else {
      k := DigitsAreDecimal(rest);
      if Number(rest) == 0 {
        assert Decimal(0) == "0" && rest == Zeros(k) + "0" == Zeros(k + 1);
        k := k + 1;
      } else {
        assert Number(value) / 10 == Number(rest) && Number(value) % 10 == last;
        assert Decimal(Number(value)) == Decimal(Number(rest)) + [Digit(last)];
      }
    }
  }

  lemma {:induction false} ZerosInFront(k: nat, digits: string)
    requires AllDigits(digits)
    ensures AllDigits(Zeros(k) + digits) && Number(Zeros(k) + digits) == Number(digits)
    decreases |digits|, k
  {
    var all := Zeros(k) + digits;
    if digits != "" {
      var n := |digits| - 1;
      ZerosInFront(k, digits[..n]);
      assert all[..|all| - 1] == Zeros(k) + digits[..n];
    } else if k > 0 {
      ZerosInFront(k - 1, "");
      assert all[..|all| - 1] == Zeros(k - 1) + "";
      assert Zeros(k) + digits == Zeros(k);
    } else {
      assert all == digits;
    }
  }

  /** A value is a length exactly if it is the decimal number, with any number of zeros in front, and not too large. */
  lemma LengthExactly(value: string, n: nat)
    ensures Length(value) == Some(n) <==> n <= MAXIMUM_MESSAGE_SIZE && exists k :: value == Zeros(k) + Decimal(n)
  {
    hide Decimal, Number, Zeros;
    DecimalNumber(n);
    if Length(value) == Some(n) {
      var k := DigitsAreDecimal(value);
    }
    if k :| value == Zeros(k) + Decimal(n) {
      ZerosInFront(k, Decimal(n));
    }
  }

  // ----- After an error -----

  /** Behind a refused header and whatever belongs to it, up to the next field, messages are read again. */
  lemma RecoversAfterRefused(header: string, body: string, contents: seq<string>)
    requires Refused(header) && contents != [] && forall c | c in contents :: |c| <= MAXIMUM_MESSAGE_SIZE
    requires Find(LowerAll(body) + FIELD, FIELD) == Some(|body|)
    ensures Drain(State(header + HEADER_END + (body + Frames(contents)), false, false)) ==
            ([Invalid] + Completed(contents), EMPTY)
  {
    hide Refused, Find, LowerAll, Drain, Frames, Completed;
    DrainRefused(header, body + Frames(contents));
    DrainFrames(contents);
    FieldInFrames(contents);
    FieldBehind(body, Frames(contents));
    TakesAtField(body, Frames(contents));
  }

  lemma FieldBehind(body: string, text: string)
    requires Find(LowerAll(body) + FIELD, FIELD) == Some(|body|) && FIELD <= LowerAll(text)
    ensures Find(LowerAll(body + text), FIELD) == Some(|body|)
  {
    hide Find, LowerAll;
    var (front, low) := (LowerAll(body), LowerAll(text));
    FindAppend(front + FIELD, low[|FIELD|..], FIELD);
    LowerAppend(body, text);
    assert low == FIELD + low[|FIELD|..];
    assert front + FIELD + low[|FIELD|..] == front + low;
  }

  lemma FieldInFrames(contents: seq<string>)
    requires contents != []
    ensures FIELD <= LowerAll(Frames(contents))
  {
    hide LowerAll;
    var text := Frames(contents);
    var name := "Content-Length:";
    LowerField();
    assert text == name + text[|name|..];
    LowerAppend(name, text[|name|..]);
  }

  lemma TakesAtField(body: string, text: string)
    requires Find(LowerAll(body + text), FIELD) == Some(|body|)
    ensures Drain(State(body + text, false, true)) == Drain(State(text, false, false))
  {
    hide Find, LowerAll, TakeHeader;
    assert (body + text)[|body|..] == text;
    assert Take(State(body + text, false, true)) == TakeHeader(text) == Take(State(text, false, false));
  }
}
