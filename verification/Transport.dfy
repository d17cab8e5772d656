/** The transport as the object that buffers input. Its method is proved to do what Framing says. */
module Transport {
  import opened Wrappers
  import opened Framing
  import opened FramingProofs

  datatype ReadResult = Message(framing: Framing) | NoMessage | EndOfInput

  class Transport {
    var buffer: string
    var skippingHeader: bool
    var resynchronizing: bool

    function Current(): State
      reads this
    {
      State(buffer, skippingHeader, resynchronizing)
    }

    constructor ()
      ensures Current() == EMPTY
    {
      buffer, skippingHeader, resynchronizing := "", false, false;
    }

    method Receive(chunk: string)
      modifies this
      ensures Current() == old(Current()).Append(chunk)
    {
      buffer := buffer + chunk;
    }

    /**
     Waits for the next message. The messages that are read one after the other are those that are
     taken from the chunks as they arrive, also after timeouts and interruptions.
     */
    method Read(arrivals: seq<Arrival>) returns (result: ReadResult, left: seq<Arrival>)
      modifies this
      ensures var (all, rest) := (Session(old(Current()), Received(arrivals)), Session(Current(), Received(left)));
        match result
        case Message(framing) => !framing.Incomplete? && all == ([framing] + rest.0, rest.1)
        case NoMessage => all == rest && Take(Current()) == (Incomplete, Current())
        case EndOfInput => all == ([], Current())
      ensures |left| < |arrivals| || (left == arrivals && (result.Message? ==> |buffer| < |old(buffer)|))
      ensures result.NoMessage? ==> |left| < |arrivals|
    {
      hide Take, Session, Feed;
      left := arrivals;
      SessionTakes(Current(), Received(left));
      var framing := TakeMessage();
      while framing.Incomplete?
        invariant |left| < |arrivals| || (left == arrivals && (!framing.Incomplete? ==> |buffer| < |old(buffer)|))
        invariant var all := Session(old(Current()), Received(arrivals));
          if framing.Incomplete? then Take(Current()) == (Incomplete, Current()) && all == Feed(Current(), Received(left))
          else var rest := Session(Current(), Received(left)); all == ([framing] + rest.0, rest.1)
        decreases |left|
      {
        if left == [] || left[0].Closed? {
          FeedNothing(Current());
          return EndOfInput, left;
        }
        var arrival := left[0];
        SessionTakes(Current(), Received(left));
        left := left[1..];
        match arrival {
          case TimedOut => return NoMessage, left;
          case Interrupted =>
          case Chunk(data) =>
            FeedIsSession(Current(), data, Received(left));
            Receive(data);
            SessionTakes(Current(), Received(left));
        }
        framing := TakeMessage();
      }
      result := Message(framing);
    }

    /** Reads until the input ends. */
    method ReadAll(arrivals: seq<Arrival>) returns (framings: seq<Framing>)
      modifies this
      ensures (framings, Current()) == Session(old(Current()), Received(arrivals))
    {
      hide Take, Session;
      framings := [];
      ghost var all := Session(Current(), Received(arrivals));
      assert [] + all.0 == all.0;
      var left := arrivals;
      while true
        invariant var rest := Session(Current(), Received(left));
          all == (framings + rest.0, rest.1)
        decreases |left|, |buffer|
      {
        var result;
        result, left := Read(left);
        match result {
          case EndOfInput =>
            assert framings + [] == framings;
            break;
          case NoMessage =>
          case Message(framing) =>
            assert framings + ([framing] + Session(Current(), Received(left)).0) ==
                   framings + [framing] + Session(Current(), Received(left)).0;
            framings := framings + [framing];
        }
      }
    }

    /** Gets on with what was last skipped, if anything, and then looks at the header in front. */
    method TakeMessage() returns (framing: Framing)
      modifies this
      ensures (framing, Current()) == Take(old(Current()))
    {
      hide ContentLength, Find, LowerAll;
      if resynchronizing {
        var next := Find(LowerAll(buffer), FIELD);
        if next.None? {
          if |buffer| >= |FIELD| {
            buffer := buffer[|buffer| - |FIELD| + 1..];
          }
          return Incomplete;
        }
        buffer := buffer[next.value..];
        resynchronizing := false;
      }
      if skippingHeader {
        var end := Find(buffer, HEADER_END);
        if end.None? {
          if |buffer| > 3 {
            buffer := buffer[|buffer| - 3..];
          }
          return Incomplete;
        }
        buffer := buffer[end.value + 4..];
        skippingHeader := false;
      }
      framing := TakeAtHeader();
    }

    method TakeAtHeader() returns (framing: Framing)
      requires !skippingHeader && !resynchronizing
      modifies this
      ensures (framing, Current()) == TakeHeader(old(buffer))
    {
      hide ContentLength, Find;
      var headerEnd := Find(buffer, HEADER_END);
      if headerEnd.None? {
        if |buffer| > MAXIMUM_HEADER_SIZE {
          buffer := buffer[|buffer| - 3..];
          skippingHeader := true;
          return Invalid;
        }
        return Incomplete;
      }
      var bodyStart := headerEnd.value + 4;
      var length := ReadHeader(headerEnd.value);
      if length.None? {
        buffer := buffer[bodyStart..];
        resynchronizing := true;
        return Invalid;
      }
      if |buffer| - bodyStart < length.value {
        return Incomplete;
      }
      framing := Complete(buffer[bodyStart..bodyStart + length.value]);
      buffer := buffer[bodyStart + length.value..];
    }

    /** Looks at the lines of the header one after the other. */
    method ReadHeader(headerEnd: nat) returns (length: Option<nat>)
      requires IsAt(buffer, HEADER_END, headerEnd)
      ensures length == ContentLength(buffer[..headerEnd])
    {
      hide Length, FieldValue, Values, IsAt, FindFrom;
      WithinBuffer(buffer, headerEnd);
      var header := buffer[..headerEnd];
      var found, valid, value := false, true, 0;
      var lineStart := 0;
      ghost var done: seq<string> := [];
      assert header[0..] == header;
      while lineStart < headerEnd
        invariant lineStart <= headerEnd ==> Values(header) == done + Values(header[lineStart..])
        invariant lineStart > headerEnd ==> Values(header) == done
        invariant Sofar(done, found, valid, value)
        decreases headerEnd - lineStart
      {
        var lineEnd := FindFrom(buffer, LINE_END, lineStart);
        LineOfHeader(buffer, headerEnd, lineStart);
        var line := buffer[lineStart..lineEnd.value];
        var isField := FieldValue(line).Some?;
        if isField {
          var number := ReadLength(line);
          valid := valid && !found && number.Some?;
          found := true;
          value := if valid then number.value else 0;
        }
        done := done + ValueOf(line);
        lineStart := lineEnd.value + 2;
      }
      if lineStart == headerEnd {
        assert header[lineStart..] == "";
        NoValues();
      }
      length := if found && valid then Some(value) else None;
    }

    static lemma NoValues()
      ensures Values("") == []
    {
    }

    /** What is known of the fields so far. */
    static ghost predicate Sofar(values: seq<string>, found: bool, valid: bool, value: nat) {
      && (found <==> values != [])
      && (valid <==> |values| == 0 || (|values| == 1 && Length(values[0]).Some?))
      && (found && valid ==> Length(values[0]) == Some(value))
    }

    /** The length in a Content-Length line, if it is only digits and not too much. */
    static method ReadLength(line: string) returns (length: Option<nat>)
      requires FieldValue(line).Some?
      ensures length == Length(FieldValue(line).value)
    {
      hide LowerAll;
      var digits := |FIELD|;
      while digits < |line| && IsBlank(line[digits])
        invariant |FIELD| <= digits <= |line| && TrimLeft(line[|FIELD|..]) == TrimLeft(line[digits..])
      {
        assert line[digits..][1..] == line[digits + 1..];
        digits := digits + 1;
      }
      assert TrimLeft(line[digits..]) == line[digits..];
      var end := |line|;
      assert line[digits..end] == line[digits..];
      while end > digits && IsBlank(line[end - 1])
        invariant digits <= end <= |line| && TrimRight(line[digits..]) == TrimRight(line[digits..end])
      {
        TrimLast(line, digits, end);
        end := end - 1;
      }
      var text := line[digits..end];
      assert TrimRight(text) == text == FieldValue(line).value;
      length := ReadNumber(text);
    }

    static lemma TrimLast(line: string, from: nat, to: nat)
      requires from < to <= |line| && IsBlank(line[to - 1])
      ensures TrimRight(line[from..to]) == TrimRight(line[from..to - 1])
    {
      var text := line[from..to];
      assert text[..|text| - 1] == line[from..to - 1] && text[|text| - 1] == line[to - 1];
    }

    /** Stops at the first character that is not a digit, and as soon as the value is too much. */
    static method ReadNumber(text: string) returns (length: Option<nat>)
      ensures length == Length(text)
    {
      var valid, value := text != "", 0;
      var i := 0;
      while valid && i < |text|
        invariant 0 <= i <= |text|
        invariant valid ==> AllDigits(text[..i]) && Number(text[..i]) == value <= MAXIMUM_MESSAGE_SIZE
        invariant !valid ==> Length(text).None?
      {
        assert text[..i + 1][..i] == text[..i];
        valid := IsDigit(text[i]);
        value := if valid then value * 10 + (text[i] - '0') as nat else 0;
        valid := valid && value <= MAXIMUM_MESSAGE_SIZE;
        if !valid { TooMuch(text, i + 1); }
        i := i + 1;
      }
      assert text[..|text|] == text;
      length := if valid then Some(value) else None;
    }
  }

  /** A number is at least what its first digits say. */
  lemma {:induction false} NumberGrows(s: string, k: nat)
    requires AllDigits(s) && k <= |s|
    ensures Number(s[..k]) <= Number(s)
    decreases |s|
  {
    if k < |s| {
      NumberGrows(s[..|s| - 1], k);
      assert s[..|s| - 1][..k] == s[..k];
    } else {
      assert s[..k] == s;
    }
  }

  lemma TooMuch(text: string, k: nat)
    requires k <= |text| && (AllDigits(text[..k]) ==> Number(text[..k]) > MAXIMUM_MESSAGE_SIZE)
    ensures Length(text).None?
  {
    if AllDigits(text) {
      NumberGrows(text, k);
    }
  }

  /** The end of a line in the buffer is its end in the header, or the end of the header. */
  lemma LineOfHeader(buffer: string, headerEnd: nat, start: nat)
    requires IsAt(buffer, HEADER_END, headerEnd) && start < headerEnd
    ensures var header := buffer[..headerEnd];
      var end := FindFrom(buffer, LINE_END, start);
      && end.Some? && start <= end.value <= headerEnd
      && (end.value < headerEnd ==> end.value + 2 <= headerEnd)
      && Values(header[start..]) == ValueOf(buffer[start..end.value]) +
                                    (if end.value < headerEnd then Values(header[end.value + 2..]) else [])
  {
    hide FieldValue, IsAt, FindFrom, Find;
    WithinBuffer(buffer, headerEnd);
    var line := buffer[..headerEnd][start..];
    LineEnds(buffer, headerEnd, start);
    var end := FindFrom(buffer, LINE_END, start).value;
    if end < headerEnd {
      assert line[..end - start] == buffer[start..end] && line[end - start + 2..] == buffer[..headerEnd][end + 2..];
    } else {
      assert line == buffer[start..end];
    }
  }

  lemma LineEnds(buffer: string, headerEnd: nat, start: nat)
    requires IsAt(buffer, HEADER_END, headerEnd) && start < headerEnd
    ensures var end := FindFrom(buffer, LINE_END, start);
      && end.Some? && start <= end.value <= headerEnd <= |buffer|
      && (end.value < headerEnd ==> end.value + 2 <= headerEnd)
      && Find(buffer[..headerEnd][start..], LINE_END) == if end.value < headerEnd then Some(end.value - start) else None
  {
    hide IsAt, FindFrom, Find;
    WithinBuffer(buffer, headerEnd);
    var found, end := Find(buffer[..headerEnd][start..], LINE_END), FindFrom(buffer, LINE_END, start).value;
    InHeader(buffer, headerEnd, start, end - start);
    if found.Some? {
      InHeader(buffer, headerEnd, start, found.value);
    }
  }

  lemma WithinBuffer(buffer: string, headerEnd: nat)
    requires IsAt(buffer, HEADER_END, headerEnd)
    ensures headerEnd + 4 <= |buffer| && IsAt(buffer, LINE_END, headerEnd)
  {
    assert buffer[headerEnd + 0] == HEADER_END[0] && buffer[headerEnd + 1] == HEADER_END[1];
  }

  /** No line end begins in the header and ends behind it. */
  lemma InHeader(buffer: string, headerEnd: nat, start: nat, j: nat)
    requires IsAt(buffer, HEADER_END, headerEnd) && start < headerEnd
    ensures IsAt(buffer[..headerEnd][start..], LINE_END, j) <==> start + j < headerEnd && IsAt(buffer, LINE_END, start + j)
    ensures IsAt(buffer, LINE_END, start + j) && start + j < headerEnd ==> start + j + 2 <= headerEnd
  {
    assert buffer[headerEnd + 0] == HEADER_END[0];
    var line := buffer[..headerEnd][start..];
    if start + j < headerEnd {
      assert line[j + 0] == buffer[start + j + 0];
      if start + j + 1 < headerEnd {
        assert line[j + 1] == buffer[start + j + 1];
      }
      if IsAt(buffer, LINE_END, start + j) {
        assert buffer[start + j + 1] == LINE_END[1] && buffer[start + j + 0] == LINE_END[0];
      }
      if IsAt(line, LINE_END, j) {
        assert line[j + 1] == LINE_END[1] && line[j + 0] == LINE_END[0];
      }
    }
  }
}
