/** The framing of JSON-RPC messages with Content-Length headers. */
module Framing {
  import opened Wrappers

  const MAXIMUM_MESSAGE_SIZE: nat := 256 * 1024 * 1024
  const MAXIMUM_HEADER_SIZE: nat := 64 * 1024
  const FIELD := "content-length:"
  const LINE_END := "\r\n"
  const HEADER_END := "\r\n\r\n"

  // ----- Searching -----

  predicate IsAt(s: string, pattern: string, k: nat) {
    k + |pattern| <= |s| && forall i | 0 <= i < |pattern| :: s[k + i] == pattern[i]
  }

  /** The first occurrence at or after k. */
  function FindFrom(s: string, pattern: string, k: nat): (r: Option<nat>)
    ensures r.Some? ==> k <= r.value && IsAt(s, pattern, r.value) && forall j | k <= j < r.value :: !IsAt(s, pattern, j)
    ensures r.None? ==> forall j | k <= j :: !IsAt(s, pattern, j)
    decreases |s| - k
  {
    if k + |pattern| > |s| then None else if IsAt(s, pattern, k) then Some(k)
    else if k == |s| then None else FindFrom(s, pattern, k + 1)
  }

  function Find(s: string, pattern: string): (r: Option<nat>)
    ensures r.Some? ==> IsAt(s, pattern, r.value) && forall j: nat | j < r.value :: !IsAt(s, pattern, j)
    ensures r.None? ==> forall j: nat :: !IsAt(s, pattern, j)
  {
    FindFrom(s, pattern, 0)
  }

  lemma AtAppend(s: string, t: string, pattern: string, k: nat)
    requires k + |pattern| <= |s|
    ensures IsAt(s + t, pattern, k) <==> IsAt(s, pattern, k)
  {
  }

  lemma AtDrop(s: string, pattern: string, d: nat, k: nat)
    requires d <= |s|
    ensures IsAt(s[d..], pattern, k) <==> IsAt(s, pattern, d + k)
  {
  }

  /** What was found is still found first if more follows. */
  lemma FindAppend(s: string, t: string, pattern: string)
    requires Find(s, pattern).Some?
    ensures Find(s + t, pattern) == Find(s, pattern)
  {
    var k := Find(s, pattern).value;
    forall j: nat | j <= k ensures IsAt(s + t, pattern, j) <==> IsAt(s, pattern, j) {
      AtAppend(s, t, pattern, j);
    }
  }

  /** The end of a text of which only an occurrence cut off at the end can still be found. */
  function Tail(s: string, n: nat): string {
    if |s| <= n then s else s[|s| - n..]
  }

  function Shift(r: Option<nat>, d: nat): Option<nat> {
    if r.None? then None else Some(r.value + d)
  }

  lemma FindTail(s: string, t: string, pattern: string)
    requires Find(s, pattern).None? && pattern != ""
    ensures var keep := Tail(s, |pattern| - 1);
      Find(s + t, pattern) == Shift(Find(keep + t, pattern), |s| - |keep|)
  {
    var keep := Tail(s, |pattern| - 1);
    var d := |s| - |keep|;
    assert (s + t)[d..] == keep + t;
    forall j: nat ensures IsAt(s + t, pattern, j) <==> j >= d && IsAt(keep + t, pattern, j - d) {
      if j < d {
        AtAppend(s, t, pattern, j);
      } else {
        AtDrop(s + t, pattern, d, j - d);
      }
    }
    FindUnique(s + t, keep + t, pattern, d);
  }

  lemma FindUnique(s: string, u: string, pattern: string, d: nat)
    requires forall j: nat :: IsAt(s, pattern, j) <==> j >= d && IsAt(u, pattern, j - d)
    ensures Find(s, pattern) == Shift(Find(u, pattern), d)
  {
    var a, b := Find(s, pattern), Find(u, pattern);
    if b.Some? {
      assert IsAt(s, pattern, b.value + d);
    }
    if a.Some? {
      assert IsAt(u, pattern, a.value - d);
    }
  }

  lemma TailAppend(s: string, t: string, n: nat)
    ensures Tail(Tail(s, n) + t, n) == Tail(s + t, n)
  {
  }

  function Lower(c: char): char {
    if 'A' <= c <= 'Z' then c - 'A' + 'a' else c
  }

  function LowerAll(s: string): (r: string)
    ensures |r| == |s| && forall k | 0 <= k < |s| :: r[k] == Lower(s[k])
  {
    if s == "" then "" else [Lower(s[0])] + LowerAll(s[1..])
  }

  lemma LowerAppend(s: string, t: string)
    ensures LowerAll(s + t) == LowerAll(s) + LowerAll(t)
  {
  }

  lemma LowerTail(s: string, n: nat)
    ensures LowerAll(Tail(s, n)) == Tail(LowerAll(s), n)
  {
  }

  // ----- Headers -----

  predicate IsBlank(c: char) {
    c == ' ' || c == '\t'
  }

  predicate IsDigit(c: char) {
    '0' <= c <= '9'
  }

  function TrimLeft(s: string): string {
    if s != "" && IsBlank(s[0]) then TrimLeft(s[1..]) else s
  }

  function TrimRight(s: string): string {
    if s != "" && IsBlank(s[|s| - 1]) then TrimRight(s[..|s| - 1]) else s
  }

  /** The value of a line that is a Content-Length field. */
  function FieldValue(line: string): Option<string> {
    if |line| >= |FIELD| && LowerAll(line[..|FIELD|]) == FIELD then Some(TrimRight(TrimLeft(line[|FIELD|..]))) else None
  }

  predicate AllDigits(s: string) {
    forall k | 0 <= k < |s| :: IsDigit(s[k])
  }

  function Number(s: string): nat
    requires AllDigits(s)
  {
    if s == "" then 0 else Number(s[..|s| - 1]) * 10 + (s[|s| - 1] - '0') as nat
  }

  /** Only digits, and not too much. */
  function Length(value: string): Option<nat> {
    if value != "" && AllDigits(value) && Number(value) <= MAXIMUM_MESSAGE_SIZE then Some(Number(value)) else None
  }

  /** The values of the Content-Length fields of a header, line by line. */
  function Values(header: string): seq<string>
    decreases |header|
  {
    match Find(header, LINE_END)
    case None => ValueOf(header)
    case Some(k) => ValueOf(header[..k]) + Values(header[k + 2..])
  }

  function ValueOf(line: string): seq<string> {
    if FieldValue(line).Some? then [FieldValue(line).value] else []
  }

  /** A header needs exactly one Content-Length, with a length that is accepted. */
  function ContentLength(header: string): Option<nat> {
    var values := Values(header);
    if |values| == 1 then Length(values[0]) else None
  }

  // ----- The state of the transport -----

  datatype Framing = Complete(content: string) | Incomplete | Invalid

  datatype State = State(buffer: string, skipping: bool, resynchronizing: bool) {
    function Append(more: string): State {
      State(buffer + more, skipping, resynchronizing)
    }
  }

  const EMPTY := State("", false, false)

  /** Takes the first message from the buffer if it is complete. */
  function Take(s: State): (r: (Framing, State))
    ensures !r.0.Incomplete? ==> |r.1.buffer| < |s.buffer|
    ensures r.0.Incomplete? ==> |r.1.buffer| <= |s.buffer|
  {
    if !s.resynchronizing then TakeSkipping(s)
    else
      match Find(LowerAll(s.buffer), FIELD)
      case None => (Incomplete, State(Tail(s.buffer, |FIELD| - 1), s.skipping, true))
      case Some(k) => TakeSkipping(State(s.buffer[k..], s.skipping, false))
  }

  function TakeSkipping(s: State): (r: (Framing, State))
    ensures !r.0.Incomplete? ==> |r.1.buffer| < |s.buffer|
    ensures r.0.Incomplete? ==> |r.1.buffer| <= |s.buffer|
  {
    if !s.skipping then TakeHeader(s.buffer)
    else
      match Find(s.buffer, HEADER_END)
      case None => (Incomplete, State(Tail(s.buffer, |HEADER_END| - 1), true, false))
      case Some(k) => TakeHeader(s.buffer[k + |HEADER_END|..])
  }

  function TakeHeader(buffer: string): (r: (Framing, State))
    ensures !r.0.Incomplete? ==> |r.1.buffer| < |buffer|
    ensures r.0.Incomplete? ==> r.1.buffer == buffer
  {
    match Find(buffer, HEADER_END)
    case None =>
      if |buffer| > MAXIMUM_HEADER_SIZE then (Invalid, State(Tail(buffer, |HEADER_END| - 1), true, false))
      else (Incomplete, State(buffer, false, false))
    case Some(end) =>
      var body := end + |HEADER_END|;
      match ContentLength(buffer[..end])
      case None => (Invalid, State(buffer[body..], false, true))
      case Some(n) =>
        if |buffer| - body < n then (Incomplete, State(buffer, false, false))
        else (Complete(buffer[body..body + n]), State(buffer[body + n..], false, false))
  }

  /** Takes messages until there is none. */
  function Drain(s: State): (seq<Framing>, State)
    decreases |s.buffer|
  {
    var (r, s1) := Take(s);
    if r.Incomplete? then ([], s1)
    else
      var (rest, s2) := Drain(s1);
      ([r] + rest, s2)
  }

  /** Takes all messages after each chunk of input. */
  function Feed(s: State, chunks: seq<string>): (seq<Framing>, State)
    decreases chunks
  {
    if chunks == [] then ([], s)
    else
      var (first, s1) := Drain(s.Append(chunks[0]));
      var (rest, s2) := Feed(s1, chunks[1..]);
      (first + rest, s2)
  }

  /** Takes what is there, and then all messages after each chunk of input. */
  function Session(s: State, chunks: seq<string>): (seq<Framing>, State) {
    var (first, s1) := Drain(s);
    var (rest, s2) := Feed(s1, chunks);
    (first + rest, s2)
  }

  /** What waiting for input comes to. */
  datatype Arrival = Chunk(data: string) | Interrupted | TimedOut | Closed

  function Received(arrivals: seq<Arrival>): seq<string> {
    if arrivals == [] || arrivals[0].Closed? then []
    else if arrivals[0].Chunk? then [arrivals[0].data] + Received(arrivals[1..])
    else Received(arrivals[1..])
  }

  function Concat(chunks: seq<string>): string {
    if chunks == [] then "" else chunks[0] + Concat(chunks[1..])
  }
}
