/** Dividing a UTF-8 string into graphemes, and taking some of them. */
module GraphemeText {
  import opened Utf8
  import opened GraphemeRules

  /** The boundary class of every code point. */
  type Boundclass = CodePoint -> Class

  function ClassesOf(bc: Boundclass, cs: seq<CodePoint>): (r: seq<Class>)
    ensures |r| == |cs| && forall k | 0 <= k < |cs| :: r[k] == bc(cs[k])
  {
    if cs == [] then [] else ClassesOf(bc, cs[..|cs| - 1]) + [bc(cs[|cs| - 1])]
  }

  predicate BreakAt(bc: Boundclass, cs: seq<CodePoint>, k: nat)
    requires 0 < k < |cs|
  {
    StringBreak(ClassesOf(bc, cs), k)
  }

  predicate IsCut(bc: Boundclass, cs: seq<CodePoint>, k: nat)
    requires k <= |cs|
  {
    k == 0 || k == |cs| || BreakAt(bc, cs, k)
  }

  /** Another code point begins a grapheme or continues the last one. */
  function Grow(clusters: seq<seq<CodePoint>>, begins: bool, c: CodePoint): (r: seq<seq<CodePoint>>)
    ensures r != []
  {
    if begins || clusters == [] then clusters + [[c]]
    else clusters[..|clusters| - 1] + [clusters[|clusters| - 1] + [c]]
  }

  /** The graphemes of the first k code points: a new one begins at each break. */
  function Clusters(bc: Boundclass, cs: seq<CodePoint>, k: nat): (r: seq<seq<CodePoint>>)
    requires k <= |cs|
    ensures r != [] <==> k > 0
  {
    if k == 0 then [] else Grow(Clusters(bc, cs, k - 1), k > 1 && BreakAt(bc, cs, k - 1), cs[k - 1])
  }

  function AllClusters(bc: Boundclass, cs: seq<CodePoint>): seq<seq<CodePoint>> {
    Clusters(bc, cs, |cs|)
  }

  function Join(clusters: seq<seq<CodePoint>>): seq<CodePoint> {
    if clusters == [] then [] else Join(clusters[..|clusters| - 1]) + clusters[|clusters| - 1]
  }

  lemma GrowJoin(clusters: seq<seq<CodePoint>>, begins: bool, c: CodePoint)
    ensures Join(Grow(clusters, begins, c)) == Join(clusters) + [c]
    ensures [] !in clusters ==> [] !in Grow(clusters, begins, c)
  {
    var r := Grow(clusters, begins, c);
    if begins || clusters == [] {
      assert r[..|r| - 1] == clusters;
    } else {
      assert r[..|r| - 1] == clusters[..|clusters| - 1];
    }
  }

  /** No grapheme is empty, and together they are the string. */
  lemma {:induction false} ClustersJoin(bc: Boundclass, cs: seq<CodePoint>, k: nat)
    requires k <= |cs|
    ensures Join(Clusters(bc, cs, k)) == cs[..k] && [] !in Clusters(bc, cs, k)
  {
    hide Grow, BreakAt;
    if k > 0 {
      ClustersJoin(bc, cs, k - 1);
      GrowJoin(Clusters(bc, cs, k - 1), k > 1 && BreakAt(bc, cs, k - 1), cs[k - 1]);
      assert cs[..k] == cs[..k - 1] + [cs[k - 1]];
    }
  }

  /** Later code points do not change the graphemes before a break. */
  lemma {:induction false} ClustersBefore(bc: Boundclass, cs: seq<CodePoint>, b: nat, k: nat)
    requires b <= k <= |cs| && IsCut(bc, cs, b)
    ensures Clusters(bc, cs, b) <= Clusters(bc, cs, k)
    ensures k > b ==> |Clusters(bc, cs, b)| < |Clusters(bc, cs, k)|
    decreases k
  {
    hide Grow, BreakAt;
    if k > b {
      ClustersBefore(bc, cs, b, k - 1);
      GrowKeeps(Clusters(bc, cs, b), Clusters(bc, cs, k - 1), k > 1 && BreakAt(bc, cs, k - 1), cs[k - 1]);
    }
  }

  lemma GrowKeeps(before: seq<seq<CodePoint>>, clusters: seq<seq<CodePoint>>, begins: bool, c: CodePoint)
    requires before <= clusters && (before == clusters ==> begins || clusters == [])
    ensures before <= Grow(clusters, begins, c) && |before| < |Grow(clusters, begins, c)|
  {
    if before != clusters {
      assert before <= clusters[..|clusters| - 1];
    }
  }

  lemma JoinOne(a: seq<seq<CodePoint>>, last: seq<CodePoint>)
    ensures Join(a + [last]) == Join(a) + last
  {
    assert (a + [last])[..|a|] == a;
  }

  lemma {:induction false} JoinConcat(a: seq<seq<CodePoint>>, b: seq<seq<CodePoint>>)
    ensures Join(a + b) == Join(a) + Join(b)
    decreases |b|
  {
    if b == [] {
      assert a + b == a;
    } else {
      JoinConcat(a, b[..|b| - 1]);
      JoinMore(a, b[..|b| - 1], b[|b| - 1]);
      assert b == b[..|b| - 1] + [b[|b| - 1]];
    }
  }

  lemma JoinMore(a: seq<seq<CodePoint>>, front: seq<seq<CodePoint>>, last: seq<CodePoint>)
    requires Join(a + front) == Join(a) + Join(front)
    ensures Join(a + (front + [last])) == Join(a) + Join(front + [last])
  {
    hide Join;
    JoinOne(a + front, last);
    JoinOne(front, last);
    assert a + (front + [last]) == a + front + [last];
  }

  /** The code points between two cuts are the graphemes between them. */
  lemma ClustersBetween(bc: Boundclass, cs: seq<CodePoint>, b: nat, e: nat)
    requires b <= e <= |cs| && IsCut(bc, cs, b) && IsCut(bc, cs, e)
    ensures |Clusters(bc, cs, b)| <= |Clusters(bc, cs, e)| <= |AllClusters(bc, cs)|
    ensures Join(AllClusters(bc, cs)[|Clusters(bc, cs, b)|..|Clusters(bc, cs, e)|]) == cs[b..e]
  {
    hide BreakAt, Clusters, Join;
    var from, to := Clusters(bc, cs, b), Clusters(bc, cs, e);
    ClustersBefore(bc, cs, b, e);
    ClustersBefore(bc, cs, e, |cs|);
    ClustersJoin(bc, cs, b);
    ClustersJoin(bc, cs, e);
    Between(from, to, AllClusters(bc, cs));
    assert cs[..e][b..] == cs[b..e] && cs[..e][..b] == cs[..b];
    JoinConcat(from, to[|from|..]);
    assert from + to[|from|..] == to;
  }

  lemma Between<T>(a: seq<T>, b: seq<T>, c: seq<T>)
    requires a <= b <= c
    ensures c[|a|..|b|] == b[|a|..]
  {
  }

  // ----- The bytes -----

  function EncodeEach(clusters: seq<seq<CodePoint>>): (r: seq<seq<Byte>>)
    ensures |r| == |clusters|
  {
    if clusters == [] then []
    else EncodeEach(clusters[..|clusters| - 1]) + [EncodeAll(clusters[|clusters| - 1])]
  }

  lemma {:induction false} EncodeConcat(a: seq<CodePoint>, b: seq<CodePoint>)
    ensures EncodeAll(a + b) == EncodeAll(a) + EncodeAll(b)
  {
    hide Encode;
    if a == [] {
      assert a + b == b;
    } else {
      assert (a + b)[1..] == a[1..] + b;
      EncodeConcat(a[1..], b);
    }
  }

  /** The code points at the beginning of a string, up to the first byte that cannot be decoded. */
  function Decodable(data: seq<Byte>): seq<CodePoint> {
    var r := Iterate(data);
    if r.Char? then
      DecodedFits(data, r);
      [r.code] + Decodable(data[r.length..])
    else []
  }

  lemma DecodedFits(data: seq<Byte>, r: Decoded)
    requires r == Iterate(data) && r.Char?
    ensures 1 <= r.length <= |data|
  {
    hide Iterate;
    LengthOf(data, r.code, r.length);
    TextRest(data, r.code, r.length);
  }

  /** All of a string that is UTF-8 is decoded. */
  lemma {:induction false} TextIsDecodable(cs: seq<CodePoint>)
    requires AllScalars(cs)
    ensures Decodable(EncodeAll(cs)) == cs
  {
    hide Encode, Iterate, IsScalar;
    var data := EncodeAll(cs);
    EmptyDecodes(data);
    if cs != [] {
      var rest := EncodeAll(cs[1..]);
      assert cs[0] in cs && data == Encode(cs[0]) + rest;
      DecodeOfEncode(cs[0], rest);
      assert data[|Encode(cs[0])|..] == rest;
      TextIsDecodable(cs[1..]);
    }
  }

  /** The bytes before `off` are the first i code points that are decoded. */
  ghost predicate ReadTo(data: seq<Byte>, cs: seq<CodePoint>, off: nat, i: nat) {
    && i <= |cs| && off <= |data|
    && EncodeAll(cs[..i]) == data[..off] && Decodable(data[off..]) == cs[i..]
  }

  lemma ReadStart(data: seq<Byte>)
    ensures ReadTo(data, Decodable(data), 0, 0)
  {
    var cs := Decodable(data);
    assert cs[..0] == [] && cs[0..] == cs && data[..0] == [] && data[0..] == data;
  }

  /** The next code point, and its bytes, unless that is all that can be decoded. */
  lemma ReadNext(data: seq<Byte>, cs: seq<CodePoint>, off: nat, i: nat)
    requires ReadTo(data, cs, off, i)
    ensures i < |cs| <==> Iterate(data[off..]).Char?
    ensures off == |data| ==> i == |cs|
    ensures i < |cs| ==> var n := |Encode(cs[i])|;
      && Iterate(data[off..]) == Char(cs[i], n) && off + n <= |data| && ReadTo(data, cs, off + n, i + 1)
  {
    hide Encode, Iterate, IsScalar;
    EmptyDecodes(data[off..]);
    var r := Iterate(data[off..]);
    if r.Char? {
      DecodedFits(data[off..], r);
      var c, rest := r.code, data[off + r.length..];
      DecodesEncoded(data[off..], c, r.length);
      assert data[off..][r.length..] == rest && cs[i..] == [c] + Decodable(rest);
      assert cs[i..][1..] == cs[i + 1..] == Decodable(rest) && cs[i] == c;
      assert data[off..][..r.length] == Encode(c) == data[off..off + r.length];
      assert cs[..i + 1] == cs[..i] + [c] && EncodeAll([c]) == Encode(c) + EncodeAll([c][1..]);
      EncodeConcat(cs[..i], [c]);
      assert data[..off + r.length] == data[..off] + Encode(c);
    }
  }

  /** The bytes between two places that were read to are the code points between them. */
  lemma ReadBetween(data: seq<Byte>, cs: seq<CodePoint>, off: nat, i: nat, end: nat, j: nat)
    requires ReadTo(data, cs, off, i) && ReadTo(data, cs, end, j) && i <= j
    ensures off <= end && data[off..end] == EncodeAll(cs[i..j])
  {
    assert cs[..j] == cs[..i] + cs[i..j];
    EncodeConcat(cs[..i], cs[i..j]);
    assert data[..end] == data[..off] + EncodeAll(cs[i..j]);
    assert data[..end][off..] == data[off..end];
  }

  /** What the loops know: how far they have read, and the state of the machine. */
  ghost predicate AtCodePoint(bc: Boundclass, data: seq<Byte>, cs: seq<CodePoint>, off: nat, i: nat, prev: CodePoint,
                              state: Class) {
    0 < i <= |cs| && ReadTo(data, cs, off, i) && prev == cs[i - 1] && state == StateAfter(ClassesOf(bc, cs)[1..i])
  }

  lemma FirstCodePoint(bc: Boundclass, data: seq<Byte>)
    ensures var cs := Decodable(data);
      && (cs != [] <==> Iterate(data).Char?)
      && (cs != [] ==> Iterate(data) == Char(cs[0], |Encode(cs[0])|) &&
                       AtCodePoint(bc, data, cs, |Encode(cs[0])|, 1, cs[0], START))
  {
    hide Encode, Iterate, IsScalar, ReadTo, Decodable;
    var cs := Decodable(data);
    ReadStart(data);
    ReadNext(data, cs, 0, 0);
    assert data[0..] == data;
    if cs != [] {
      assert ClassesOf(bc, cs)[1..1] == [];
    }
  }

  lemma NextCodePoint(bc: Boundclass, data: seq<Byte>, cs: seq<CodePoint>, off: nat, i: nat, prev: CodePoint, state: Class)
    requires AtCodePoint(bc, data, cs, off, i, prev, state) && off <= |data| && Iterate(data[off..]).Char?
    ensures i < |cs| && Iterate(data[off..]) == Char(cs[i], |Encode(cs[i])|)
    ensures var (brk, next) := BreakExtended(bc(prev), bc(cs[i]), state);
      brk == BreakAt(bc, cs, i) && AtCodePoint(bc, data, cs, off + |Encode(cs[i])|, i + 1, cs[i], next)
  {
    hide Encode, Iterate, IsScalar, NextState, BreakSimple;
    ReadNext(data, cs, off, i);
    var classes := ClassesOf(bc, cs);
    assert classes[1..i + 1][..i - 1] == classes[1..i] && classes[1..i + 1][i - 1] == classes[i];
  }

  lemma OneGrapheme(bc: Boundclass, data: seq<Byte>, cs: seq<CodePoint>, off: nat, prev: CodePoint, state: Class)
    requires AtCodePoint(bc, data, cs, off, 1, prev, state)
    ensures [data[0..off]] == EncodeEach(Clusters(bc, cs, 1))
  {
    hide Encode;
    assert Clusters(bc, cs, 1) == [[cs[0]]] && cs[..1] == [cs[0]] && data[0..off] == data[..off];
    assert EncodeEach([[cs[0]]]) == EncodeEach([]) + [EncodeAll([cs[0]])];
  }

  /** The code point at i begins a grapheme or continues the last one. */
  lemma MoreGraphemes(bc: Boundclass, data: seq<Byte>, cs: seq<CodePoint>, done: seq<seq<Byte>>, lastCut: nat,
                      off: nat, i: nat, prev: CodePoint, state: Class)
    requires AtCodePoint(bc, data, cs, off, i, prev, state) && i < |cs| && lastCut <= off <= |data|
    requires done + [data[lastCut..off]] == EncodeEach(Clusters(bc, cs, i))
    ensures var end := off + |Encode(cs[i])|;
      && end <= |data|
      && EncodeEach(Clusters(bc, cs, i + 1)) ==
         if BreakAt(bc, cs, i) then done + [data[lastCut..off]] + [data[off..end]] else done + [data[lastCut..end]]
  {
    hide Encode, BreakAt, Grow, EncodeAll, EncodeEach, ReadTo;
    var n, before := |Encode(cs[i])|, Clusters(bc, cs, i);
    ReadNext(data, cs, off, i);
    ReadBetween(data, cs, off, i, off + n, i + 1);
    assert cs[i..i + 1] == [cs[i]];
    assert EncodeEach(before)[..|before| - 1] == done && EncodeEach(before)[|before| - 1] == data[lastCut..off];
    GrowEncoded(before, BreakAt(bc, cs, i), cs[i]);
    assert data[lastCut..off + n] == data[lastCut..off] + data[off..off + n];
  }

  lemma GrowEncoded(clusters: seq<seq<CodePoint>>, begins: bool, c: CodePoint)
    requires clusters != []
    ensures var bytes := EncodeEach(clusters);
      EncodeEach(Grow(clusters, begins, c)) ==
      if begins then bytes + [EncodeAll([c])]
      else bytes[..|bytes| - 1] + [bytes[|bytes| - 1] + EncodeAll([c])]
  {
    hide EncodeAll;
    var n := |clusters|;
    if begins {
      assert (clusters + [[c]])[..n] == clusters;
    } else {
      EncodeConcat(clusters[n - 1], [c]);
      var longer := clusters[..n - 1] + [clusters[n - 1] + [c]];
      assert longer[..n - 1] == clusters[..n - 1];
    }
  }

  lemma LastCodePoint(bc: Boundclass, data: seq<Byte>, cs: seq<CodePoint>, off: nat, i: nat, prev: CodePoint, state: Class)
    requires AtCodePoint(bc, data, cs, off, i, prev, state) && off <= |data|
    requires off == |data| || !Iterate(data[off..]).Char?
    ensures i == |cs|
  {
    ReadNext(data, cs, off, i);
  }

  /** Calls back with one grapheme after the other; here they are collected. */
  method Graphemes(bc: Boundclass, data: seq<Byte>) returns (graphemes: seq<seq<Byte>>)
    ensures graphemes == EncodeEach(AllClusters(bc, Decodable(data)))
  {
    hide Encode, Iterate, IsScalar, BreakExtended, BreakAt, ReadTo, AtCodePoint, EncodeEach, Decodable, Clusters;
    graphemes := [];
    ghost var cs := Decodable(data);
    NoGraphemes(bc);
    FirstCodePoint(bc, data);
    if data == [] {
      EmptyDecodes(data);
      return;
    }
    var first := Iterate(data);
    if !first.Char? {
      return;
    }
    DecodedFits(data, first);
    var state, prev, off, lastCut := START, first.code, first.length, 0;
    ghost var i := 1;
    OneGrapheme(bc, data, cs, off, prev, state);
    while off < |data|
      invariant lastCut <= off <= |data| && AtCodePoint(bc, data, cs, off, i, prev, state)
      invariant i <= |cs| && graphemes + [data[lastCut..off]] == EncodeEach(Clusters(bc, cs, i))
      decreases |data| - off
    {
      var next := Iterate(data[off..]);
      if !next.Char? {
        LastCodePoint(bc, data, cs, off, i, prev, state);
        break;
      }
      NextCodePoint(bc, data, cs, off, i, prev, state);
      DecodedFits(data[off..], next);
      var (brk, newState) := BreakExtended(bc(prev), bc(next.code), state);
      MoreGraphemes(bc, data, cs, graphemes, lastCut, off, i, prev, state);
      if brk {
        graphemes := graphemes + [data[lastCut..off]];
        lastCut := off;
      }
      state, prev, off := newState, next.code, off + next.length;
      i := i + 1;
    }
    graphemes := graphemes + [data[lastCut..off]];
    if off == |data| {
      LastCodePoint(bc, data, cs, off, i, prev, state);
    }
  }

  lemma NoGraphemes(bc: Boundclass)
    ensures EncodeEach(AllClusters(bc, [])) == [] && AllClusters(bc, []) == []
  {
  }

  // ----- Some graphemes of a string -----

  /** What is decoded is the longest text that the string begins with. */
  lemma {:induction false} DecodableIsLongest(data: seq<Byte>)
    ensures AllScalars(Decodable(data)) && EncodeAll(Decodable(data)) <= data
    ensures forall c | IsScalar(c) :: !(Encode(c) <= data[|EncodeAll(Decodable(data))|..])
    decreases |data|
  {
    hide Encode, Iterate, IsScalar;
    var r := Iterate(data);
    if r.Char? {
      DecodedFits(data, r);
      DecodesEncoded(data, r.code, r.length);
      DecodableIsLongest(data[r.length..]);
      var (rest, decoded) := (data[r.length..], Decodable(data[r.length..]));
      assert Decodable(data) == [r.code] + decoded && Decodable(data)[1..] == decoded;
      assert data == Encode(r.code) + rest;
      assert data[|Encode(r.code)| + |EncodeAll(decoded)|..] == rest[|EncodeAll(decoded)|..];
    } else {
      assert Decodable(data) == [] && EncodeAll(Decodable(data)) == [];
      forall c | IsScalar(c) ensures !(Encode(c) <= data) {
        DecodesEncoded(data, c, |Encode(c)|);
      }
      assert data[0..] == data;
    }
  }

  /** Graphemes `from` up to `from + length`, as far as there are some. */
  function Slice(clusters: seq<seq<CodePoint>>, from: int, length: int): seq<seq<CodePoint>> {
    if length <= 0 || from < 0 || from >= |clusters| then []
    else if from + length < |clusters| then clusters[from..from + length]
    else clusters[from..]
  }

  /** Slices that follow each other make up one. */
  lemma SlicesJoin(clusters: seq<seq<CodePoint>>, from: nat, first: nat, second: nat)
    ensures Slice(clusters, from, first) + Slice(clusters, from + first, second) == Slice(clusters, from, first + second)
    ensures Slice(clusters, 0, |clusters|) == clusters
    ensures from < |clusters| ==> Slice(clusters, from, 1) == [clusters[from]]
  {
  }

  lemma CountClusters(bc: Boundclass, cs: seq<CodePoint>, i: nat)
    requires 0 < i < |cs|
    ensures |Clusters(bc, cs, i + 1)| == |Clusters(bc, cs, i)| + if BreakAt(bc, cs, i) then 1 else 0
  {
    hide BreakAt;
  }

  /** The bytes from the cut before grapheme `from` to a later cut. */
  lemma SliceIs(bc: Boundclass, data: seq<Byte>, cs: seq<CodePoint>, from: nat, length: nat, begin: nat, b: nat,
                off: nat, e: nat)
    requires length > 0 && b <= e && ReadTo(data, cs, begin, b) && ReadTo(data, cs, off, e)
    requires IsCut(bc, cs, b) && IsCut(bc, cs, e) && |Clusters(bc, cs, b)| == from
    requires |Clusters(bc, cs, e)| == from + length || (e == |cs| && |Clusters(bc, cs, e)| < from + length)
    requires b < |cs|
    ensures begin <= off && data[begin..off] == EncodeAll(Join(Slice(AllClusters(bc, cs), from, length)))
  {
    hide BreakAt, Clusters, EncodeAll, Join;
    ReadBetween(data, cs, begin, b, off, e);
    ClustersBetween(bc, cs, b, e);
    ClustersBefore(bc, cs, b, |cs|);
    var all := AllClusters(bc, cs);
    assert |Clusters(bc, cs, e)| == |all| ==> all[from..] == all[from..|all|];
  }

  /** Where grapheme `from` begins, and how the machine goes on behind its first code point. */
  ghost predicate Begun(bc: Boundclass, data: seq<Byte>, cs: seq<CodePoint>, from: nat, begin: nat, b: nat, i: nat) {
    b < |cs| && i == b + 1 && IsCut(bc, cs, b) && ReadTo(data, cs, begin, b) && |Clusters(bc, cs, b)| == from
  }

  lemma NoBytes()
    ensures EncodeAll(Join([])) == []
  {
  }

  lemma BegunAtStart(bc: Boundclass, data: seq<Byte>, cs: seq<CodePoint>)
    requires cs == Decodable(data) && cs != []
    ensures Begun(bc, data, cs, 0, 0, 0, 1) && |Clusters(bc, cs, 1)| == 1
  {
    ReadStart(data);
    assert Clusters(bc, cs, 0) == [];
  }

  lemma BegunAtBreak(bc: Boundclass, data: seq<Byte>, cs: seq<CodePoint>, from: nat, off: nat, i: nat, prev: CodePoint,
                     state: Class)
    requires AtCodePoint(bc, data, cs, off, i, prev, state) && i < |cs| && BreakAt(bc, cs, i)
    requires |Clusters(bc, cs, i)| == from
    ensures Begun(bc, data, cs, from, off, i, i + 1)
  {
  }

  lemma BegunIs(bc: Boundclass, data: seq<Byte>, cs: seq<CodePoint>, from: nat, begin: nat, b: nat, i: nat)
    requires Begun(bc, data, cs, from, begin, b, i)
    ensures b < |cs| && i == b + 1 && IsCut(bc, cs, b) && ReadTo(data, cs, begin, b) && |Clusters(bc, cs, b)| == from
    ensures |Clusters(bc, cs, i)| == from + 1
  {
    hide BreakAt;
    if b > 0 { CountClusters(bc, cs, b); }
  }

  lemma AtCodePointReads(bc: Boundclass, data: seq<Byte>, cs: seq<CodePoint>, off: nat, i: nat, prev: CodePoint,
                         state: Class)
    requires AtCodePoint(bc, data, cs, off, i, prev, state)
    ensures ReadTo(data, cs, off, i) && 0 < i <= |cs|
  {
  }

  /** The bytes of some graphemes of the string. */
  method GraphemeSubstring(bc: Boundclass, data: seq<Byte>, firstGrapheme: int, count: int) returns (r: seq<Byte>)
    ensures r == EncodeAll(Join(Slice(AllClusters(bc, Decodable(data)), firstGrapheme, count)))
  {
    hide Encode, Iterate, IsScalar, BreakExtended, ReadTo, AtCodePoint, Clusters, EncodeAll, Join, BreakAt, Begun,
      Decodable;
    ghost var cs := Decodable(data);
    NoBytes();
    NoGraphemes(bc);
    FirstCodePoint(bc, data);
    if data == [] || count <= 0 || firstGrapheme < 0 {
      EmptyDecodes(data);
      return [];
    }
    var first := Iterate(data);
    if !first.Char? {
      return [];
    }
    DecodedFits(data, first);
    var state, prev, off, from, beginCut := START, first.code, first.length, firstGrapheme, 0;
    ghost var i, b := 1, 0;
    BegunAtStart(bc, data, cs);
    while off < |data| && from > 0
      invariant beginCut <= off <= |data| && from >= 0
      invariant AtCodePoint(bc, data, cs, off, i, prev, state) && 0 < i <= |cs|
      invariant from > 0 ==> from + |Clusters(bc, cs, i)| == firstGrapheme + 1
      invariant from == 0 ==> Begun(bc, data, cs, firstGrapheme, beginCut, b, i)
      decreases |data| - off
    {
      var next := Iterate(data[off..]);
      if !next.Char? {
        LastCodePoint(bc, data, cs, off, i, prev, state);
        break;
      }
      NextCodePoint(bc, data, cs, off, i, prev, state);
      DecodedFits(data[off..], next);
      var (brk, newState) := BreakExtended(bc(prev), bc(next.code), state);
      CountClusters(bc, cs, i);
      if brk {
        from := from - 1;
        if from == 0 {
          BegunAtBreak(bc, data, cs, firstGrapheme, off, i, prev, state);
          beginCut, b := off, i;
        }
      }
      state, prev, off, i := newState, next.code, off + next.length, i + 1;
    }
    if from > 0 {
      if off == |data| { LastCodePoint(bc, data, cs, off, i, prev, state); }
      assert Slice(AllClusters(bc, cs), firstGrapheme, count) == [];
      return [];
    }
    var length := count;
    BegunIs(bc, data, cs, firstGrapheme, beginCut, b, i);
    ghost var atBreak := false;
    while off < |data|
      invariant beginCut <= off <= |data| && length > 0 && !atBreak
      invariant AtCodePoint(bc, data, cs, off, i, prev, state) && b < i <= |cs|
      invariant |Clusters(bc, cs, i)| + length == firstGrapheme + 1 + count
      decreases |data| - off
    {
      var next := Iterate(data[off..]);
      if !next.Char? {
        LastCodePoint(bc, data, cs, off, i, prev, state);
        break;
      }
      NextCodePoint(bc, data, cs, off, i, prev, state);
      DecodedFits(data[off..], next);
      var (brk, newState) := BreakExtended(bc(prev), bc(next.code), state);
      CountClusters(bc, cs, i);
      if brk {
        length := length - 1;
        if length == 0 {
          atBreak := true;
          break;
        }
      }
      state, prev, off, i := newState, next.code, off + next.length, i + 1;
    }
    if !atBreak && off == |data| { LastCodePoint(bc, data, cs, off, i, prev, state); }
    AtCodePointReads(bc, data, cs, off, i, prev, state);
    SliceIs(bc, data, cs, firstGrapheme, count, beginCut, b, off, i);
    r := data[beginCut..off];
  }
}
