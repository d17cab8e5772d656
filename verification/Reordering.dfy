/** Canonical ordering: the loop that sorts combining marks in place. */
module Reordering {
  type CodePoint = int

  /** Combining classes; starters have class 0. */
  type Classes = CodePoint -> nat

  /** Two adjacent code points that are in the wrong order. */
  predicate Reorderable(ccc: Classes, x: CodePoint, y: CodePoint) {
    ccc(x) > ccc(y) && ccc(y) > 0
  }

  predicate Ordered(ccc: Classes, s: seq<CodePoint>) {
    forall k | 0 < k < |s| :: !Reorderable(ccc, s[k - 1], s[k])
  }

  // ----- The reference: every code point is inserted behind those that stay in front of it -----

  function Insert(ccc: Classes, s: seq<CodePoint>, x: CodePoint): (r: seq<CodePoint>)
    ensures |r| == |s| + 1 && r[|s|] == if s != [] && Reorderable(ccc, s[|s| - 1], x) then s[|s| - 1] else x
  {
    if s == [] || !Reorderable(ccc, s[|s| - 1], x) then s + [x]
    else Insert(ccc, s[..|s| - 1], x) + [s[|s| - 1]]
  }

  function Canonical(ccc: Classes, s: seq<CodePoint>): (r: seq<CodePoint>)
    ensures |r| == |s|
  {
    if s == [] then [] else Insert(ccc, Canonical(ccc, s[..|s| - 1]), s[|s| - 1])
  }

  lemma {:induction false} InsertAdds(ccc: Classes, s: seq<CodePoint>, x: CodePoint)
    ensures multiset(Insert(ccc, s, x)) == multiset(s) + multiset{x}
    decreases |s|
  {
    if s != [] && Reorderable(ccc, s[|s| - 1], x) {
      InsertAdds(ccc, s[..|s| - 1], x);
      assert s == s[..|s| - 1] + [s[|s| - 1]];
    }
  }

  /** Nothing is added or lost. */
  lemma {:induction false} CanonicalIsPermutation(ccc: Classes, s: seq<CodePoint>)
    ensures multiset(Canonical(ccc, s)) == multiset(s)
    decreases |s|
  {
    if s != [] {
      hide Insert;
      var (t, x) := (s[..|s| - 1], s[|s| - 1]);
      CanonicalIsPermutation(ccc, t);
      InsertAdds(ccc, Canonical(ccc, t), x);
      assert multiset(s) == multiset(t) + multiset{x} by { assert s == t + [x]; }
    }
  }

  lemma OrderedLast(ccc: Classes, s: seq<CodePoint>)
    requires Ordered(ccc, s) && s != []
    ensures Ordered(ccc, s[..|s| - 1])
    ensures |s| > 1 ==> !Reorderable(ccc, s[..|s| - 1][|s| - 2], s[|s| - 1])
  {
    assert |s| > 1 ==> !Reorderable(ccc, s[|s| - 1 - 1], s[|s| - 1]);
  }

  /** What is inserted is behind everything that is not moved. */
  lemma {:induction false} InsertOrdered(ccc: Classes, s: seq<CodePoint>, x: CodePoint)
    requires Ordered(ccc, s)
    ensures Ordered(ccc, Insert(ccc, s, x))
    decreases |s|
  {
    if s != [] && Reorderable(ccc, s[|s| - 1], x) {
      OrderedLast(ccc, s);
      InsertOrdered(ccc, s[..|s| - 1], x);
    }
  }

  /** The canonical ordering has no two code points in the wrong order: classes ascend between starters. */
  lemma {:induction false} CanonicalIsOrdered(ccc: Classes, s: seq<CodePoint>)
    ensures Ordered(ccc, Canonical(ccc, s))
    ensures forall k | 0 < k < |s| :: ccc(Canonical(ccc, s)[k]) == 0 || ccc(Canonical(ccc, s)[k - 1]) <= ccc(Canonical(ccc, s)[k])
    decreases |s|
  {
    if s != [] {
      CanonicalIsOrdered(ccc, s[..|s| - 1]);
      InsertOrdered(ccc, Canonical(ccc, s[..|s| - 1]), s[|s| - 1]);
    }
  }

  /** What is in order stays as it is. */
  lemma {:induction false} OrderedIsCanonical(ccc: Classes, s: seq<CodePoint>)
    requires Ordered(ccc, s)
    ensures Canonical(ccc, s) == s
    decreases |s|
  {
    if s != [] {
      OrderedLast(ccc, s);
      OrderedIsCanonical(ccc, s[..|s| - 1]);
      assert s == s[..|s| - 1] + [s[|s| - 1]];
    }
  }

  /** Starters keep their places, and only they are where they were. */
  lemma {:induction false} StartersStay(ccc: Classes, s: seq<CodePoint>, k: nat)
    requires k < |s| && (ccc(s[k]) == 0 || ccc(Canonical(ccc, s)[k]) == 0)
    ensures Canonical(ccc, s)[k] == s[k]
    decreases |s|
  {
    var t := s[..|s| - 1];
    InsertKeepsStarters(ccc, Canonical(ccc, t), s[|s| - 1], k);
    if k < |t| {
      StartersStay(ccc, t, k);
    }
  }

  lemma {:induction false} InsertKeepsStarters(ccc: Classes, s: seq<CodePoint>, x: CodePoint, k: nat)
    requires k <= |s|
    ensures k < |s| && (ccc(s[k]) == 0 || ccc(Insert(ccc, s, x)[k]) == 0) ==> Insert(ccc, s, x)[k] == s[k]
    ensures k == |s| && (ccc(x) == 0 || ccc(Insert(ccc, s, x)[k]) == 0) ==> Insert(ccc, s, x)[k] == x
    decreases |s|
  {
    if s != [] && Reorderable(ccc, s[|s| - 1], x) && k < |s| {
      InsertKeepsStarters(ccc, s[..|s| - 1], x, k);
    }
  }

  /** The code points of one class, in order. */
  function OfClass(ccc: Classes, s: seq<CodePoint>, class_: nat): seq<CodePoint> {
    if s == [] then []
    else OfClass(ccc, s[..|s| - 1], class_) + if ccc(s[|s| - 1]) == class_ then [s[|s| - 1]] else []
  }

  lemma {:induction false} InsertIsStable(ccc: Classes, s: seq<CodePoint>, x: CodePoint, class_: nat)
    ensures OfClass(ccc, Insert(ccc, s, x), class_) == OfClass(ccc, s, class_) + if ccc(x) == class_ then [x] else []
    decreases |s|
  {
    var r := Insert(ccc, s, x);
    if s == [] || !Reorderable(ccc, s[|s| - 1], x) {
      assert r[..|r| - 1] == s;
    } else {
      assert r[..|r| - 1] == Insert(ccc, s[..|s| - 1], x);
      InsertIsStable(ccc, s[..|s| - 1], x, class_);
    }
  }

  /** Code points of the same class keep their order. */
  lemma {:induction false} CanonicalIsStable(ccc: Classes, s: seq<CodePoint>, class_: nat)
    ensures OfClass(ccc, Canonical(ccc, s), class_) == OfClass(ccc, s, class_)
    decreases |s|
  {
    if s != [] {
      CanonicalIsStable(ccc, s[..|s| - 1], class_);
      InsertIsStable(ccc, Canonical(ccc, s[..|s| - 1]), s[|s| - 1], class_);
    }
  }

  /** Nothing is inserted in front of a starter. */
  lemma {:induction false} InsertBehind(ccc: Classes, s: seq<CodePoint>, x: CodePoint, k: nat)
    requires k < |s| && ccc(s[k]) == 0
    ensures Insert(ccc, s, x)[..k + 1] == s[..k + 1]
    decreases |s|
  {
    var n := |s| - 1;
    if k < n && Reorderable(ccc, s[n], x) {
      InsertBehind(ccc, s[..n], x, k);
      assert Insert(ccc, s[..n], x)[..k + 1] == s[..n][..k + 1] == s[..k + 1];
    }
  }

  /** Starters divide: what is in front of one is ordered for itself, and nothing moves across it. */
  lemma {:induction false} StartersDivide(ccc: Classes, s: seq<CodePoint>, k: nat)
    requires k < |s| && ccc(s[k]) == 0
    ensures Canonical(ccc, s)[..k] == Canonical(ccc, s[..k]) && Canonical(ccc, s)[k] == s[k]
    decreases |s|
  {
    hide Insert, Canonical;
    var n := |s| - 1;
    var t := Canonical(ccc, s[..n]);
    CanonicalLast(ccc, s);
    if k < n {
      StartersDivide(ccc, s[..n], k);
      assert s[..n][..k] == s[..k];
      InsertBehind(ccc, t, s[n], k);
      assert Insert(ccc, t, s[n])[..k] == Insert(ccc, t, s[n])[..k + 1][..k] == t[..k];
      assert Insert(ccc, t, s[n])[k] == Insert(ccc, t, s[n])[..k + 1][k] == t[k];
    } else {
      InsertStarter(ccc, t, s[n]);
    }
  }

  lemma InsertStarter(ccc: Classes, s: seq<CodePoint>, x: CodePoint)
    requires ccc(x) == 0
    ensures Insert(ccc, s, x) == s + [x]
  {
  }

  // ----- Swapping two code points that are in the wrong order -----

  lemma {:induction false} InsertCommutes(ccc: Classes, s: seq<CodePoint>, x: CodePoint, y: CodePoint)
    requires Reorderable(ccc, x, y)
    ensures Insert(ccc, Insert(ccc, s, x), y) == Insert(ccc, Insert(ccc, s, y), x)
    decreases |s|
  {
    var sx, sy := Insert(ccc, s, x), Insert(ccc, s, y);
    if s != [] && Reorderable(ccc, s[|s| - 1], x) {
      var t := s[..|s| - 1];
      InsertCommutes(ccc, t, x, y);
      assert sx[..|s|] == Insert(ccc, t, x) && sy[..|s|] == Insert(ccc, t, y);
    } else {
      assert sx[..|s|] == s;
    }
  }

  function Swapped(s: seq<CodePoint>, i: nat): seq<CodePoint>
    requires i + 1 < |s|
  {
    s[i := s[i + 1]][i + 1 := s[i]]
  }

  lemma CanonicalOfTwo(ccc: Classes, t: seq<CodePoint>, x: CodePoint, y: CodePoint)
    ensures Canonical(ccc, t + [x] + [y]) == Insert(ccc, Insert(ccc, Canonical(ccc, t), x), y)
  {
    hide Insert;
    var s := t + [x] + [y];
    assert s[..|s| - 1] == t + [x] && (t + [x])[..|t|] == t;
  }

  /** The swap does not change the canonical ordering. */
  lemma {:induction false} SwapKeepsCanonical(ccc: Classes, s: seq<CodePoint>, i: nat)
    requires i + 1 < |s| && Reorderable(ccc, s[i], s[i + 1])
    ensures Canonical(ccc, Swapped(s, i)) == Canonical(ccc, s)
    decreases |s|
  {
    hide Insert, Reorderable, Canonical;
    var n, r := |s| - 1, Swapped(s, i);
    if i + 1 == n {
      var t := s[..i];
      assert s == t + [s[i]] + [s[n]] && r == t + [s[n]] + [s[i]];
      CanonicalOfTwo(ccc, t, s[i], s[n]);
      CanonicalOfTwo(ccc, t, s[n], s[i]);
      InsertCommutes(ccc, Canonical(ccc, t), s[i], s[n]);
    } else {
      assert r[..n] == Swapped(s[..n], i);
      SwapKeepsCanonical(ccc, s[..n], i);
      CanonicalLast(ccc, s);
      CanonicalLast(ccc, r);
    }
  }

  lemma CanonicalLast(ccc: Classes, s: seq<CodePoint>)
    requires s != []
    ensures Canonical(ccc, s) == Insert(ccc, Canonical(ccc, s[..|s| - 1]), s[|s| - 1])
  {
  }

  // ----- The measure: how many pairs are in the wrong order -----

  function Before(ccc: Classes, s: seq<CodePoint>, y: CodePoint): nat {
    if s == [] then 0 else Before(ccc, s[..|s| - 1], y) + if Reorderable(ccc, s[|s| - 1], y) then 1 else 0
  }

  function Inversions(ccc: Classes, s: seq<CodePoint>): nat {
    if s == [] then 0 else Inversions(ccc, s[..|s| - 1]) + Before(ccc, s[..|s| - 1], s[|s| - 1])
  }

  lemma {:induction false} SwapKeepsBefore(ccc: Classes, s: seq<CodePoint>, i: nat, y: CodePoint)
    requires i + 1 < |s|
    ensures Before(ccc, Swapped(s, i), y) == Before(ccc, s, y)
    decreases |s|
  {
    var n, r := |s| - 1, Swapped(s, i);
    if i + 1 == n {
      assert s[..n][..i] == r[..n][..i] && r[..n][i] == s[n];
    } else {
      assert r[..n] == Swapped(s[..n], i);
      SwapKeepsBefore(ccc, s[..n], i, y);
    }
  }

  /** The swap puts exactly one pair in order. */
  lemma {:induction false} SwapRemovesInversion(ccc: Classes, s: seq<CodePoint>, i: nat)
    requires i + 1 < |s| && Reorderable(ccc, s[i], s[i + 1])
    ensures Inversions(ccc, Swapped(s, i)) == Inversions(ccc, s) - 1
    decreases |s|
  {
    var n, r := |s| - 1, Swapped(s, i);
    if i + 1 == n {
      var t := s[..i];
      assert s[..n][..i] == t && r[..n][..i] == t && r[..n][i] == s[n] && s[..n][i] == s[i];
    } else {
      assert r[..n] == Swapped(s[..n], i);
      SwapRemovesInversion(ccc, s[..n], i);
      SwapKeepsBefore(ccc, s[..n], i, s[n]);
    }
  }

  // ----- The loop -----

  /** Sorts the buffer in place. It steps back after each swap. */
  method Reorder(ccc: Classes, buffer: array<CodePoint>)
    modifies buffer
    ensures buffer[..] == Canonical(ccc, old(buffer[..]))
  {
    hide Canonical, Inversions;
    var pos := 0;
    while pos < buffer.Length - 1
      invariant 0 <= pos && (pos < buffer.Length || buffer.Length == 0 == pos)
      invariant Canonical(ccc, buffer[..]) == Canonical(ccc, old(buffer[..]))
      invariant forall k | 0 < k <= pos && k < buffer.Length :: !Reorderable(ccc, buffer[k - 1], buffer[k])
      decreases Inversions(ccc, buffer[..]), buffer.Length - pos
    {
      var uc1, uc2 := buffer[pos], buffer[pos + 1];
      if ccc(uc1) > ccc(uc2) && ccc(uc2) > 0 {
        SwapKeepsCanonical(ccc, buffer[..], pos);
        SwapRemovesInversion(ccc, buffer[..], pos);
        ghost var swapped := Swapped(buffer[..], pos);
        buffer[pos], buffer[pos + 1] := uc2, uc1;
        assert buffer[..] == swapped;
        if pos > 0 { pos := pos - 1; } else { pos := pos + 1; }
      } else {
        pos := pos + 1;
      }
    }
    OrderedIsCanonical(ccc, buffer[..]);
  }
}
