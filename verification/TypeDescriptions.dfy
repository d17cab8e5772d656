/**
 Run-time type descriptions: types and their generic arguments, flattened in preorder, and the
 loops that walk them with cursors.
 */
module TypeDescriptions {

  /** What an entry points to. Entries are of the same type exactly if they point to the same record. */
  datatype TypeInfo = TypeInfo(id: nat, paramCount: nat, paramOffset: nat)

  datatype Entry = Entry(rtti: TypeInfo, optional: bool, valueWitness: nat)

  /** Types in a row. The arguments of a type begin with those to its superclass; its own follow. */
  datatype Types = End | Type(entry: Entry, args: Types, next: Types)

  function Count(ts: Types): nat {
    if ts.End? then 0 else 1 + Count(ts.next)
  }

  /** The types after the first k. */
  function Drop(ts: Types, k: nat): (r: Types)
    ensures r == ts || r < ts
  {
    if k == 0 || ts.End? then ts else Drop(ts.next, k - 1)
  }

  function Append(ts: Types, us: Types): Types {
    if ts.End? then us else Type(ts.entry, ts.args, Append(ts.next, us))
  }

  /** Every type has as many arguments as its information says. */
  predicate Complete(ts: Types) {
    ts.End? ||
    (Count(ts.args) == ts.entry.rtti.paramOffset + ts.entry.rtti.paramCount && Complete(ts.args) && Complete(ts.next))
  }

  /** The preorder: a type, its arguments, and then the next type. */
  function Flatten(ts: Types): seq<Entry> {
    if ts.End? then [] else [ts.entry] + Flatten(ts.args) + Flatten(ts.next)
  }

  function Size(ts: Types): nat {
    if ts.End? then 0 else 1 + Size(ts.args) + Size(ts.next)
  }

  /** The entries at a cursor describe these types. */
  predicate Describes(memory: seq<Entry>, at: nat, ts: Types)
    decreases ts
  {
    at <= |memory| &&
    (ts.End? ||
     (at < |memory| && memory[at] == ts.entry && Describes(memory, at + 1, ts.args)
      && Describes(memory, at + 1 + Size(ts.args), ts.next)))
  }

  /** Memory describes types exactly if it holds their flattened form, whatever follows it. */
  lemma {:induction false} DescribedIsFlattened(memory: seq<Entry>, at: nat, ts: Types)
    ensures |Flatten(ts)| == Size(ts)
    ensures Describes(memory, at, ts) <==> at + Size(ts) <= |memory| && memory[at..at + Size(ts)] == Flatten(ts)
    decreases ts
  {
    if ts.Type? {
      DescribedIsFlattened(memory, at + 1, ts.args);
      DescribedIsFlattened(memory, at + 1 + Size(ts.args), ts.next);
      if at + Size(ts) <= |memory| {
        SliceInThree(memory, at, ts.entry, Flatten(ts.args), Flatten(ts.next));
      }
    }
  }

  lemma SliceInThree(memory: seq<Entry>, at: nat, e: Entry, a: seq<Entry>, b: seq<Entry>)
    requires at + 1 + |a| + |b| <= |memory|
    ensures memory[at..at + 1 + |a| + |b|] == [e] + a + b <==>
            memory[at] == e && memory[at + 1..at + 1 + |a|] == a && memory[at + 1 + |a|..at + 1 + |a| + |b|] == b
  {
    var m, f := memory[at..at + 1 + |a| + |b|], [e] + a + b;
    assert m == [memory[at]] + memory[at + 1..at + 1 + |a|] + memory[at + 1 + |a|..at + 1 + |a| + |b|];
    assert f[0] == e && f[1..1 + |a|] == a && f[1 + |a|..] == b;
    assert m[0] == memory[at] && m[1..1 + |a|] == memory[at + 1..at + 1 + |a|];
    assert m[1 + |a|..] == memory[at + 1 + |a|..at + 1 + |a| + |b|];
  }

  lemma {:induction false} AppendDescribed(memory: seq<Entry>, at: nat, ts: Types, us: Types)
    ensures Size(Append(ts, us)) == Size(ts) + Size(us) && Count(Append(ts, us)) == Count(ts) + Count(us)
    ensures Complete(Append(ts, us)) <==> Complete(ts) && Complete(us)
    ensures Describes(memory, at, ts) && Describes(memory, at + Size(ts), us) ==> Describes(memory, at, Append(ts, us))
    decreases ts
  {
    if ts.Type? {
      AppendDescribed(memory, at + 1 + Size(ts.args), ts.next, us);
    }
  }

  /**
   The number of entries of the type at a cursor. The loop counts the arguments of every entry it
   has counted so far; it never looks behind the first type.
   */
  method TypeDescriptionLength(memory: seq<Entry>, arg: nat, ghost t: Types) returns (count: nat)
    requires Count(t) == 1 && Complete(t) && Describes(memory, arg, t)
    ensures count == Size(t)
  {
    ghost var pending := t;
    count := 1;
    var i := 0;
    while i < count
      invariant i + Count(pending) == count && Complete(pending)
      invariant i + Size(pending) == Size(t) && Describes(memory, arg + i, pending)
      decreases Size(pending)
    {
      AppendDescribed(memory, arg + i + 1, pending.args, pending.next);
      count := count + memory[arg + i].rtti.paramOffset + memory[arg + i].rtti.paramCount;
      pending := Append(pending.args, pending.next);
      i := i + 1;
    }
  }

  // ----- Comparing generic arguments -----

  /** The entry at a cursor, behind it the arguments, and behind them the next type. */
  lemma OpenType(memory: seq<Entry>, at: nat, ts: Types)
    requires Count(ts) > 0 && Complete(ts) && Describes(memory, at, ts)
    ensures ts.Type? && at < |memory| && memory[at] == ts.entry
    ensures Describes(memory, at + 1, ts.args) && Complete(ts.args)
    ensures Count(ts.args) == ts.entry.rtti.paramOffset + ts.entry.rtti.paramCount
    ensures Size(ts) == 1 + Size(ts.args) + Size(ts.next) && Count(ts) == 1 + Count(ts.next)
    ensures Describes(memory, at + 1 + Size(ts.args), ts.next) && Complete(ts.next)
    ensures Describes(memory, at, First(ts)) && Complete(First(ts)) && Count(First(ts)) == 1
    ensures Size(First(ts)) == 1 + Size(ts.args)
  {
  }

  function First(ts: Types): Types {
    if ts.End? then End else Type(ts.entry, ts.args, End)
  }

  function Own(ts: Types): Types
    requires ts.Type?
  {
    Drop(ts.args, ts.entry.rtti.paramOffset)
  }

  /** Own arguments are all behind the inherited ones. */
  lemma {:induction false} OwnFollow(entry: Entry, inherited: Types, own: Types, next: Types)
    requires Count(inherited) == entry.rtti.paramOffset
    ensures Own(Type(entry, Append(inherited, own), next)) == own
  {
    DropAppended(inherited, own);
  }

  lemma {:induction false} DropAppended(ts: Types, us: Types)
    ensures Drop(Append(ts, us), Count(ts)) == us
  {
    if ts.Type? { DropAppended(ts.next, us); }
  }

  /** Types agree if they are the same, both optional or not, and their own arguments agree. */
  predicate Agree(ts: Types, us: Types) {
    match (ts, us)
    case (End, End) => true
    case (Type(e, _, next), Type(f, _, next')) =>
      e.rtti == f.rtti && e.optional == f.optional && Agree(Own(ts), Own(us)) && Agree(next, next')
    case _ => false
  }

  /** Moves both cursors over the arguments to the superclass. */
  method SkipInherited(l: seq<Entry>, argl: nat, r: seq<Entry>, argr: nat, argsOffset: nat, ghost ts: Types, ghost us: Types)
      returns (endl: nat, endr: nat)
    requires Count(ts) >= argsOffset && Count(us) >= argsOffset && Complete(ts) && Complete(us)
    requires Describes(l, argl, ts) && Describes(r, argr, us)
    ensures endl + Size(Drop(ts, argsOffset)) == argl + Size(ts) && Describes(l, endl, Drop(ts, argsOffset))
    ensures endr + Size(Drop(us, argsOffset)) == argr + Size(us) && Describes(r, endr, Drop(us, argsOffset))
    ensures Complete(Drop(ts, argsOffset)) && Count(Drop(ts, argsOffset)) == Count(ts) - argsOffset
    ensures Complete(Drop(us, argsOffset)) && Count(Drop(us, argsOffset)) == Count(us) - argsOffset
  {
    hide Size, Count, Complete, Describes;
    endl, endr := argl, argr;
    ghost var x, y := ts, us;
    for i := 0 to argsOffset
      invariant Drop(x, argsOffset - i) == Drop(ts, argsOffset) && Drop(y, argsOffset - i) == Drop(us, argsOffset)
      invariant Count(x) == Count(ts) - i && Count(y) == Count(us) - i && Complete(x) && Complete(y)
      invariant endl + Size(x) == argl + Size(ts) && Describes(l, endl, x)
      invariant endr + Size(y) == argr + Size(us) && Describes(r, endr, y)
    {
      OpenType(l, endl, x);
      OpenType(r, endr, y);
      var lengthl := TypeDescriptionLength(l, endl, First(x));
      var lengthr := TypeDescriptionLength(r, endr, First(y));
      endl, endr := endl + lengthl, endr + lengthr;
      x, y := x.next, y.next;
    }
  }

  /** Compares the own arguments behind the inherited ones. */
  method CheckGenericArgs(l: seq<Entry>, argl: nat, r: seq<Entry>, argr: nat, argsCount: nat, argsOffset: nat,
                          ghost ts: Types, ghost us: Types)
      returns (agree: bool, endl: nat, endr: nat)
    requires Count(ts) == Count(us) == argsOffset + argsCount && Complete(ts) && Complete(us)
    requires Describes(l, argl, ts) && Describes(r, argr, us)
    ensures agree <==> Agree(Drop(ts, argsOffset), Drop(us, argsOffset))
    ensures agree ==> endl == argl + Size(ts) && endr == argr + Size(us)
    decreases ts
  {
    hide Size, Count, Complete, Describes, Drop, Agree;
    endl, endr := SkipInherited(l, argl, r, argr, argsOffset, ts, us);
    ghost var x, y := Drop(ts, argsOffset), Drop(us, argsOffset);
    for i := 0 to argsCount
      invariant Agree(Drop(ts, argsOffset), Drop(us, argsOffset)) <==> Agree(x, y)
      invariant Count(x) == Count(y) == argsCount - i && Complete(x) && Complete(y)
      invariant endl + Size(x) == argl + Size(ts) && Describes(l, endl, x) && (x == ts || x < ts)
      invariant endr + Size(y) == argr + Size(us) && Describes(r, endr, y)
    {
      OpenType(l, endl, x);
      OpenType(r, endr, y);
      AgreeFirst(x, y);
      var a, b := l[endl], r[endr];
      endl, endr := endl + 1, endr + 1;
      if a.rtti != b.rtti || a.optional != b.optional {
        return false, endl, endr;
      }
      agree, endl, endr := CheckGenericArgs(l, endl, r, endr, a.rtti.paramCount, a.rtti.paramOffset, x.args, y.args);
      if !agree {
        return;
      }
      x, y := x.next, y.next;
    }
    agree := true;
    NoneLeft(x, y);
  }

  lemma AgreeFirst(ts: Types, us: Types)
    requires ts.Type? && us.Type?
    ensures Agree(ts, us) <==> ts.entry.rtti == us.entry.rtti && ts.entry.optional == us.entry.optional &&
                               Agree(Own(ts), Own(us)) && Agree(ts.next, us.next)
  {
    hide Drop;
  }

  lemma NoneLeft(ts: Types, us: Types)
    requires Count(ts) == Count(us) == 0
    ensures Agree(ts, us) && Size(ts) == Size(us) == 0
  {
  }

  /** Moves over whole types. */
  method IndexTypeDescription(memory: seq<Entry>, arg: nat, index: nat, ghost ts: Types) returns (at: nat)
    requires index < Count(ts) && Complete(ts) && Describes(memory, arg, ts)
    ensures at + Size(Drop(ts, index)) == arg + Size(ts) && Describes(memory, at, Drop(ts, index))
  {
    hide Size, Count, Complete, Describes;
    at := arg;
    ghost var x := ts;
    for i := 0 to index
      invariant Drop(x, index - i) == Drop(ts, index) && Count(x) == Count(ts) - i && Complete(x)
      invariant at + Size(x) == arg + Size(ts) && Describes(memory, at, x)
    {
      OpenType(memory, at, x);
      var length := TypeDescriptionLength(memory, at, First(x));
      at := at + length;
      x := x.next;
    }
  }

  // ----- What the comparison means -----

  /** Types without what the comparison ignores: inherited arguments and value witnesses. */
  datatype Erased = Nothing | Erased(rtti: TypeInfo, optional: bool, own: Erased, next: Erased)

  function Erase(ts: Types): Erased {
    if ts.End? then Nothing
    else Erased(ts.entry.rtti, ts.entry.optional, Erase(Own(ts)), Erase(ts.next))
  }

  /** Arguments agree exactly if they are equal but for what is ignored. */
  lemma {:induction false} AgreeIsEquality(ts: Types, us: Types)
    ensures Agree(ts, us) <==> Erase(ts) == Erase(us)
  {
    if ts.Type? && us.Type? {
      AgreeIsEquality(Own(ts), Own(us));
      AgreeIsEquality(ts.next, us.next);
    }
  }

  /** Entries describe only one row of types, so what the functions return depends on the entries alone. */
  lemma {:induction false} DescribedOnce(memory: seq<Entry>, at: nat, ts: Types, us: Types)
    requires Count(ts) == Count(us) && Complete(ts) && Complete(us)
    requires Describes(memory, at, ts) && Describes(memory, at, us)
    ensures ts == us
    decreases ts
  {
    if ts.Type? {
      DescribedOnce(memory, at + 1, ts.args, us.args);
      DescribedOnce(memory, at + 1 + Size(ts.args), ts.next, us.next);
    }
  }
}
