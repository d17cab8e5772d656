/** Type values and multiprotocol tables: one copy for the life of the program for equal contents. */
module Interning {
  import opened TypeDescriptions

  /** The copies are numbered in the order they were made. */
  ghost predicate Interned<T(!new)>(ids: map<seq<T>, nat>, copies: seq<seq<T>>) {
    && (forall key | key in ids :: ids[key] < |copies| && copies[ids[key]] == key)
    && (forall id: nat | id < |copies| :: copies[id] in ids && ids[copies[id]] == id)
  }

  /** Contents are equal exactly if the copies are the same. */
  lemma SameCopy<T(!new)>(ids: map<seq<T>, nat>, copies: seq<seq<T>>, a: nat, b: nat)
    requires Interned(ids, copies) && a < |copies| && b < |copies|
    ensures copies[a] == copies[b] <==> a == b
  {
    assert ids[copies[a]] == a && ids[copies[b]] == b;
  }

  class TypeValues {
    var descriptions: map<seq<Entry>, nat>
    var copies: seq<seq<Entry>>

    ghost predicate Valid()
      reads this
    {
      Interned(descriptions, copies)
    }

    constructor ()
      ensures Valid() && copies == []
    {
      descriptions, copies := map[], [];
    }

    /** The copy holds the entries of the type at the cursor, and is the only one that does. */
    method TypeValue(memory: seq<Entry>, arg: nat, ghost t: Types) returns (id: nat)
      requires Valid() && Count(t) == 1 && Complete(t) && Describes(memory, arg, t)
      modifies this
      ensures Valid() && id < |copies| && copies[id] == Flatten(t)
      ensures copies == if Flatten(t) in old(copies) then old(copies) else old(copies) + [Flatten(t)]
    {
      DescribedIsFlattened(memory, arg, t);
      var length := TypeDescriptionLength(memory, arg, t);
      var key: seq<Entry> := [];
      for i := 0 to length
        invariant key == memory[arg..arg + i]
      {
        key := key + [memory[arg + i]];
      }
      assert key == Flatten(t);
      if key !in descriptions {
        assert key !in copies;
        descriptions, copies := descriptions[key := |copies|], copies + [key];
      } else {
        assert copies[descriptions[key]] in copies;
      }
      id := descriptions[key];
    }
  }

  type Thread = nat

  /** A recent result of a thread. */
  datatype Recent = Recent(key: seq<nat>, table: nat)

  const CACHE_SIZE := 64

  class MultiprotocolTables {
    var tables: map<seq<nat>, nat>
    var contents: seq<seq<nat>>
    var caches: map<(Thread, nat), Recent>

    ghost predicate Valid()
      reads this
    {
      && Interned(tables, contents)
      && forall place | place in caches :: caches[place].key in tables && tables[caches[place].key] == caches[place].table
    }

    constructor ()
      ensures Valid() && contents == []
    {
      tables, contents, caches := map[], [], map[];
    }

    /** Wraps around like the 64-bit multiplication and addition. `mix` stands for the xor with the shifted hash. */
    method Place(conformances: seq<nat>, mix: nat -> nat) returns (place: nat)
      ensures place < CACHE_SIZE
    {
      var hash: nat := |conformances| % 0x1_0000_0000_0000_0000;
      for i := 0 to |conformances| {
        hash := (hash * 1099511628211 + conformances[i]) % 0x1_0000_0000_0000_0000;
      }
      place := mix(hash) % CACHE_SIZE;
    }

    /** Whether or not the thread remembers it, equal conformances give the same table, and different ones do not. */
    method Table(thread: Thread, conformances: seq<nat>, mix: nat -> nat) returns (table: nat)
      requires Valid()
      modifies this
      ensures Valid() && table < |contents| && contents[table] == conformances
      ensures contents == if conformances in old(contents) then old(contents) else old(contents) + [conformances]
    {
      var place := Place(conformances, mix);
      if (thread, place) in caches && caches[(thread, place)].key == conformances {
        table := caches[(thread, place)].table;
        assert contents[table] in contents;
        return;
      }
      if conformances !in tables {
        assert conformances !in contents;
        tables, contents := tables[conformances := |contents|], contents + [conformances];
      } else {
        assert contents[tables[conformances]] in contents;
      }
      table := tables[conformances];
      caches := caches[(thread, place) := Recent(conformances, table)];
    }
  }
}
