/** The loops that find left-recursive rules. */
module LeftRecursion {
  import opened Grammars

  /** Adds rules until nothing changes. */
  method FindNullable(g: Grammar) returns (nullable: set<Name>)
    ensures nullable == Nullable(g, CHECKED)
  {
    nullable := {};
    var changed := true;
    while changed
      invariant nullable <= Nullable(g, CHECKED)
      invariant !changed ==> ClosedNullable(g, nullable, CHECKED)
      decreases g.rules.Keys - nullable, changed
    {
      ghost var before := nullable;
      changed := false;
      var rest := g.rules.Keys;
      while rest != {}
        invariant rest <= g.rules.Keys && before <= nullable <= Nullable(g, CHECKED) && (changed <==> before != nullable)
        invariant forall name | name in g.rules && name !in rest && before == nullable ::
                    IsNullable(g.rules[name], nullable, CHECKED) ==> name in nullable
        decreases rest
      {
        var name :| name in rest;
        if name !in nullable && IsNullable(g.rules[name], nullable, CHECKED) {
          NullableMonotone(g.rules[name], nullable, Nullable(g, CHECKED), CHECKED);
          NullableIsClosed(g, CHECKED);
          nullable := nullable + {name};
          changed := true;
        }
        rest := rest - {name};
      }
    }
    NullableIsLeast(g, nullable, |g.rules|, CHECKED);
  }

  /** Searches everything that can be reached from a rule for the rule itself. */
  method ReachesItself(graph: map<Name, set<Name>>, start: Name, ghost g: Grammar) returns (found: bool)
    requires start in g.rules && graph.Keys == g.rules.Keys && forall name | name in graph :: graph[name] == Next(g, name, CHECKED)
    ensures found <==> Reaches(g, start, start, CHECKED)
  {
    var seen: set<Name> := {};
    var todo := graph[start];
    forall name | name in todo ensures Reaches(g, start, name, CHECKED) {
      ReachesNext(g, start, name, CHECKED);
    }
    while todo != {}
      invariant seen <= g.rules.Keys && todo <= g.rules.Keys && start !in seen
      invariant graph[start] <= seen + todo
      invariant forall name | name in seen :: Next(g, name, CHECKED) <= seen + todo
      invariant forall name | name in todo :: Reaches(g, start, name, CHECKED)
      decreases g.rules.Keys - seen, todo
    {
      var name :| name in todo;
      todo := todo - {name};
      if name == start {
        return true;
      }
      if name !in seen {
        forall next | next in graph[name] ensures Reaches(g, start, next, CHECKED) {
          ReachesNext(g, name, next, CHECKED);
          ReachesTrans(g, start, name, next, CHECKED);
        }
        seen := seen + {name};
        todo := todo + graph[name];
      }
    }
    if Reaches(g, start, start, CHECKED) {
      var path :| PathFromTo(g, path, start, start, CHECKED);
      ReachesInto(g, seen, path, CHECKED);
    }
    return false;
  }

  /** Reports a rule exactly if matching it may get back to it without having matched anything. */
  method FindLeftRecursion(g: Grammar) returns (problems: set<Name>)
    ensures forall name :: name in problems <==> name in g.rules && Reaches(g, name, name, CHECKED)
  {
    var nullable := FindNullable(g);
    var graph := map name | name in g.rules :: Leftmost(g.rules[name], nullable, CHECKED) * g.rules.Keys;
    problems := {};
    var rest := g.rules.Keys;
    while rest != {}
      invariant rest <= g.rules.Keys
      invariant forall name :: name in problems <==> name in g.rules && name !in rest && Reaches(g, name, name, CHECKED)
      decreases rest
    {
      var start :| start in rest;
      var found := ReachesItself(graph, start, g);
      if found {
        problems := problems + {start};
      }
      rest := rest - {start};
    }
  }
}
