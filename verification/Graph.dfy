/** Dependency graphs: what a name depends on, directly and indirectly. */
module Graph {
  type Graph = map<string, seq<string>>

  /** Each name in the chain is a dependency of the one before it. */
  predicate Chain(g: Graph, chain: seq<string>) {
    forall i :: 0 <= i < |chain| - 1 ==> chain[i] in g && chain[i + 1] in g[chain[i]]
  }

  ghost predicate Reachable(g: Graph, start: string, name: string) {
    exists chain: seq<string> ::
      chain != [] && Chain(g, chain) && chain[0] == start && chain[|chain| - 1] == name
  }

  lemma ReachSelf(g: Graph, name: string)
    ensures Reachable(g, name, name)
  {
    var chain := [name];
    assert Chain(g, chain) && chain[0] == name && chain[|chain| - 1] == name;
  }

  lemma ReachThrough(g: Graph, start: string, dep: string, name: string)
    requires start in g && dep in g[start] && Reachable(g, dep, name)
    ensures Reachable(g, start, name)
  {
    var chain :| chain != [] && Chain(g, chain) && chain[0] == dep && chain[|chain| - 1] == name;
    var longer := [start] + chain;
    forall i | 0 <= i < |longer| - 1
      ensures longer[i] in g && longer[i + 1] in g[longer[i]]
    {
      if i > 0 {
        assert chain[i - 1] in g && chain[i - 1 + 1] in g[chain[i - 1]];
      }
    }
    assert Chain(g, longer);
  }

  /** The names exist and so do their dependencies, among the same names. */
  predicate Closed(g: Graph, names: set<string>) {
    forall a :: a in names ==> a in g && forall d :: d in g[a] ==> d in names
  }

  /** A set that contains its members' dependencies contains everything reachable from them. */
  lemma ClosedContains(g: Graph, names: set<string>, start: string, name: string)
    requires Closed(g, names) && start in names && Reachable(g, start, name)
    ensures name in names
  {
    var chain :| chain != [] && Chain(g, chain) && chain[0] == start && chain[|chain| - 1] == name;
    StaysInside(g, names, chain, |chain| - 1);
  }

  lemma {:induction false} StaysInside(g: Graph, names: set<string>, chain: seq<string>, i: nat)
    requires Closed(g, names) && Chain(g, chain) && i < |chain| && chain[0] in names
    ensures chain[i] in names
  {
    if i > 0 {
      StaysInside(g, names, chain, i - 1);
      assert chain[i - 1] in g && chain[i - 1 + 1] in g[chain[i - 1]];
    }
  }
}
