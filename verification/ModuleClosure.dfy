/** Bootstrapping: the registered modules are expanded to everything they pull in, sorted
    by precedence, and their options are collected, priority options first.
 */
module ModuleClosure {
  import opened Ordering
  import opened Collections

  type Id = nat
  type Opt = nat

  datatype Module = Module(precedence: int, priorityOptions: seq<Opt>, options: seq<Opt>, modules: seq<Id>)

  /** The modules of the program; a module may pull in others, in cycles as well. */
  type Graph = map<Id, Module>

  ghost predicate Closed(graph: Graph, s: set<Id>) {
    forall m | m in s :: m in graph && forall n | n in graph[m].modules :: n in s
  }

  ghost predicate IsPath(graph: Graph, p: seq<Id>) {
    p != [] && forall i | 0 <= i < |p| - 1 :: p[i] in graph && p[i + 1] in graph[p[i]].modules
  }

  ghost predicate Reachable(graph: Graph, roots: set<Id>, m: Id) {
    exists p :: IsPath(graph, p) && p[0] in roots && p[|p| - 1] == m
  }

  lemma RootReachable(graph: Graph, roots: set<Id>, m: Id)
    requires m in roots
    ensures Reachable(graph, roots, m)
  {
    assert IsPath(graph, [m]);
  }

  lemma NextReachable(graph: Graph, roots: set<Id>, m: Id, n: Id)
    requires Reachable(graph, roots, m) && m in graph && n in graph[m].modules
    ensures Reachable(graph, roots, n)
  {
    var p :| IsPath(graph, p) && p[0] in roots && p[|p| - 1] == m;
    var q := p + [n];
    assert forall i | 0 <= i < |q| - 1 :: q[i] == p[i];
    assert IsPath(graph, q);
  }

  /** A closed set that holds the roots holds whatever they reach. */
  lemma {:induction false} ClosedHoldsPath(graph: Graph, s: set<Id>, p: seq<Id>)
    requires Closed(graph, s) && IsPath(graph, p) && p[0] in s
    ensures p[|p| - 1] in s
    decreases |p|
  {
    if |p| > 1 {
      var q := p[1..];
      assert forall i | 0 <= i < |q| :: q[i] == p[i + 1];
      assert p[1] in graph[p[0]].modules;
      ClosedHoldsPath(graph, s, q);
    }
  }

  /** One pass over the set while it grows: entries added during the pass may or may not
      be visited in it. */
  method ExpandOnce(graph: Graph, before: set<Id>, ghost roots: set<Id>) returns (resolved: set<Id>)
    requires before <= graph.Keys && Closed(graph, graph.Keys)
    requires forall m | m in before :: Reachable(graph, roots, m)
    ensures before <= resolved <= graph.Keys
    ensures forall m | m in resolved :: Reachable(graph, roots, m)
    ensures forall m | m in before :: SetOf(graph[m].modules) <= resolved
  {
    resolved := before;
    var todo := before;
    while todo != {}
      invariant before <= resolved <= graph.Keys && todo <= resolved
      invariant forall m | m in resolved :: Reachable(graph, roots, m)
      invariant forall m | m in before :: m in todo || SetOf(graph[m].modules) <= resolved
      decreases |graph.Keys - resolved|, |todo|
    {
      var m :| m in todo;
      var added := SetOf(graph[m].modules) - resolved;
      forall n | n in added
        ensures Reachable(graph, roots, n)
      {
        NextReachable(graph, roots, m, n);
      }
      var alsoVisited: set<Id> :| alsoVisited <= added;
      ghost var left := graph.Keys - resolved;
      todo := todo - {m};
      resolved := resolved + added;
      todo := todo + alsoVisited;
      SubsetSize(graph.Keys - resolved, left);
      if alsoVisited != {} {
        var n :| n in alsoVisited;
        assert n in left && n !in graph.Keys - resolved;
      }
    }
  }

  /** The fixpoint loop, for every graph and every order of iteration: exactly the modules
      reachable from the roots. */
  method Expand(graph: Graph, roots: set<Id>) returns (resolved: set<Id>)
    requires roots <= graph.Keys && Closed(graph, graph.Keys)
    ensures resolved <= graph.Keys
    ensures forall m :: m in resolved <==> Reachable(graph, roots, m)
  {
    resolved := roots;
    forall m | m in roots
      ensures Reachable(graph, roots, m)
    {
      RootReachable(graph, roots, m);
    }
    var changed := true;
    while changed
      invariant roots <= resolved <= graph.Keys
      invariant forall m | m in resolved :: Reachable(graph, roots, m)
      invariant !changed ==> Closed(graph, resolved)
      decreases changed, |graph.Keys - resolved|
    {
      var before := resolved;
      resolved := ExpandOnce(graph, before, roots);
      changed := |before| != |resolved|;
      SubsetSize(before, resolved);
      SubsetSize(graph.Keys - resolved, graph.Keys - before);
      if !changed {
        assert Closed(graph, resolved) by {
          forall m | m in resolved
            ensures forall n | n in graph[m].modules :: n in resolved
          {
            assert SetOf(graph[m].modules) <= resolved;
            assert forall n | n in graph[m].modules :: n in SetOf(graph[m].modules);
          }
        }
      }
    }
    forall m | Reachable(graph, roots, m)
      ensures m in resolved
    {
      var p :| IsPath(graph, p) && p[0] in roots && p[|p| - 1] == m;
      ClosedHoldsPath(graph, resolved, p);
    }
  }

  /***************************** Options *****************************/

  /** The elements of a set in some order. */
  method Values(s: set<Id>) returns (list: seq<Id>)
    ensures Distinct(list) && forall x :: x in list <==> x in s
  {
    list := [];
    var rest := s;
    while rest != {}
      invariant rest <= s && Distinct(list)
      invariant forall x :: x in list <==> x in s && x !in rest
      decreases |rest|
    {
      var m :| m in rest;
      assert m !in list;
      list := list + [m];
      rest := rest - {m};
    }
  }

  function Precedence(graph: Graph, m: Id): int {
    if m in graph then graph[m].precedence else 0
  }

  function ByPrecedence(graph: Graph): (Id, Id) -> bool {
    (a: Id, b: Id) => !(Precedence(graph, b) < Precedence(graph, a))
  }

  /** What each module of a list gives, one after the other. */
  function Collected(list: seq<Id>, give: Id -> seq<Opt>): seq<Opt> {
    if list == [] then []
    else
      var n := |list| - 1;
      Collected(list[..n], give) + give(list[n])
  }

  lemma CollectedOne(m: Id, give: Id -> seq<Opt>)
    ensures Collected([m], give) == give(m)
  {
    assert [m][..0] == [];
    EmptyLeft(give(m));
  }

  /** Whatever the list is cut into, the parts give what the list gives, in order. */
  lemma {:induction false} CollectedConcat(a: seq<Id>, b: seq<Id>, give: Id -> seq<Opt>)
    ensures Collected(a + b, give) == Collected(a, give) + Collected(b, give)
    decreases |b|
  {
    if b == [] {
      EmptyRight(a);
      EmptyRight(Collected(a, give));
    } else {
      var init, m := b[..|b| - 1], b[|b| - 1];
      assert b == init + [m];
      calc {
        Collected(a + b, give);
        { Regroup(a, init, [m]); CollectedMore(a + init, m, give); }
        Collected(a + init, give) + give(m);
        { CollectedConcat(a, init, give); Regroup(Collected(a, give), Collected(init, give), give(m)); }
        Collected(a, give) + (Collected(init, give) + give(m));
        { CollectedMore(init, m, give); }
        Collected(a, give) + Collected(b, give);
      }
    }
  }

  lemma CollectedMore(list: seq<Id>, m: Id, give: Id -> seq<Opt>)
    ensures Collected(list + [m], give) == Collected(list, give) + give(m)
  {
    assert (list + [m])[..|list|] == list;
  }

  /** Every reachable module contributes its options exactly once, in precedence order, and
      all priority options come before all regular ones. */
  method NewApp(graph: Graph, roots: set<Id>) returns (options: seq<Opt>, order: seq<Id>)
    requires roots <= graph.Keys && Closed(graph, graph.Keys)
    ensures Distinct(order)
    ensures forall m :: m in order <==> Reachable(graph, roots, m)
    ensures forall m | m in order :: m in graph
    ensures forall i, j | 0 <= i < j < |order| :: graph[order[i]].precedence <= graph[order[j]].precedence
    ensures options == Collected(order, (m: Id) => if m in graph then graph[m].priorityOptions else []) +
                       Collected(order, (m: Id) => if m in graph then graph[m].options else [])
  {
    var resolved := Expand(graph, roots);
    order := SortModules(graph, resolved);
    options := CollectOptions(graph, order);
  }

  method SortModules(graph: Graph, resolved: set<Id>) returns (modules: seq<Id>)
    requires resolved <= graph.Keys
    ensures Distinct(modules) && forall m :: m in modules <==> m in resolved
    ensures forall i, j | 0 <= i < j < |modules| :: graph[modules[i]].precedence <= graph[modules[j]].precedence
  {
    var list := Values(resolved);
    var le := ByPrecedence(graph);
    modules := StableSort(list, le);
    PermutedDistinct(list, modules);
    StableSortSorts(list, le);
    forall i, j | 0 <= i < j < |modules|
      ensures graph[modules[i]].precedence <= graph[modules[j]].precedence
    {
      assert le(modules[i], modules[j]);
    }
  }

  method CollectOptions(graph: Graph, modules: seq<Id>) returns (options: seq<Opt>)
    requires forall m | m in modules :: m in graph
    ensures options == Collected(modules, (m: Id) => if m in graph then graph[m].priorityOptions else []) +
                       Collected(modules, (m: Id) => if m in graph then graph[m].options else [])
  {
    options := CollectPriority(graph, modules);
    options := CollectRegular(graph, modules, options);
  }

  method CollectPriority(graph: Graph, modules: seq<Id>) returns (options: seq<Opt>)
    requires forall m | m in modules :: m in graph
    ensures options == Collected(modules, (m: Id) => if m in graph then graph[m].priorityOptions else [])
  {
    ghost var give := (m: Id) => if m in graph then graph[m].priorityOptions else [];
    options := [];
    for i := 0 to |modules|
      invariant options == Collected(modules[..i], give)
    {
      OneMoreGives(modules, i, give);
      options := options + graph[modules[i]].priorityOptions;
    }
    assert modules[..|modules|] == modules;
  }

  method CollectRegular(graph: Graph, modules: seq<Id>, before: seq<Opt>) returns (options: seq<Opt>)
    requires forall m | m in modules :: m in graph
    ensures options == before + Collected(modules, (m: Id) => if m in graph then graph[m].options else [])
  {
    ghost var give := (m: Id) => if m in graph then graph[m].options else [];
    options := before;
    for i := 0 to |modules|
      invariant options == before + Collected(modules[..i], give)
    {
      OneMoreGives(modules, i, give);
      Regroup(before, Collected(modules[..i], give), give(modules[i]));
      options := options + graph[modules[i]].options;
    }
    assert modules[..|modules|] == modules;
  }

  lemma OneMoreGives(modules: seq<Id>, i: nat, give: Id -> seq<Opt>)
    requires i < |modules|
    ensures modules[i] in modules
    ensures Collected(modules[..i + 1], give) == Collected(modules[..i], give) + give(modules[i])
  {
    assert modules[..i + 1] == modules[..i] + [modules[i]];
    CollectedMore(modules[..i], modules[i], give);
  }
}
