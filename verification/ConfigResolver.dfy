/** The resolver as it runs: a configuration whose leaves are rewritten in place. */
module ConfigResolver {
  import opened Text
  import opened Placeholder
  import opened Resolver
  import opened Resolution
  import opened Substitution
  import opened Collections
  import opened Cycles
  import opened CycleReports

  class Config {
    var source: Store

    constructor (leaves: Store)
      ensures source == leaves
    {
      source := leaves;
    }

    method ResolveValue(r: Run, key: string, visited: seq<string>) returns (res: Result)
      requires Shuffles(r) && Within(source, r.universe)
      modifies this
      ensures Outcome(source, res) == Resolver.ResolveValue(r, old(source), key, visited)
      decreases |r.universe - SetOf(visited) - {key}|, 1
    {
      var val := Lookup(source, r.norm(key));
      if val.Malformed? {
        return BadSyntax;
      }
      if !val.Str? {
        return Ok(val);
      }
      var phs := Placeholders(val.ts);
      if phs == [] {
        return Ok(val);
      }
      var path := visited + [key];
      var keys := seq(|phs|, i requires 0 <= i < |phs| => assert phs[i] in phs; phs[i].key);
      KeysMentioned(phs, keys, path);
      var repeated := Repeats(keys, path);
      if repeated {
        return Circular;
      }
      assert r.universe - SetOf(path) == r.universe - SetOf(visited) - {key};
      var es, why := GatherEntries(r, phs, path);
      if why != Ok(Nil) {
        return why;
      }
      var v: Value;
      if |val.ts| > 1 {
        var ts := ReplaceLoop(val.ts, r.shuffle(es));
        v := Str(ts);
      } else {
        assert phs[0] in val.ts;
        v := ValueFor(es, phs[0].key);
      }
      source := SetLeaf(source, r.norm(key), v);
      res := Ok(v);
    }

    /** The loop over the placeholders of one string. */
    method GatherEntries(r: Run, phs: seq<Token>, path: seq<string>) returns (es: seq<Entry>, why: Result)
      requires Shuffles(r) && Within(source, r.universe)
      requires forall ph | ph in phs :: ph.Ref? && ph.key in r.universe && ph.key !in path
      modifies this
      ensures ResolveAll(r, old(source), phs, path, []) ==
              if why == Ok(Nil) then Done(source, es) else Stop(source, why)
      decreases |r.universe - SetOf(path)|, 0
    {
      es, why := [], Ok(Nil);
      var n := 0;
      ghost var goal := ResolveAll(r, old(source), phs, path, []);
      while n < |phs|
        invariant 0 <= n <= |phs| && why == Ok(Nil)
        invariant Within(source, r.universe) && forall e | e in es :: RefsIn(e.value, r.universe)
        invariant goal == ResolveAll(r, source, phs[n..], path, es)
      {
        var ph := phs[n];
        OneMore(r, source, phs, n, path, es);
        var resolved := this.ResolveValue(r, ph.key, path);
        var chosen := Chosen(ph, resolved);
        if !chosen.Ok? {
          return es, chosen;
        }
        es := Extended(es, ph, chosen.value);
        n := n + 1;
      }
      assert phs[n..] == [];
    }

    /** Visits every leaf, in whatever order, and stops at the first error. */
    method Resolve(r: Run) returns (res: Result, ghost order: seq<string>)
      requires Shuffles(r) && Within(source, r.universe)
      modifies this
      ensures Outcome(source, res) == VisitAll(r, old(source), order)
      ensures IsVisitOf(order, old(source)) && Distinct(order) && (res.Ok? ==> Complete(order, old(source)))
    {
      var remaining := source.Keys;
      order := [];
      res := Ok(Nil);
      while remaining != {}
        invariant Within(source, r.universe) && res == Ok(Nil)
        invariant Outcome(source, res) == VisitAll(r, old(source), order)
        invariant Visited(order, old(source).Keys, remaining)
        decreases |remaining|
      {
        var k :| k in remaining;
        VisitedOneMore(order, old(source).Keys, remaining, k);
        VisitOneMore(r, old(source), order, k);
        remaining := remaining - {k};
        order := order + [k];
        var one := this.ResolveValue(r, k, []);
        if !one.Ok? {
          VisitedSoFar(order, old(source), remaining);
          return one, order;
        }
      }
      VisitedSoFar(order, old(source), remaining);
    }

    /** What a load ends with, whatever order its maps are iterated in. */
    method ResolveCleanly(r: Run, ghost g: Graph) returns (res: Result)
      requires Loadable(r, source) && r.norm == g.norm && Ranked(source, g) && WellFormed(source, g)
      requires Clean(source, g, PureValues(source, g))
      modifies this
      ensures res.Ok? <==> forall k | k in old(source) :: Pure(old(source), g, k).Some?
      ensures res.Ok? ==> source == Finals(old(source), g)
    {
      ghost var order;
      res, order := Resolve(r);
      CleanEnd(r, old(source), g, order);
    }

    /** Without malformed strings, a load succeeds or reports a circular reference: only if
        there is a cycle, always if there is one of references without default or a leaf
        mentions itself, and exactly then if no default refers towards a cycle. */
    method ResolveOrReportCycle(r: Run) returns (res: Result)
      requires Loadable(r, source) && NoMalformed(source)
      modifies this
      ensures res.Ok? || res.Circular?
      ensures res.Circular? ==> !Acyclic(old(source), r.norm)
      ensures !Acyclic(Bare(old(source)), r.norm) ==> res.Circular?
      ensures NormalKeys(r) && !Escapable(old(source), r.norm) ==> res.Circular?
      ensures SafeDefaults(old(source), r.norm) ==> (res.Circular? <==> !Acyclic(old(source), r.norm))
    {
      ghost var order;
      res, order := Resolve(r);
      LoadReports(r, old(source), order);
    }
  }

  lemma KeysMentioned(phs: seq<Token>, keys: seq<string>, path: seq<string>)
    requires (forall ph | ph in phs :: ph.Ref?) && |keys| == |phs|
    requires forall i | 0 <= i < |phs| :: phs[i] in phs && keys[i] == phs[i].key
    ensures (exists k :: k in keys && k in path) <==> exists ph :: ph in phs && ph.key in path
  {
    if ph :| ph in phs && ph.key in path {
      var i :| 0 <= i < |phs| && phs[i] == ph;
      assert keys[i] in keys;
    }
    if k :| k in keys && k in path {
      var i :| 0 <= i < |keys| && keys[i] == k;
      assert phs[i] in phs;
    }
  }

  /** Replacing the entries one after the other. */
  method ReplaceLoop(ts: seq<Token>, es: seq<Entry>) returns (result: seq<Token>)
    ensures result == ReplaceEntries(ts, es)
  {
    result := ts;
    var i := 0;
    while i < |es|
      invariant 0 <= i <= |es|
      invariant ReplaceEntries(ts, es) == ReplaceEntries(result, es[i..])
    {
      assert es[i..][1..] == es[i + 1..];
      result := ReplaceTokens(result, es[i].search, Printed(es[i].value));
      i := i + 1;
    }
  }
}
