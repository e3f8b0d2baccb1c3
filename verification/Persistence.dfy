/** What later visits leave alone: leaves of low rank stay memoised whatever happens to
    higher ones, and a leaf whose remaining placeholders cannot be given a value keeps its
    text for the rest of the run.
 */
module Persistence {
  import opened Collections
  import opened Text
  import opened Placeholder
  import opened Resolver
  import opened Substitution
  import opened Memo
  import opened Resolution
  import opened Cycles

  /***************************** Ranks *****************************/

  ghost predicate ValueBelow(v: Value, g: Graph, bound: nat) {
    v.Str? ==> RanksBelow(v.ts, g, bound)
  }

  /** The keys that lead to a rank below `bound`. */
  ghost function LowKeys(r: Run, g: Graph, bound: nat): set<string> {
    set x | x in r.universe && g.rank(g.norm(x)) < bound
  }

  lemma AssembleBelow(r: Run, g: Graph, ts: seq<Token>, es: seq<Entry>, bound: nat)
    requires Shuffles(r) && ts != [] && TokensIn(ts, r.universe) && RanksBelow(ts, g, bound)
    requires forall e | e in es :: RefsIn(e.value, r.universe) && ValueBelow(e.value, g, bound)
    ensures ValueBelow(Assemble(r, ts, es), g, bound)
  {
    AssembleIn(r, ts, es, LowKeys(r, g, bound));
  }

  ghost predicate Orderly(g: Graph, st: Store) {
    Ranked(st, g) && NoMalformed(st)
  }

  /** What resolving a key of rank `bound` does to a configuration without cycles and
      malformed strings. */
  ghost predicate KeepsRanks(g: Graph, st: Store, o: Outcome, bound: nat) {
    && st.Keys == o.st.Keys && Orderly(g, o.st)
    && o.res.Ok? && !o.res.value.Malformed? && ValueBelow(o.res.value, g, bound)
  }

  lemma {:induction false} RanksKept(r: Run, g: Graph, st: Store, key: string, visited: seq<string>)
    requires Shuffles(r) && r.norm == g.norm && Within(st, r.universe) && Orderly(g, st)
    requires RanksAbove(visited, g, g.rank(g.norm(key)))
    ensures KeepsRanks(g, st, ResolveValue(r, st, key, visited), g.rank(g.norm(key)))
    decreases g.rank(g.norm(key)), 1, 0
  {
    var k := g.norm(key);
    var val := Lookup(st, k);
    if val.Str? && Placeholders(val.ts) != [] {
      var phs, path := Placeholders(val.ts), visited + [key];
      NotCircular(g, val.ts, path, g.rank(k));
      AllRanksKept(r, g, st, phs, path, [], g.rank(k));
      ResolveUnfolds(r, st, key, visited);
      var p := ResolveAll(r, st, phs, path, []);
      AssembleBelow(r, g, val.ts, p.es, g.rank(k));
      AssembleNotMalformed(r, val.ts, p.es);
      WriteKeepsOrder(g, p.st, k, Assemble(r, val.ts, p.es));
    }
  }

  lemma WriteKeepsOrder(g: Graph, st: Store, k: string, v: Value)
    requires Orderly(g, st) && ValueBelow(v, g, g.rank(k)) && !v.Malformed?
    ensures Orderly(g, SetLeaf(st, k, v)) && SetLeaf(st, k, v).Keys == st.Keys
  {
  }

  lemma {:induction false} AllRanksKept(r: Run, g: Graph, st: Store, phs: seq<Token>, path: seq<string>,
                                        acc: seq<Entry>, bound: nat)
    requires Shuffles(r) && r.norm == g.norm && Within(st, r.universe) && Orderly(g, st)
    requires forall ph | ph in phs :: ph.Ref? && ph.key in r.universe && ph.key !in path
    requires RanksBelow(phs, g, bound) && RanksAbove(path, g, bound)
    requires forall e | e in acc :: RefsIn(e.value, r.universe) && ValueBelow(e.value, g, bound) && !e.value.Malformed?
    ensures var p := ResolveAll(r, st, phs, path, acc);
            && p.Done? && p.st.Keys == st.Keys && Orderly(g, p.st)
            && forall e | e in p.es :: ValueBelow(e.value, g, bound) && !e.value.Malformed?
    decreases bound, 0, |phs|
  {
    if phs != [] {
      var ph := phs[0];
      FirstOne(r, st, phs, path, acc);
      RanksKept(r, g, st, ph.key, path);
      var o := ResolveValue(r, st, ph.key, path);
      AllRanksKept(r, g, o.st, phs[1..], path, Extended(acc, ph, Chosen(ph, o.res).value), bound);
    }
  }

  /***************************** Leaves of low rank *****************************/

  ghost function Low(st: Store, g: Graph, bound: nat): Store {
    map k | k in st && g.rank(k) < bound :: st[k]
  }

  ghost function LowRun(r: Run, g: Graph, bound: nat): Run {
    r.(universe := LowKeys(r, g, bound))
  }

  lemma LowWithin(r: Run, g: Graph, st: Store, bound: nat)
    requires Within(st, r.universe) && Ranked(st, g)
    ensures Within(Low(st, g, bound), LowKeys(r, g, bound))
  {
  }

  /** `o` does to the low leaves what `low` does, and nothing else. */
  ghost predicate ActsLow(g: Graph, st: Store, st': Store, low: Store, bound: nat) {
    && st'.Keys == st.Keys && Low(st', g, bound) == low
    && forall k | k in st && g.rank(k) >= bound :: st'[k] == st[k]
  }

  /** Resolving a key of low rank reads and writes leaves of low rank only. */
  lemma {:induction false} ResolvesLow(r: Run, g: Graph, st: Store, key: string, visited: seq<string>, bound: nat)
    requires Shuffles(r) && r.norm == g.norm && Within(st, r.universe)
    requires Within(Low(st, g, bound), LowKeys(r, g, bound)) && g.rank(g.norm(key)) < bound
    ensures var o, low := ResolveValue(r, st, key, visited), ResolveValue(LowRun(r, g, bound), Low(st, g, bound), key, visited);
            o.res == low.res && ActsLow(g, st, o.st, low.st, bound)
    decreases |r.universe - SetOf(visited) - {key}|, 1, 0
  {
    var k, r', st' := g.norm(key), LowRun(r, g, bound), Low(st, g, bound);
    assert Lookup(st, k) == Lookup(st', k);
    var val := Lookup(st, k);
    if val.Str? && Placeholders(val.ts) != [] {
      var phs, path := Placeholders(val.ts), visited + [key];
      if forall ph | ph in phs :: ph.key !in path {
        ResolveUnfolds(r, st, key, visited);
        ResolveUnfolds(r', st', key, visited);
        SameMeasure(r.universe, visited, key);
        AllResolveLow(r, g, st, phs, path, [], bound);
        var p, q := ResolveAll(r, st, phs, path, []), ResolveAll(r', st', phs, path, []);
        if p.Done? {
          WritesLow(g, st, p.st, q.st, k, Assemble(r, val.ts, p.es), bound);
        }
      }
    }
  }

  lemma WritesLow(g: Graph, st: Store, st': Store, low: Store, k: string, v: Value, bound: nat)
    requires ActsLow(g, st, st', low, bound) && g.rank(k) < bound
    ensures ActsLow(g, st, SetLeaf(st', k, v), SetLeaf(low, k, v), bound)
  {
  }

  lemma {:induction false} AllResolveLow(r: Run, g: Graph, st: Store, phs: seq<Token>, path: seq<string>,
                                         acc: seq<Entry>, bound: nat)
    requires Shuffles(r) && r.norm == g.norm && Within(st, r.universe)
    requires Within(Low(st, g, bound), LowKeys(r, g, bound))
    requires forall ph | ph in phs :: ph.Ref? && ph.key in LowKeys(r, g, bound) && ph.key !in path
    requires forall e | e in acc :: RefsIn(e.value, LowKeys(r, g, bound)) && RefsIn(e.value, r.universe)
    ensures var p, q := ResolveAll(r, st, phs, path, acc), ResolveAll(LowRun(r, g, bound), Low(st, g, bound), phs, path, acc);
            ActsLow(g, st, p.st, q.st, bound) && p == q.(st := p.st)
    decreases |r.universe - SetOf(path)|, 0, |phs|
  {
    if phs != [] {
      var ph := phs[0];
      FirstOne(r, st, phs, path, acc);
      FirstOne(LowRun(r, g, bound), Low(st, g, bound), phs, path, acc);
      ResolvesLow(r, g, st, ph.key, path, bound);
      var o := ResolveValue(r, st, ph.key, path);
      if Chosen(ph, o.res).Ok? {
        AllResolveLow(r, g, o.st, phs[1..], path, Extended(acc, ph, Chosen(ph, o.res).value), bound);
      }
    }
  }

  /** The values of low leaves depend on low leaves alone. */
  lemma {:induction false} LowPure(st0: Store, g: Graph, k: string, bound: nat)
    requires Ranked(st0, g) && Ranked(Low(st0, g, bound), g) && g.rank(k) < bound
    ensures Pure(Low(st0, g, bound), g, k) == Pure(st0, g, k)
    decreases g.rank(k), 1, 0
  {
    if k in st0 && st0[k].Str? {
      var ts, low := st0[k].ts, Low(st0, g, bound);
      forall t | t in ts && t.Ref?
        ensures PureRef(low, g, t, g.rank(k)) == PureRef(st0, g, t, g.rank(k))
      {
        LowPure(st0, g, g.norm(t.key), bound);
      }
      if (forall t | t in ts && t.Ref? :: PureRef(st0, g, t, g.rank(k)).Some?) {
        SamePureTokens(low, st0, g, ts, g.rank(k));
      }
      if |ts| == 1 && Placeholders(ts) != [] {
        assert Placeholders(ts)[0] in ts;
        assert ts[0] in ts;
      }
    }
  }

  lemma {:induction false} SamePureTokens(a: Store, b: Store, g: Graph, ts: seq<Token>, bound: nat)
    requires Ranked(a, g) && Ranked(b, g) && RanksBelow(ts, g, bound)
    requires forall t | t in ts && t.Ref? :: PureRef(a, g, t, bound) == PureRef(b, g, t, bound) && PureRef(b, g, t, bound).Some?
    ensures PureTokens(a, g, ts, bound) == PureTokens(b, g, ts, bound)
    decreases |ts|
  {
    if ts != [] {
      assert ts[0] in ts;
      SamePureTokens(a, b, g, ts[1..], bound);
    }
  }

  lemma LowWellFormed(st0: Store, g: Graph, bound: nat)
    requires Ranked(st0, g) && WellFormed(st0, g) && Ranked(Low(st0, g, bound), g)
    ensures WellFormed(Low(st0, g, bound), g)
  {
    var low := Low(st0, g, bound);
    forall k | k in low && low[k].Str? && |low[k].ts| > 1
      ensures Unambiguous(low, g, g.rank(k), low[k].ts)
    {
      assert Unambiguous(st0, g, g.rank(k), st0[k].ts);
      forall t | t in low[k].ts && t.Ref?
        ensures Valued(low, g, g.rank(k), t) <==> Valued(st0, g, g.rank(k), t)
      {
        LowPure(st0, g, g.norm(t.key), bound);
      }
    }
  }

  /** The low part of a configuration, and what is known of it. */
  ghost predicate LowMemoised(st0: Store, vs: Values, g: Graph, st: Store, bound: nat) {
    && st.Keys == st0.Keys
    && forall k | k in st0 && g.rank(k) < bound :: st[k] == st0[k] || (st[k] != Nil && ValueAt(vs, k) == Some(st[k]))
  }

  ghost predicate Setting(r: Run, st0: Store, g: Graph, vs: Values, bound: nat) {
    && Loadable(r, st0) && r.norm == g.norm && Orderly(g, st0) && WellFormed(st0, g) && vs == PureValues(st0, g)
    && CleanBelow(st0, g, vs, bound)
  }

  lemma LowSetting(r: Run, st0: Store, g: Graph, vs: Values, st: Store, bound: nat)
    requires Setting(r, st0, g, vs, bound) && LowMemoised(st0, vs, g, st, bound)
    ensures var low := Low(st0, g, bound);
            && Ranked(low, g) && WellFormed(low, g)
            && var vl := PureValues(low, g);
               && (forall k | g.rank(k) < bound :: ValueAt(vl, k) == ValueAt(vs, k))
               && Memoised(low, vl, Low(st, g, bound)) && CleanBelow(low, g, vl, bound)
  {
    var low := Low(st0, g, bound);
    var vl := PureValues(low, g);
    LowWellFormed(st0, g, bound);
    forall k | g.rank(k) < bound
      ensures ValueAt(vl, k) == ValueAt(vs, k)
    {
      LowPure(st0, g, k, bound);
      PureIsValueAt(low, g, k);
      PureIsValueAt(st0, g, k);
    }
    forall k | k in low && low[k].Str?
      ensures NoneCollapses(vl, g.norm, low[k].ts)
    {
      assert NoneCollapses(vs, g.norm, st0[k].ts);
    }
  }

  /** Low leaves that have been rewritten stay as they are. */
  ghost predicate LowProgress(st0: Store, g: Graph, st: Store, st': Store, bound: nat) {
    && st.Keys == st'.Keys == st0.Keys
    && forall k | k in st0 && g.rank(k) < bound && st[k] != st0[k] :: st'[k] == st[k]
  }

  /** Resolving a key of low rank, whatever the higher leaves hold. */
  lemma LowKey(r: Run, st0: Store, g: Graph, vs: Values, st: Store, key: string, visited: seq<string>, bound: nat)
    requires Setting(r, st0, g, vs, bound) && LowMemoised(st0, vs, g, st, bound)
    requires Within(st, r.universe) && Orderly(g, st)
    requires g.rank(g.norm(key)) < bound && RanksAbove(visited, g, g.rank(g.norm(key)))
    ensures var o := ResolveValue(r, st, key, visited);
            && LowMemoised(st0, vs, g, o.st, bound) && LowProgress(st0, g, st, o.st, bound)
            && (forall k | k in st && g.rank(k) >= bound :: o.st[k] == st[k])
            && var k := g.norm(key);
               o.res == (if Collapses(vs, k) && k in st0 && st[k] != st0[k] then Ok(Nil) else Lift(ValueAt(vs, k)))
  {
    LowWithin(r, g, st, bound);
    ResolvesLow(r, g, st, key, visited, bound);
    LowSetting(r, st0, g, vs, st, bound);
    var low, vl, r', lst := Low(st0, g, bound), PureValues(Low(st0, g, bound), g), LowRun(r, g, bound), Low(st, g, bound);
    ResolveIsPure(r', low, g, vl, lst, key, visited);
    var o' := ResolveValue(r', lst, key, visited);
    var o := ResolveValue(r, st, key, visited);
    FromLow(st0, g, vs, vl, st, o.st, bound);
  }

  lemma FromLow(st0: Store, g: Graph, vs: Values, vl: Values, st: Store, st': Store, bound: nat)
    requires st.Keys == st'.Keys == st0.Keys && LowMemoised(st0, vs, g, st, bound)
    requires forall k | g.rank(k) < bound :: ValueAt(vl, k) == ValueAt(vs, k)
    requires Progresses(Low(st0, g, bound), g, vl, Low(st, g, bound), Low(st', g, bound), bound)
    ensures LowMemoised(st0, vs, g, st', bound) && LowProgress(st0, g, st, st', bound)
  {
    var low, lst, lst' := Low(st0, g, bound), Low(st, g, bound), Low(st', g, bound);
    forall k | k in st0 && g.rank(k) < bound
      ensures st'[k] == st0[k] || (st'[k] != Nil && ValueAt(vs, k) == Some(st'[k]))
      ensures st[k] != st0[k] ==> st'[k] == st[k]
    {
      assert k in low && lst[k] == st[k] && lst'[k] == st'[k] && low[k] == st0[k];
      if st[k] != st0[k] {
        assert lst[k] == Final(low, vl, k);
      }
    }
  }

  /***************************** A leaf that stays as it is *****************************/

  /** A placeholder that has no default and, as things stand, no value. */
  ghost predicate Barren(st0: Store, g: Graph, vs: Values, st: Store, t: Token, bound: nat) {
    && t.Ref? && t.def.None? && g.rank(g.norm(t.key)) < bound
    && var k := g.norm(t.key);
       ValueAt(vs, k) == Some(Nil) || (Collapses(vs, k) && k in st0 && k in st && st[k] != st0[k])
  }

  ghost predicate AllBarren(st0: Store, g: Graph, vs: Values, st: Store, ts: seq<Token>, bound: nat) {
    forall t | t in ts && t.Ref? :: Barren(st0, g, vs, st, t, bound)
  }

  /** Leaf `y` shows no placeholder that could still be given a value. */
  ghost predicate Frozen(st0: Store, g: Graph, vs: Values, st: Store, y: string) {
    y in st && (st[y].Str? ==> AllBarren(st0, g, vs, st, st[y].ts, g.rank(y)))
  }

  ghost predicate Steady(r: Run, st0: Store, g: Graph, vs: Values, st: Store, y: string) {
    && Setting(r, st0, g, vs, g.rank(y)) && Within(st, r.universe) && Orderly(g, st)
    && LowMemoised(st0, vs, g, st, g.rank(y)) && Frozen(st0, g, vs, st, y)
  }

  lemma BarrenStays(st0: Store, g: Graph, vs: Values, st: Store, st': Store, ts: seq<Token>, bound: nat)
    requires AllBarren(st0, g, vs, st, ts, bound) && LowProgress(st0, g, st, st', bound)
    ensures AllBarren(st0, g, vs, st', ts, bound)
  {
    forall t | t in ts && t.Ref?
      ensures Barren(st0, g, vs, st', t, bound)
    {
      assert Barren(st0, g, vs, st, t, bound);
    }
  }

  /** What a step keeps while leaf `y` is frozen. */
  ghost predicate Leaves(r: Run, st0: Store, g: Graph, vs: Values, st: Store, st': Store, y: string) {
    Steady(r, st0, g, vs, st', y) && y in st && y in st' && st'[y] == st[y]
  }

  lemma LowStays(r: Run, st0: Store, g: Graph, vs: Values, st: Store, key: string, visited: seq<string>, y: string)
    requires Steady(r, st0, g, vs, st, y) && g.rank(g.norm(key)) < g.rank(y)
    requires RanksAbove(visited, g, g.rank(g.norm(key)))
    ensures Leaves(r, st0, g, vs, st, ResolveValue(r, st, key, visited).st, y)
  {
    LowKey(r, st0, g, vs, st, key, visited, g.rank(y));
    RanksKept(r, g, st, key, visited);
    if st[y].Str? {
      BarrenStays(st0, g, vs, st, ResolveValue(r, st, key, visited).st, st[y].ts, g.rank(y));
    }
  }

  /** Placeholders without a value leave no entry. */
  lemma {:induction false} NothingGathered(r: Run, st0: Store, g: Graph, vs: Values, st: Store, phs: seq<Token>,
                                           path: seq<string>, y: string)
    requires Steady(r, st0, g, vs, st, y) && AllBarren(st0, g, vs, st, phs, g.rank(y))
    requires forall ph | ph in phs :: ph.Ref? && ph.key in r.universe && ph.key !in path
    requires RanksAbove(path, g, g.rank(y))
    ensures var p := ResolveAll(r, st, phs, path, []);
            p.Done? && p.es == [] && Leaves(r, st0, g, vs, st, p.st, y)
    decreases |phs|
  {
    if phs != [] {
      var ph := phs[0];
      FirstOne(r, st, phs, path, []);
      assert Barren(st0, g, vs, st, ph, g.rank(y));
      var o := ResolveValue(r, st, ph.key, path);
      LowKey(r, st0, g, vs, st, ph.key, path, g.rank(y));
      assert Chosen(ph, o.res) == Ok(Nil);
      LowStays(r, st0, g, vs, st, ph.key, path, y);
      BarrenStays(st0, g, vs, st, o.st, phs, g.rank(y));
      NothingGathered(r, st0, g, vs, o.st, phs[1..], path, y);
    }
  }

  lemma AssembleNothing(r: Run, ts: seq<Token>)
    requires Shuffles(r) && ts != [] && Placeholders(ts) != []
    ensures Assemble(r, ts, []) == if |ts| > 1 then Str(ts) else Nil
  {
    assert multiset(r.shuffle([])) == multiset([]);
    assert |r.shuffle([])| == |multiset(r.shuffle([]))|;
    assert Placeholders(ts)[0] in ts;
  }

  /** Reading the leaf itself again. */
  lemma FrozenStays(r: Run, st0: Store, g: Graph, vs: Values, st: Store, key: string, visited: seq<string>, y: string)
    requires Steady(r, st0, g, vs, st, y) && g.norm(key) == y && RanksAbove(visited, g, g.rank(y))
    ensures Leaves(r, st0, g, vs, st, ResolveValue(r, st, key, visited).st, y)
  {
    if st[y].Str? && Placeholders(st[y].ts) != [] {
      var ts := st[y].ts;
      var phs, path := Placeholders(ts), visited + [key];
      NotCircular(g, ts, path, g.rank(y));
      NothingGathered(r, st0, g, vs, st, phs, path, y);
      ResolveUnfolds(r, st, key, visited);
      AssembleNothing(r, ts);
      SameLeaf(ResolveAll(r, st, phs, path, []).st, y, ts, Assemble(r, ts, []));
    }
  }

  lemma SameLeaf(st: Store, y: string, ts: seq<Token>, v: Value)
    requires y in st && st[y] == Str(ts) && (v == Str(ts) || v == Nil)
    ensures SetLeaf(st, y, v) == st
  {
  }

  lemma WriteLeaves(r: Run, st0: Store, g: Graph, vs: Values, st: Store, st1: Store, k: string, v: Value, y: string)
    requires Leaves(r, st0, g, vs, st, st1, y) && k != y && g.rank(k) >= g.rank(y)
    requires RefsIn(v, r.universe) && ValueBelow(v, g, g.rank(k)) && !v.Malformed?
    ensures Leaves(r, st0, g, vs, st, SetLeaf(st1, k, v), y)
  {
    var st' := SetLeaf(st1, k, v);
    WriteKeepsOrder(g, st1, k, v);
    assert forall j | j in st1 && j != k :: st'[j] == st1[j];
    if st1[y].Str? {
      BarrenStays(st0, g, vs, st1, st', st1[y].ts, g.rank(y));
    }
  }

  lemma {:induction false} StaysSteady(r: Run, st0: Store, g: Graph, vs: Values, st: Store, key: string,
                                       visited: seq<string>, y: string)
    requires Steady(r, st0, g, vs, st, y) && RanksAbove(visited, g, g.rank(g.norm(key)))
    ensures Leaves(r, st0, g, vs, st, ResolveValue(r, st, key, visited).st, y)
    decreases g.rank(g.norm(key)), 1, 0
  {
    var k := g.norm(key);
    if g.rank(k) < g.rank(y) {
      LowStays(r, st0, g, vs, st, key, visited, y);
    } else if k == y {
      FrozenStays(r, st0, g, vs, st, key, visited, y);
    } else {
      var val := Lookup(st, k);
      if val.Str? && Placeholders(val.ts) != [] {
        var phs, path := Placeholders(val.ts), visited + [key];
        NotCircular(g, val.ts, path, g.rank(k));
        AllStaySteady(r, st0, g, vs, st, phs, path, [], y, g.rank(k));
        AllRanksKept(r, g, st, phs, path, [], g.rank(k));
        ResolveUnfolds(r, st, key, visited);
        var p := ResolveAll(r, st, phs, path, []);
        var v := Assemble(r, val.ts, p.es);
        AssembleBelow(r, g, val.ts, p.es, g.rank(k));
        AssembleNotMalformed(r, val.ts, p.es);
        AssembleIn(r, val.ts, p.es, r.universe);
        WriteLeaves(r, st0, g, vs, st, p.st, k, v, y);
      }
    }
  }

  lemma {:induction false} AllStaySteady(r: Run, st0: Store, g: Graph, vs: Values, st: Store, phs: seq<Token>,
                                         path: seq<string>, acc: seq<Entry>, y: string, bound: nat)
    requires Steady(r, st0, g, vs, st, y)
    requires forall ph | ph in phs :: ph.Ref? && ph.key in r.universe && ph.key !in path
    requires forall e | e in acc :: RefsIn(e.value, r.universe)
    requires RanksBelow(phs, g, bound) && RanksAbove(path, g, bound)
    ensures Leaves(r, st0, g, vs, st, ResolveAll(r, st, phs, path, acc).st, y)
    decreases bound, 0, |phs|
  {
    if phs != [] {
      var ph := phs[0];
      FirstOne(r, st, phs, path, acc);
      StaysSteady(r, st0, g, vs, st, ph.key, path, y);
      var o := ResolveValue(r, st, ph.key, path);
      if Chosen(ph, o.res).Ok? {
        AllStaySteady(r, st0, g, vs, o.st, phs[1..], path, Extended(acc, ph, Chosen(ph, o.res).value), y, bound);
      }
    }
  }

  /** No series of visits changes a frozen leaf, and none fails. */
  lemma {:induction false} VisitsStaySteady(r: Run, st0: Store, g: Graph, vs: Values, st: Store, order: seq<string>,
                                            y: string)
    requires Steady(r, st0, g, vs, st, y)
    ensures var o := VisitAll(r, st, order); o.res.Ok? && Leaves(r, st0, g, vs, st, o.st, y)
    decreases |order|
  {
    if order != [] {
      StaysSteady(r, st0, g, vs, st, order[0], [], y);
      RanksKept(r, g, st, order[0], []);
      VisitsStaySteady(r, st0, g, vs, ResolveValue(r, st, order[0], []).st, order[1..], y);
    }
  }
}
