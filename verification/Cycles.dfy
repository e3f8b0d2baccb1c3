/** Reference cycles: when a circular reference is reported, and what it means for a
    configuration to have none.
 */
module Cycles {
  import opened Text
  import opened Placeholder
  import opened Resolver
  import opened Substitution
  import opened Resolution
  import opened Collections

  /** Leaf `a` mentions leaf `b`. */
  ghost predicate Edge(st: Store, norm: Norm, a: string, b: string) {
    a in st && st[a].Str? && exists t :: t in st[a].ts && t.Ref? && norm(t.key) == b
  }

  ghost predicate IsPath(st: Store, norm: Norm, p: seq<string>) {
    |p| >= 2 && forall i | 0 <= i < |p| - 1 :: Edge(st, norm, p[i], p[i + 1])
  }

  ghost predicate Reaches(st: Store, norm: Norm, a: string, b: string) {
    exists p :: IsPath(st, norm, p) && p[0] == a && p[|p| - 1] == b
  }

  ghost predicate OnOrReaches(st: Store, norm: Norm, a: string, b: string) {
    a == b || Reaches(st, norm, a, b)
  }

  ghost predicate ReachesCycle(st: Store, norm: Norm, a: string) {
    exists c :: OnOrReaches(st, norm, a, c) && Reaches(st, norm, c, c)
  }

  lemma EdgeReaches(st: Store, norm: Norm, a: string, b: string)
    requires Edge(st, norm, a, b)
    ensures Reaches(st, norm, a, b)
  {
    assert IsPath(st, norm, [a, b]);
  }

  lemma ReachTransitive(st: Store, norm: Norm, a: string, b: string, c: string)
    requires Reaches(st, norm, a, b) && Reaches(st, norm, b, c)
    ensures Reaches(st, norm, a, c)
  {
    var p :| IsPath(st, norm, p) && p[0] == a && p[|p| - 1] == b;
    var q :| IsPath(st, norm, q) && q[0] == b && q[|q| - 1] == c;
    var w := p + q[1..];
    forall i | 0 <= i < |w| - 1
      ensures Edge(st, norm, w[i], w[i + 1])
    {
      if i >= |p| - 1 {
        assert w[i] == q[i - |p| + 1] && w[i + 1] == q[i - |p| + 2];
      }
    }
    assert IsPath(st, norm, w);
  }

  /***************************** Reports are real *****************************/

  /** The keys a run may mention that leaf `k` leads to. */
  ghost function ReachSet(r: Run, st: Store, k: string): (keys: set<string>)
    ensures keys <= r.universe
  {
    set x | x in r.universe && Reaches(st, r.norm, k, r.norm(x))
  }

  lemma ReachSetGrows(r: Run, st: Store, a: string, b: string)
    requires Reaches(st, r.norm, a, b)
    ensures ReachSet(r, st, b) <= ReachSet(r, st, a)
  {
    forall x | x in ReachSet(r, st, b)
      ensures x in ReachSet(r, st, a)
    {
      ReachTransitive(st, r.norm, a, b, r.norm(x));
    }
  }

  ghost predicate NoMalformed(st: Store) {
    forall k | k in st :: !st[k].Malformed?
  }

  /** Every leaf mentions only what it led to initially. */
  ghost predicate Shows(r: Run, st0: Store, st: Store) {
    && st.Keys == st0.Keys
    && (forall k | k in st :: RefsIn(st[k], ReachSet(r, st0, k)))
    && (NoMalformed(st0) ==> NoMalformed(st))
  }

  lemma ShowsInitially(r: Run, st0: Store)
    requires Within(st0, r.universe)
    ensures Shows(r, st0, st0)
  {
    forall k | k in st0
      ensures RefsIn(st0[k], ReachSet(r, st0, k))
    {
      if st0[k].Str? {
        forall t | t in st0[k].ts && t.Ref?
          ensures t.key in ReachSet(r, st0, k)
        {
          EdgeReaches(st0, r.norm, k, r.norm(t.key));
        }
      }
    }
  }

  /** The keys being resolved lead to `k`. */
  ghost predicate LeadTo(r: Run, st0: Store, path: seq<string>, k: string) {
    forall v | v in path :: OnOrReaches(st0, r.norm, r.norm(v), k)
  }

  ghost predicate SoundAt(r: Run, st0: Store, k: string, res: Result) {
    && (res.Ok? ==> RefsIn(res.value, ReachSet(r, st0, k)))
    && (res.Circular? ==> ReachesCycle(st0, r.norm, k))
    && (NoMalformed(st0) ==> !res.BadSyntax? && (res.Ok? ==> !res.value.Malformed?))
  }

  lemma {:induction false} ReportsAreReal(r: Run, st0: Store, st: Store, key: string, visited: seq<string>)
    requires Shuffles(r) && Within(st, r.universe) && Shows(r, st0, st)
    requires LeadTo(r, st0, visited, r.norm(key))
    ensures var o := ResolveValue(r, st, key, visited);
            Shows(r, st0, o.st) && SoundAt(r, st0, r.norm(key), o.res)
    decreases |r.universe - SetOf(visited) - {key}|, 1, 0
  {
    var k := r.norm(key);
    var val := Lookup(st, k);
    if val.Str? && Placeholders(val.ts) != [] {
      var phs, path := Placeholders(val.ts), visited + [key];
      assert RefsIn(val, ReachSet(r, st0, k));
      if ph :| ph in phs && ph.key in path {
        CycleThrough(r, st0, k, ph.key, path);
      } else {
        SameMeasure(r.universe, visited, key);
        AllReportsAreReal(r, st0, st, phs, path, [], k);
        ResolveUnfolds(r, st, key, visited);
        FinishIsReal(r, st0, key, val.ts, ResolveAll(r, st, phs, path, []));
      }
    }
  }

  lemma FinishIsReal(r: Run, st0: Store, key: string, ts: seq<Token>, p: Progress)
    requires Shuffles(r) && ts != [] && Within(p.st, r.universe) && Shows(r, st0, p.st)
    requires TokensIn(ts, ReachSet(r, st0, r.norm(key)))
    requires p.Done? ==> forall e | e in p.es :: RefsIn(e.value, ReachSet(r, st0, r.norm(key)))
    requires p.Done? && NoMalformed(st0) ==> forall e | e in p.es :: !e.value.Malformed?
    requires p.Stop? ==> !p.why.Ok? && SoundAt(r, st0, r.norm(key), p.why)
    ensures forall e | p.Done? && e in p.es :: RefsIn(e.value, r.universe)
    ensures var o := Finish(r, key, ts, p);
            Shows(r, st0, o.st) && SoundAt(r, st0, r.norm(key), o.res)
  {
    if p.Done? {
      AssembleIn(r, ts, p.es, ReachSet(r, st0, r.norm(key)));
      if NoMalformed(st0) {
        AssembleNotMalformed(r, ts, p.es);
      }
    }
  }

  lemma CycleThrough(r: Run, st0: Store, k: string, key: string, path: seq<string>)
    requires key in path && LeadTo(r, st0, path, k) && Reaches(st0, r.norm, k, r.norm(key))
    ensures ReachesCycle(st0, r.norm, k)
  {
    assert OnOrReaches(st0, r.norm, r.norm(key), k);
    if r.norm(key) != k {
      ReachTransitive(st0, r.norm, k, r.norm(key), k);
    }
    assert OnOrReaches(st0, r.norm, k, k);
  }

  lemma AssembleNotMalformed(r: Run, ts: seq<Token>, es: seq<Entry>)
    requires ts != [] && forall e | e in es :: !e.value.Malformed?
    ensures !Assemble(r, ts, es).Malformed?
  {
  }

  lemma {:induction false} AllReportsAreReal(r: Run, st0: Store, st: Store, phs: seq<Token>, path: seq<string>,
                                             acc: seq<Entry>, k: string)
    requires Shuffles(r) && Within(st, r.universe) && Shows(r, st0, st)
    requires forall ph | ph in phs :: ph.Ref? && ph.key in r.universe && ph.key !in path
    requires TokensIn(phs, ReachSet(r, st0, k))
    requires forall e | e in acc :: RefsIn(e.value, ReachSet(r, st0, k))
    requires NoMalformed(st0) ==> forall e | e in acc :: !e.value.Malformed?
    requires LeadTo(r, st0, path, k)
    ensures forall e | e in acc :: RefsIn(e.value, r.universe)
    ensures var p := ResolveAll(r, st, phs, path, acc);
            && Shows(r, st0, p.st)
            && (p.Done? ==> forall e | e in p.es :: RefsIn(e.value, ReachSet(r, st0, k)))
            && (p.Done? && NoMalformed(st0) ==> forall e | e in p.es :: !e.value.Malformed?)
            && (p.Stop? ==> SoundAt(r, st0, k, p.why))
    decreases |r.universe - SetOf(path)|, 0, |phs|
  {
    if phs != [] {
      var ph := phs[0];
      FirstOne(r, st, phs, path, acc);
      var next := r.norm(ph.key);
      LeadFurther(r, st0, path, k, next);
      ReportsAreReal(r, st0, st, ph.key, path);
      var o := ResolveValue(r, st, ph.key, path);
      SoundFrom(r, st0, k, next, o.res);
      if Chosen(ph, o.res).Ok? {
        AllReportsAreReal(r, st0, o.st, phs[1..], path, Extended(acc, ph, Chosen(ph, o.res).value), k);
      }
    }
  }

  lemma LeadFurther(r: Run, st0: Store, path: seq<string>, k: string, next: string)
    requires LeadTo(r, st0, path, k) && Reaches(st0, r.norm, k, next)
    ensures LeadTo(r, st0, path, next)
  {
    forall v | v in path
      ensures OnOrReaches(st0, r.norm, r.norm(v), next)
    {
      if r.norm(v) != k {
        ReachTransitive(st0, r.norm, r.norm(v), k, next);
      }
    }
  }

  lemma SoundFrom(r: Run, st0: Store, k: string, next: string, res: Result)
    requires Reaches(st0, r.norm, k, next) && SoundAt(r, st0, next, res)
    ensures SoundAt(r, st0, k, res)
  {
    ReachSetGrows(r, st0, k, next);
    if res.Circular? {
      var c :| OnOrReaches(st0, r.norm, next, c) && Reaches(st0, r.norm, c, c);
      if next != c {
        ReachTransitive(st0, r.norm, k, next, c);
      }
      assert OnOrReaches(st0, r.norm, k, c);
    }
  }

  /***************************** Success means termination *****************************/

  /** Every chain of references from `k` ends after at most `n` steps. */
  ghost predicate Bounded(st: Store, norm: Norm, k: string, n: nat)
    decreases n
  {
    k in st && st[k].Str? ==>
      forall t | t in st[k].ts && t.Ref? :: n > 0 && Bounded(st, norm, norm(t.key), n - 1)
  }

  ghost predicate Terminates(st: Store, norm: Norm, k: string) {
    exists n :: Bounded(st, norm, k, n)
  }

  lemma {:induction false} BoundedMonotone(st: Store, norm: Norm, k: string, m: nat, n: nat)
    requires Bounded(st, norm, k, m) && m <= n
    ensures Bounded(st, norm, k, n)
    decreases m
  {
    if k in st && st[k].Str? {
      forall t | t in st[k].ts && t.Ref?
        ensures n > 0 && Bounded(st, norm, norm(t.key), n - 1)
      {
        BoundedMonotone(st, norm, norm(t.key), m - 1, n - 1);
      }
    }
  }

  lemma {:induction false} CommonBound(st: Store, norm: Norm, ts: seq<Token>) returns (n: nat)
    requires forall t | t in ts && t.Ref? :: Terminates(st, norm, norm(t.key))
    ensures forall t | t in ts && t.Ref? :: Bounded(st, norm, norm(t.key), n)
  {
    if ts == [] {
      n := 0;
    } else {
      var m := CommonBound(st, norm, ts[1..]);
      var head := 0;
      if ts[0].Ref? {
        assert ts[0] in ts;
        head :| Bounded(st, norm, norm(ts[0].key), head);
      }
      n := m + head;
      forall t | t in ts && t.Ref?
        ensures Bounded(st, norm, norm(t.key), n)
      {
        BoundedMonotone(st, norm, norm(t.key), if t in ts[1..] then m else head, n);
      }
    }
  }

  lemma TerminatesIfReferencesDo(st: Store, norm: Norm, k: string)
    requires k in st && st[k].Str?
    requires forall t | t in st[k].ts && t.Ref? :: Terminates(st, norm, norm(t.key))
    ensures Terminates(st, norm, k)
  {
    var n := CommonBound(st, norm, st[k].ts);
    assert Bounded(st, norm, k, n + 1);
  }

  lemma PathTail(st: Store, norm: Norm, p: seq<string>)
    requires IsPath(st, norm, p) && |p| > 2
    ensures IsPath(st, norm, p[1..])
  {
    var q := p[1..];
    forall i | 0 <= i < |q| - 1
      ensures Edge(st, norm, q[i], q[i + 1])
    {
      assert Edge(st, norm, p[i + 1], p[i + 2]);
    }
  }

  lemma {:induction false} BoundedAlong(st: Store, norm: Norm, p: seq<string>, n: nat)
    requires IsPath(st, norm, p) && Bounded(st, norm, p[0], n)
    ensures n >= |p| - 1 && Bounded(st, norm, p[|p| - 1], n - (|p| - 1))
    decreases |p|
  {
    assert Edge(st, norm, p[0], p[1]);
    if |p| > 2 {
      PathTail(st, norm, p);
      BoundedAlong(st, norm, p[1..], n - 1);
    }
  }

  lemma {:induction false} NoCycleAt(st: Store, norm: Norm, c: string, n: nat)
    requires Bounded(st, norm, c, n)
    ensures !Reaches(st, norm, c, c)
    decreases n
  {
    if Reaches(st, norm, c, c) {
      var p :| IsPath(st, norm, p) && p[0] == c && p[|p| - 1] == c;
      BoundedAlong(st, norm, p, n);
      NoCycleAt(st, norm, c, n - (|p| - 1));
    }
  }

  /** A leaf whose references end reaches no cycle. */
  lemma TerminatingReachesNoCycle(st: Store, norm: Norm, k: string)
    requires Terminates(st, norm, k)
    ensures !ReachesCycle(st, norm, k)
  {
    var n: nat :| Bounded(st, norm, k, n);
    forall c | OnOrReaches(st, norm, k, c)
      ensures !Reaches(st, norm, c, c)
    {
      if k == c {
        NoCycleAt(st, norm, c, n);
      } else {
        var p :| IsPath(st, norm, p) && p[0] == k && p[|p| - 1] == c;
        BoundedAlong(st, norm, p, n);
        NoCycleAt(st, norm, c, n - (|p| - 1));
      }
    }
  }

  lemma RepetitionIsCycle(st: Store, norm: Norm, p: seq<string>, m: string, i: nat)
    requires i < |p| && p[i] == m && Edge(st, norm, p[|p| - 1], m)
    requires forall j | 0 <= j < |p| - 1 :: Edge(st, norm, p[j], p[j + 1])
    ensures ReachesCycle(st, norm, p[0])
  {
    var cycle := p[i..] + [m];
    forall j | 0 <= j < |cycle| - 1
      ensures Edge(st, norm, cycle[j], cycle[j + 1])
    {
      if j < |cycle| - 2 {
        assert Edge(st, norm, p[i + j], p[i + j + 1]);
      }
    }
    assert IsPath(st, norm, cycle);
    if i > 0 {
      assert IsPath(st, norm, p[..i + 1]);
    }
    assert OnOrReaches(st, norm, p[0], m) && Reaches(st, norm, m, m);
  }

  lemma NoRepetition(st: Store, norm: Norm, p: seq<string>, m: string)
    requires p != [] && !ReachesCycle(st, norm, p[0])
    requires forall i | 0 <= i < |p| - 1 :: Edge(st, norm, p[i], p[i + 1])
    requires Edge(st, norm, p[|p| - 1], m)
    ensures m !in p
  {
    if i :| 0 <= i < |p| && p[i] == m {
      RepetitionIsCycle(st, norm, p, m, i);
    }
  }

  /** From the end of a path without repetitions, references end before the leaves run out. */
  lemma {:induction false} BoundedByLeaves(st: Store, norm: Norm, p: seq<string>)
    requires p != [] && !ReachesCycle(st, norm, p[0]) && forall k | k in p :: k in st
    requires forall i | 0 <= i < |p| - 1 :: Edge(st, norm, p[i], p[i + 1])
    ensures Bounded(st, norm, p[|p| - 1], |st.Keys - SetOf(p)| + 1)
    decreases |st.Keys - SetOf(p)|
  {
    var k := p[|p| - 1];
    var left := |st.Keys - SetOf(p)|;
    if st[k].Str? {
      forall t | t in st[k].ts && t.Ref?
        ensures Bounded(st, norm, norm(t.key), left)
      {
        var m := norm(t.key);
        assert Edge(st, norm, k, m);
        NoRepetition(st, norm, p, m);
        if m in st {
          LongerPath(st, norm, p, m);
          BoundedByLeaves(st, norm, p + [m]);
        }
      }
    }
  }

  lemma LongerPath(st: Store, norm: Norm, p: seq<string>, m: string)
    requires p != [] && m in st && m !in p && Edge(st, norm, p[|p| - 1], m)
    requires forall i | 0 <= i < |p| - 1 :: Edge(st, norm, p[i], p[i + 1])
    ensures forall i | 0 <= i < |p + [m]| - 1 :: Edge(st, norm, (p + [m])[i], (p + [m])[i + 1])
    ensures |st.Keys - SetOf(p + [m])| == |st.Keys - SetOf(p)| - 1
  {
    assert st.Keys - SetOf(p + [m]) == st.Keys - SetOf(p) - {m};
  }

  /** References from a leaf end exactly if it reaches no cycle. */
  lemma TerminatesExactly(st: Store, norm: Norm, k: string)
    ensures Terminates(st, norm, k) <==> !ReachesCycle(st, norm, k)
  {
    if Terminates(st, norm, k) {
      TerminatingReachesNoCycle(st, norm, k);
    } else if k in st {
      if !ReachesCycle(st, norm, k) {
        BoundedByLeaves(st, norm, [k]);
      }
    } else {
      assert Bounded(st, norm, k, 0);
    }
  }

  /***************************** References without default *****************************/

  function BareTokens(ts: seq<Token>): (bare: seq<Token>)
    ensures forall t :: t in bare <==> t in ts && !(t.Ref? && t.def.Some?)
  {
    if ts == [] then []
    else (if ts[0].Ref? && ts[0].def.Some? then [] else [ts[0]]) + BareTokens(ts[1..])
  }

  /** The configuration without the placeholders that have a default. */
  ghost function Bare(st: Store): (bare: Store)
    ensures bare.Keys == st.Keys
  {
    map k | k in st :: if st[k].Str? then Str(BareTokens(st[k].ts)) else st[k]
  }

  /** Only leaves whose references without default end have been rewritten. */
  ghost predicate Settled(st0: Store, norm: Norm, st: Store) {
    st.Keys == st0.Keys && forall k | k in st0 :: st[k] == st0[k] || Terminates(Bare(st0), norm, k)
  }

  lemma {:induction false} SuccessTerminates(r: Run, st0: Store, st: Store, key: string, visited: seq<string>)
    requires Shuffles(r) && Within(st, r.universe) && Settled(st0, r.norm, st)
    ensures var o := ResolveValue(r, st, key, visited);
            && Settled(st0, r.norm, o.st)
            && (o.res.Ok? ==> Terminates(Bare(st0), r.norm, r.norm(key)))
    decreases |r.universe - SetOf(visited) - {key}|, 1, 0
  {
    var k := r.norm(key);
    var val := Lookup(st, k);
    if !val.Str? || Placeholders(val.ts) == [] {
      PlainTerminates(st0, r.norm, st, k);
    } else if forall ph | ph in Placeholders(val.ts) :: ph.key !in visited + [key] {
      var phs, path := Placeholders(val.ts), visited + [key];
      SameMeasure(r.universe, visited, key);
      AllSuccessTerminates(r, st0, st, phs, path, []);
      ResolveUnfolds(r, st, key, visited);
      FinishSettles(r, st0, st, key, val.ts, ResolveAll(r, st, phs, path, []));
    }
  }

  lemma FinishSettles(r: Run, st0: Store, st: Store, key: string, ts: seq<Token>, p: Progress)
    requires Shuffles(r) && ts != [] && TokensIn(ts, r.universe) && Within(p.st, r.universe)
    requires p.Done? ==> forall e | e in p.es :: RefsIn(e.value, r.universe)
    requires p.Stop? ==> !p.why.Ok?
    requires Settled(st0, r.norm, st) && Settled(st0, r.norm, p.st)
    requires Lookup(st, r.norm(key)) == Str(ts)
    requires p.Done? ==> forall t | t in ts && t.Ref? && t.def.None? :: Terminates(Bare(st0), r.norm, r.norm(t.key))
    ensures var o := Finish(r, key, ts, p);
            && Settled(st0, r.norm, o.st)
            && (o.res.Ok? ==> Terminates(Bare(st0), r.norm, r.norm(key)))
  {
    var k := r.norm(key);
    if p.Done? && st[k] == st0[k] {
      TerminatesIfReferencesDo(Bare(st0), r.norm, k);
    }
  }

  lemma PlainTerminates(st0: Store, norm: Norm, st: Store, k: string)
    requires Settled(st0, norm, st) && (Lookup(st, k).Str? ==> Placeholders(Lookup(st, k).ts) == [])
    ensures Terminates(Bare(st0), norm, k)
  {
    if k !in st0 || st[k] == st0[k] {
      assert Bounded(Bare(st0), norm, k, 0);
    }
  }

  lemma {:induction false} AllSuccessTerminates(r: Run, st0: Store, st: Store, phs: seq<Token>, path: seq<string>,
                                                acc: seq<Entry>)
    requires Shuffles(r) && Within(st, r.universe) && Settled(st0, r.norm, st)
    requires forall ph | ph in phs :: ph.Ref? && ph.key in r.universe && ph.key !in path
    requires forall e | e in acc :: RefsIn(e.value, r.universe)
    ensures var p := ResolveAll(r, st, phs, path, acc);
            && Settled(st0, r.norm, p.st)
            && (p.Done? ==> forall ph | ph in phs && ph.def.None? :: Terminates(Bare(st0), r.norm, r.norm(ph.key)))
    decreases |r.universe - SetOf(path)|, 0, |phs|
  {
    if phs != [] {
      var ph := phs[0];
      FirstOne(r, st, phs, path, acc);
      SuccessTerminates(r, st0, st, ph.key, path);
      var o := ResolveValue(r, st, ph.key, path);
      if Chosen(ph, o.res).Ok? {
        AllSuccessTerminates(r, st0, o.st, phs[1..], path, Extended(acc, ph, Chosen(ph, o.res).value));
      }
    }
  }

  /** No placeholder with a default refers to a key that reaches a cycle. */
  ghost predicate SafeDefaults(st: Store, norm: Norm) {
    forall k | k in st && st[k].Str? ::
      forall t | t in st[k].ts && t.Ref? && t.def.Some? :: !ReachesCycle(st, norm, norm(t.key))
  }

  /** Then all references end where those without default do. */
  lemma {:induction false} SafeTerminates(st: Store, norm: Norm, k: string, n: nat)
    requires SafeDefaults(st, norm) && Bounded(Bare(st), norm, k, n)
    ensures Terminates(st, norm, k)
    decreases n
  {
    if k in st && st[k].Str? {
      forall t | t in st[k].ts && t.Ref?
        ensures Terminates(st, norm, norm(t.key))
      {
        if t.def.Some? {
          TerminatesExactly(st, norm, norm(t.key));
        } else {
          assert t in Bare(st)[k].ts;
          SafeTerminates(st, norm, norm(t.key), n - 1);
        }
      }
      TerminatesIfReferencesDo(st, norm, k);
    } else {
      assert Bounded(st, norm, k, 0);
    }
  }

  /***************************** Whole runs *****************************/

  lemma {:induction false} VisitsReportCycles(r: Run, st0: Store, st: Store, order: seq<string>)
    requires Shuffles(r) && Within(st, r.universe) && (forall k | k in st0 :: r.norm(k) == k)
    requires Shows(r, st0, st) && IsVisitOf(order, st0) && Settled(st0, r.norm, st)
    ensures var o := VisitAll(r, st, order);
            && (o.res.Circular? ==> exists k :: k in order && ReachesCycle(st0, r.norm, k))
            && (NoMalformed(st0) ==> !o.res.BadSyntax?)
            && (o.res.Ok? ==> forall k | k in order :: Terminates(Bare(st0), r.norm, k))
    decreases |order|
  {
    if order != [] {
      var k := order[0];
      assert k in order;
      ReportsAreReal(r, st0, st, k, []);
      SuccessTerminates(r, st0, st, k, []);
      var o := ResolveValue(r, st, k, []);
      if o.res.Ok? {
        VisitsReportCycles(r, st0, o.st, order[1..]);
        assert forall x :: x in order <==> x == k || x in order[1..];
      }
    }
  }

  /** A reported circular reference is always real, defaults or not. */
  lemma CircularIsReal(r: Run, st0: Store, order: seq<string>)
    requires Loadable(r, st0) && IsVisitOf(order, st0)
    ensures VisitAll(r, st0, order).res.Circular? ==> exists k :: k in order && ReachesCycle(st0, r.norm, k)
  {
    ShowsInitially(r, st0);
    VisitsReportCycles(r, st0, st0, order);
  }

  /** Some leaf of the order reaches a cycle. */
  ghost predicate SomeReaches(st: Store, norm: Norm, order: seq<string>) {
    exists k :: k in order && ReachesCycle(st, norm, k)
  }

  /** Without malformed strings, a run over any sequence of leaves succeeds or reports a
      circular reference. It reports one if some leaf reaches a cycle of references without
      default, and only if some leaf reaches a cycle; so if no placeholder with a default
      refers to a key that reaches a cycle, it reports one exactly then. */
  lemma CircularExactly(r: Run, st0: Store, order: seq<string>)
    requires Loadable(r, st0) && IsVisitOf(order, st0) && NoMalformed(st0)
    ensures var o := VisitAll(r, st0, order);
            && (o.res.Ok? || o.res.Circular?)
            && (SomeReaches(Bare(st0), r.norm, order) ==> o.res.Circular?)
            && (o.res.Circular? ==> SomeReaches(st0, r.norm, order))
            && (SafeDefaults(st0, r.norm) ==> (o.res.Circular? <==> SomeReaches(st0, r.norm, order)))
  {
    ShowsInitially(r, st0);
    VisitsReportCycles(r, st0, st0, order);
    if VisitAll(r, st0, order).res.Ok? {
      forall k | k in order
        ensures !ReachesCycle(Bare(st0), r.norm, k)
        ensures SafeDefaults(st0, r.norm) ==> !ReachesCycle(st0, r.norm, k)
      {
        TerminatingReachesNoCycle(Bare(st0), r.norm, k);
        if SafeDefaults(st0, r.norm) {
          var n: nat :| Bounded(Bare(st0), r.norm, k, n);
          SafeTerminates(st0, r.norm, k, n);
          TerminatingReachesNoCycle(st0, r.norm, k);
        }
      }
    }
  }

  /***************************** Ranks *****************************/

  lemma {:induction false} RanksFallAlong(st: Store, g: Graph, p: seq<string>)
    requires Ranked(st, g) && IsPath(st, g.norm, p)
    ensures g.rank(p[|p| - 1]) < g.rank(p[0])
    decreases |p|
  {
    assert Edge(st, g.norm, p[0], p[1]);
    if |p| > 2 {
      PathTail(st, g.norm, p);
      RanksFallAlong(st, g, p[1..]);
    }
  }

  ghost predicate Acyclic(st: Store, norm: Norm) {
    forall k :: !Reaches(st, norm, k, k)
  }

  lemma AcyclicTerminates(st: Store, norm: Norm, k: string)
    requires Acyclic(st, norm)
    ensures Terminates(st, norm, k)
  {
    TerminatesExactly(st, norm, k);
  }

  lemma {:induction false} LeastBound(st: Store, norm: Norm, k: string, n: nat) returns (m: nat)
    requires Bounded(st, norm, k, n)
    ensures Bounded(st, norm, k, m) && (m > 0 ==> !Bounded(st, norm, k, m - 1))
    decreases n
  {
    if n > 0 && Bounded(st, norm, k, n - 1) {
      m := LeastBound(st, norm, k, n - 1);
    } else {
      m := n;
    }
  }

  ghost predicate IsHeight(st: Store, norm: Norm, k: string, m: nat) {
    Bounded(st, norm, k, m) && (m > 0 ==> !Bounded(st, norm, k, m - 1))
  }

  ghost function Height(st: Store, norm: Norm, k: string): nat {
    if m: nat :| IsHeight(st, norm, k, m) then m else 0
  }

  /** A configuration can be ranked exactly when no leaf reaches itself. */
  lemma RankedIffAcyclic(st: Store, norm: Norm)
    ensures Acyclic(st, norm) <==> exists g: Graph :: g.norm == norm && Ranked(st, g)
  {
    if g: Graph :| g.norm == norm && Ranked(st, g) {
      forall k
        ensures !Reaches(st, norm, k, k)
      {
        if Reaches(st, norm, k, k) {
          var p :| IsPath(st, norm, p) && p[0] == k && p[|p| - 1] == k;
          RanksFallAlong(st, g, p);
        }
      }
    }
    if Acyclic(st, norm) {
      var g := Graph(norm, k => Height(st, norm, k));
      forall k | k in st && st[k].Str?
        ensures RanksBelow(st[k].ts, g, g.rank(k))
      {
        HeightsFall(st, norm, k);
      }
      assert Ranked(st, g);
    }
  }

  lemma HeightIsLeast(st: Store, norm: Norm, k: string)
    requires Acyclic(st, norm)
    ensures IsHeight(st, norm, k, Height(st, norm, k))
  {
    AcyclicTerminates(st, norm, k);
    var n: nat :| Bounded(st, norm, k, n);
    var m := LeastBound(st, norm, k, n);
    assert IsHeight(st, norm, k, m);
  }

  lemma HeightsFall(st: Store, norm: Norm, k: string)
    requires Acyclic(st, norm) && k in st && st[k].Str?
    ensures forall t | t in st[k].ts && t.Ref? :: Height(st, norm, norm(t.key)) < Height(st, norm, k)
  {
    HeightIsLeast(st, norm, k);
    forall t | t in st[k].ts && t.Ref?
      ensures Height(st, norm, norm(t.key)) < Height(st, norm, k)
    {
      var m := norm(t.key);
      HeightIsLeast(st, norm, m);
      var h := Height(st, norm, k);
      assert Bounded(st, norm, m, h - 1);
      if Height(st, norm, m) > h - 1 {
        BoundedMonotone(st, norm, m, h - 1, Height(st, norm, m) - 1);
      }
    }
  }

  /***************************** Defaults on a cycle *****************************/

  /** `a` is "${b:d}" and `b` is "${a}". */
  function DefaultedCycle(a: string, b: string, d: string): Store {
    map[a := Str([Ref(b, Some(Plain(d)))]), b := Str([Ref(a, None)])]
  }

  ghost predicate CycleRun(r: Run, a: string, b: string) {
    Shuffles(r) && a in r.universe && b in r.universe && a != b && r.norm(a) == a && r.norm(b) == b
  }

  lemma LonePlaceholder(t: Token)
    requires t.Ref?
    ensures Placeholders([t]) == [t]
  {
    assert [t][1..] == [];
  }

  /** Resolving a lone placeholder whose key is not being resolved. */
  lemma ResolveLone(r: Run, st: Store, key: string, visited: seq<string>, t: Token)
    requires Shuffles(r) && Within(st, r.universe) && t.Ref? && t.key in r.universe
    requires Lookup(st, r.norm(key)) == Str([t]) && t.key !in visited + [key]
    ensures var o := ResolveValue(r, st, t.key, visited + [key]);
            var v := Chosen(t, o.res);
            ResolveValue(r, st, key, visited) ==
            if v.Ok? then Outcome(SetLeaf(o.st, r.norm(key), v.value), v) else Outcome(o.st, v)
  {
    LonePlaceholder(t);
    ResolveUnfolds(r, st, key, visited);
    assert [t][1..] == [];
    var path := visited + [key];
    var o := ResolveValue(r, st, t.key, path);
    var v := Chosen(t, o.res);
    if v.Ok? {
      var es := if v.value == Nil then [] else [Entry(t.key, SearchText(t), v.value)];
      assert ResolveAll(r, o.st, [], path, es) == Done(o.st, es);
    }
  }

  lemma ResolveRepeated(r: Run, st: Store, key: string, visited: seq<string>, t: Token)
    requires Shuffles(r) && Within(st, r.universe) && t.Ref?
    requires Lookup(st, r.norm(key)) == Str([t]) && t.key in visited + [key]
    ensures ResolveValue(r, st, key, visited) == Outcome(st, Circular)
  {
    LonePlaceholder(t);
    assert t in Placeholders([t]);
  }

  /** With a default on a cycle, whether the run succeeds depends on the visiting order:
      the check for a repeated key comes before the default is considered. */
  lemma DefaultOnCycleIsOrderDependent(r: Run, a: string, b: string, d: string)
    requires CycleRun(r, a, b)
    ensures Within(DefaultedCycle(a, b, d), r.universe)
    ensures VisitAll(r, DefaultedCycle(a, b, d), [a, b]).res.Ok?
    ensures VisitAll(r, DefaultedCycle(a, b, d), [b, a]).res.Circular?
  {
    var st := DefaultedCycle(a, b, d);
    var ta, tb := Ref(a, None), Ref(b, Some(Plain(d)));
    // a first: b runs back into a, and the default of a's placeholder covers that
    ResolveRepeated(r, st, b, [a], ta);
    assert [] + [a] == [a];
    ResolveLone(r, st, a, [], tb);
    var o := ResolveValue(r, st, a, []);
    NoPlaceholders(Chars(d));
    assert [] + [b] == [b];
    ResolveLone(r, o.st, b, [], ta);
    assert ResolveValue(r, o.st, b, []).res.Ok?;
    assert [a, b][1..] == [b] && [b][1..] == [];
    assert VisitAll(r, o.st, [b]).res.Ok?;
    // b first: a runs back into b, and b's placeholder has no default
    ResolveRepeated(r, st, a, [b], tb);
    ResolveLone(r, st, b, [], ta);
  }
}
