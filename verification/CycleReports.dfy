/** Defaults on cycles. Which configurations are reported as circular whatever the visiting
    order: those with a cycle of references without default, and those with a leaf that
    mentions itself. For every other one there is an order that succeeds.
 */
module CycleReports {
  import opened Collections
  import opened Text
  import opened Placeholder
  import opened Resolver
  import opened Substitution
  import opened Replacement
  import opened Memo
  import opened Resolution
  import opened Cycles

  /** Placeholders mention keys as they are stored. */
  ghost predicate NormalKeys(r: Run) {
    forall x | x in r.universe :: r.norm(x) == x
  }

  /** Every placeholder of a longer string is searched for as it is written, and no two
      different ones share a key. */
  ghost predicate ToldApart(ts: seq<Token>) {
    |ts| > 1 ==>
      && (forall t | t in ts && t.Ref? :: PrintsBack(t))
      && (forall t, u | t in ts && u in ts && t.Ref? && u.Ref? && t.key == u.key :: t == u)
  }

  ghost predicate AllToldApart(st: Store) {
    forall k | k in st && st[k].Str? :: ToldApart(st[k].ts)
  }

  /***************************** Keys that end in nothing *****************************/

  predicate LoneBare(v: Value) {
    v.Str? && |v.ts| == 1 && v.ts[0].Ref? && v.ts[0].def.None?
  }

  /** After at most `n` lone references without default there is nothing. */
  ghost predicate Hollow(st: Store, key: string, n: nat)
    decreases n
  {
    var v := Lookup(st, key);
    v == Nil || (n > 0 && LoneBare(v) && Hollow(st, v.ts[0].key, n - 1))
  }

  ghost predicate EndsInNothing(st: Store, key: string) {
    exists n :: Hollow(st, key, n)
  }

  /** What is left of `v` are references without default that end in nothing. */
  ghost predicate Spent(st: Store, v: Value) {
    !v.Malformed? && (v.Str? ==> forall t | t in v.ts && t.Ref? :: t.def.None? && EndsInNothing(st, t.key))
  }

  lemma {:induction false} HollowMonotone(st: Store, key: string, m: nat, n: nat)
    requires Hollow(st, key, m) && m <= n
    ensures Hollow(st, key, n)
    decreases m
  {
    var v := Lookup(st, key);
    if v != Nil {
      HollowMonotone(st, v.ts[0].key, m - 1, n - 1);
    }
  }

  /** Whatever ended in nothing still does. */
  ghost predicate KeepsHollow(st: Store, st': Store) {
    forall key, n :: Hollow(st, key, n) ==> Hollow(st', key, n)
  }

  lemma SpentStays(st: Store, st': Store, v: Value)
    requires KeepsHollow(st, st') && Spent(st, v)
    ensures Spent(st', v)
  {
    if v.Str? {
      forall t | t in v.ts && t.Ref?
        ensures EndsInNothing(st', t.key)
      {
        var n: nat :| Hollow(st, t.key, n);
        assert Hollow(st', t.key, n);
      }
    }
  }

  /** If leaf `k` ends in nothing, so does `v`, sooner. */
  ghost predicate Shortens(st: Store, k: string, v: Value) {
    forall n: nat | Hollow(st, k, n) :: n > 0 && LoneBare(v) && Hollow(st, v.ts[0].key, n - 1)
  }

  lemma {:induction false} WriteKeepsOne(st: Store, k: string, v: Value, key: string, n: nat)
    requires k in st && Shortens(st, k, v) && Hollow(st, key, n)
    ensures Hollow(st[k := v], key, n)
    decreases n
  {
    if key == k {
      assert Hollow(st, k, n);
      WriteKeepsOne(st, k, v, v.ts[0].key, n - 1);
    } else if Lookup(st, key) != Nil {
      WriteKeepsOne(st, k, v, Lookup(st, key).ts[0].key, n - 1);
    }
  }

  lemma WriteKeepsHollow(st: Store, k: string, v: Value)
    requires k in st && Shortens(st, k, v)
    ensures KeepsHollow(st, st[k := v])
  {
    forall key, n: nat | Hollow(st, key, n)
      ensures Hollow(st[k := v], key, n)
    {
      WriteKeepsOne(st, k, v, key, n);
    }
  }

  /***************************** What a run keeps *****************************/

  /** Every leaf is as it was, or spent. */
  ghost predicate Underway(st0: Store, st: Store) {
    st.Keys == st0.Keys && NoMalformed(st) && forall k | k in st0 :: st[k] == st0[k] || Spent(st, st[k])
  }

  lemma WriteKeepsUnderway(st0: Store, st: Store, k: string, v: Value)
    requires Underway(st0, st) && k in st && Shortens(st, k, v) && Spent(st, v)
    ensures Underway(st0, st[k := v]) && KeepsHollow(st, st[k := v])
  {
    WriteKeepsHollow(st, k, v);
    forall x | x in st0 && Spent(st, st[k := v][x])
      ensures Spent(st[k := v], st[k := v][x])
    {
      SpentStays(st, st[k := v], st[k := v][x]);
    }
  }

  /** The value a key resolves to is spent, is what the leaf holds, and is nil only for a key
      that ends in nothing. */
  ghost predicate Leftover(st: Store, key: string, v: Value) {
    && Spent(st, v)
    && (if v == Nil then EndsInNothing(st, key) else Lookup(st, key) == v)
  }

  ghost predicate SameAlong(path: seq<string>, st: Store, st': Store) {
    forall v | v in path :: Lookup(st', v) == Lookup(st, v)
  }

  ghost predicate Goes(st0: Store, st: Store, path: seq<string>, st': Store) {
    Underway(st0, st') && Underway(st, st') && KeepsHollow(st, st') && SameAlong(path, st, st')
  }

  lemma GoesFurther(st0: Store, st: Store, path: seq<string>, st1: Store, st2: Store)
    requires Goes(st0, st, path, st1) && Goes(st0, st1, path, st2)
    ensures Goes(st0, st, path, st2)
  {
    forall k | k in st && Spent(st1, st1[k])
      ensures Spent(st2, st1[k])
    {
      SpentStays(st1, st2, st1[k]);
    }
  }

  ghost predicate Went(st0: Store, st: Store, key: string, path: seq<string>, o: Outcome) {
    Goes(st0, st, path, o.st) && !o.res.BadSyntax? && (o.res.Ok? ==> Leftover(o.st, key, o.res.value))
  }

  /***************************** A lone placeholder *****************************/

  lemma DefaultIsSpent(st: Store, d: Default)
    ensures Spent(st, DefaultValue(d)) && DefaultValue(d) != Nil
  {
  }

  lemma LoneShortens(st: Store, key: string, t: Token, v: Value)
    requires t.Ref? && Lookup(st, key) == Str([t])
    requires t.def.None? ==> v != Nil && Lookup(st, t.key) == v
    ensures Shortens(st, key, v)
  {
    forall n: nat | Hollow(st, key, n)
      ensures n > 0 && LoneBare(v) && Hollow(st, v.ts[0].key, n - 1)
    {
      assert Hollow(st, t.key, n - 1);
      HollowMonotone(st, v.ts[0].key, n - 2, n - 1);
    }
  }

  lemma LoneGoes(r: Run, st0: Store, st: Store, key: string, visited: seq<string>, t: Token)
    requires Shuffles(r) && Within(st, r.universe) && t.Ref? && t.key in r.universe
    requires r.norm(key) == key && key !in visited
    requires Lookup(st, key) == Str([t]) && t.key !in visited + [key]
    requires Went(st0, st, t.key, visited + [key], ResolveValue(r, st, t.key, visited + [key]))
    ensures Went(st0, st, key, visited, ResolveValue(r, st, key, visited))
  {
    ResolveLone(r, st, key, visited, t);
    var o := ResolveValue(r, st, t.key, visited + [key]);
    var v := Chosen(t, o.res);
    assert Lookup(o.st, key) == Str([t]);
    if v.Ok? && v.value == Nil {
      var n: nat :| Hollow(o.st, t.key, n);
      assert Hollow(o.st, key, n + 1);
    } else if v.Ok? {
      if t.def.Some? {
        DefaultIsSpent(o.st, t.def.value);
      }
      LoneShortens(o.st, key, t, v.value);
      WriteKeepsUnderway(st0, o.st, key, v.value);
      WriteKeepsUnderway(st, o.st, key, v.value);
      SpentStays(o.st, o.st[key := v.value], v.value);
    }
  }

  /***************************** A longer string *****************************/

  /** Entries with spent values, for some of `phs`; the others end in nothing. */
  ghost predicate Gleaned(st: Store, es: seq<Entry>, phs: seq<Token>) {
    && (forall e | e in es :: GleanedFrom(st, e, phs))
    && (forall ph | ph in phs && ph.Ref? :: HasKey(es, ph.key) || (ph.def.None? && EndsInNothing(st, ph.key)))
  }

  ghost predicate GleanedFrom(st: Store, e: Entry, phs: seq<Token>) {
    Spent(st, e.value) && exists ph :: ph in phs && ph.Ref? && e.key == ph.key && e.search == SearchText(ph)
  }

  lemma GleanedStays(st: Store, st': Store, es: seq<Entry>, phs: seq<Token>)
    requires KeepsHollow(st, st') && Gleaned(st, es, phs)
    ensures Gleaned(st', es, phs)
  {
    forall e | e in es
      ensures GleanedFrom(st', e, phs)
    {
      assert GleanedFrom(st, e, phs);
      SpentStays(st, st', e.value);
    }
    forall ph | ph in phs && ph.Ref? && !HasKey(es, ph.key)
      ensures EndsInNothing(st', ph.key)
    {
      var n: nat :| Hollow(st, ph.key, n);
      assert Hollow(st', ph.key, n);
    }
  }

  lemma GleanedOneMore(st: Store, es: seq<Entry>, done: seq<Token>, ph: Token, v: Value)
    requires Gleaned(st, es, done) && ph.Ref? && Spent(st, v)
    requires v == Nil ==> ph.def.None? && EndsInNothing(st, ph.key)
    ensures Gleaned(st, Extended(es, ph, v), done + [ph])
  {
    var e := Entry(ph.key, SearchText(ph), v);
    var es' := Extended(es, ph, v);
    forall x | x in es'
      ensures GleanedFrom(st, x, done + [ph])
    {
      if x in es {
        assert GleanedFrom(st, x, done);
        var q :| q in done && q.Ref? && x.key == q.key && x.search == SearchText(q);
        assert q in done + [ph];
      } else {
        assert ph in done + [ph];
      }
    }
    forall q | q in done + [ph] && q.Ref?
      ensures HasKey(es', q.key) || (q.def.None? && EndsInNothing(st, q.key))
    {
      PutEntryKeys(es, e, q.key);
    }
  }

  /** A token that is left was not searched for, or comes from a value. */
  lemma {:induction false} WhereFrom(ts: seq<Token>, es: seq<Entry>, t: Token)
    requires t.Ref? && t in ReplaceEntries(ts, es)
    ensures || (exists e :: e in es && t in Printed(e.value))
            || (t in ts && forall e | e in es :: e.search != TokenText(t))
    decreases |es|
  {
    if es != [] {
      var e := es[0];
      var ts' := ReplaceTokens(ts, e.search, Printed(e.value));
      WhereFrom(ts', es[1..], t);
      if x :| x in es[1..] && t in Printed(x.value) {
        assert x in es;
      } else {
        ReplacedFrom(ts, e.search, Printed(e.value), t);
        assert forall x | x in es :: x == e || x in es[1..];
      }
    }
  }

  lemma {:induction false} ReplacedFrom(ts: seq<Token>, pat: string, with: seq<Token>, t: Token)
    requires t.Ref? && t in ReplaceTokens(ts, pat, with)
    ensures t in with || (t in ts && TokenText(t) != pat)
  {
    if ts != [] && t in ReplaceTokens(ts[1..], pat, with) {
      ReplacedFrom(ts[1..], pat, with, t);
    }
  }

  lemma PrintedIsSpent(st: Store, v: Value)
    requires Spent(st, v)
    ensures Spent(st, Str(Printed(v)))
  {
  }

  /** What is assembled for a longer string is spent. */
  lemma AssembledIsSpent(r: Run, st: Store, ts: seq<Token>, es: seq<Entry>)
    requires Shuffles(r) && |ts| > 1 && Gleaned(st, es, ts) && (ToldApart(ts) || Spent(st, Str(ts)))
    ensures Assemble(r, ts, es).Str? && Spent(st, Assemble(r, ts, es))
  {
    var left := ReplaceEntries(ts, r.shuffle(es));
    ShuffleKeeps(r, es);
    forall t | t in left && t.Ref?
      ensures t.def.None? && EndsInNothing(st, t.key)
    {
      WhereFrom(ts, r.shuffle(es), t);
      if e :| e in r.shuffle(es) && t in Printed(e.value) {
        assert GleanedFrom(st, e, ts);
        PrintedIsSpent(st, e.value);
      } else if ToldApart(ts) {
        NotSearched(st, ts, es, t);
      }
    }
  }

  lemma NotSearched(st: Store, ts: seq<Token>, es: seq<Entry>, t: Token)
    requires |ts| > 1 && Gleaned(st, es, ts) && ToldApart(ts) && t in ts && t.Ref?
    requires forall e | e in es :: e.search != TokenText(t)
    ensures t.def.None? && EndsInNothing(st, t.key)
  {
    if HasKey(es, t.key) {
      var e :| e in es && e.key == t.key;
      assert GleanedFrom(st, e, ts);
      SearchIsText(t);
    }
  }

  lemma FinishGoes(r: Run, st0: Store, st: Store, key: string, visited: seq<string>, ts: seq<Token>, p: Progress)
    requires Shuffles(r) && |ts| > 1 && TokensIn(ts, r.universe) && Within(p.st, r.universe)
    requires p.Done? ==> forall e | e in p.es :: RefsIn(e.value, r.universe)
    requires p.Stop? ==> p.why.Circular?
    requires r.norm(key) == key && key !in visited && Lookup(st, key) == Str(ts)
    requires ToldApart(ts) || Spent(st, Str(ts))
    requires Goes(st0, st, visited + [key], p.st) && (p.Done? ==> Gleaned(p.st, p.es, ts))
    ensures Went(st0, st, key, visited, Finish(r, key, ts, p))
  {
    assert Lookup(p.st, key) == Str(ts);
    if p.Done? {
      if Spent(st, Str(ts)) {
        SpentStays(st, p.st, Str(ts));
      }
      AssembledIsSpent(r, p.st, ts, p.es);
      var v := Assemble(r, ts, p.es);
      assert Shortens(p.st, key, v);
      WriteKeepsUnderway(st0, p.st, key, v);
      WriteKeepsUnderway(st, p.st, key, v);
      SpentStays(p.st, p.st[key := v], v);
    }
  }

  /***************************** Any key *****************************/

  lemma {:induction false} KeyGoes(r: Run, st0: Store, st: Store, key: string, visited: seq<string>)
    requires Shuffles(r) && NormalKeys(r) && Within(st, r.universe) && AllToldApart(st0) && Underway(st0, st)
    requires r.norm(key) == key && key !in visited
    ensures Went(st0, st, key, visited, ResolveValue(r, st, key, visited))
    decreases |r.universe - SetOf(visited) - {key}|, 1, 0
  {
    var val := Lookup(st, key);
    if !val.Str? || Placeholders(val.ts) == [] {
      PlainGoes(r, st0, st, key, visited);
    } else if forall ph | ph in Placeholders(val.ts) :: ph.key !in visited + [key] {
      var phs, path := Placeholders(val.ts), visited + [key];
      SameMeasure(r.universe, visited, key);
      if |val.ts| == 1 {
        var t := LoneRef(val.ts);
        FirstOne(r, st, phs, path, []);
        KeyGoes(r, st0, st, t.key, path);
        LoneGoes(r, st0, st, key, visited, t);
      } else {
        AllGo(r, st0, st, [], phs, path, []);
        EmptyLeft(phs);
        ResolveUnfolds(r, st, key, visited);
        FinishGoes(r, st0, st, key, visited, val.ts, ResolveAll(r, st, phs, path, []));
      }
    }
  }

  lemma LoneRef(ts: seq<Token>) returns (t: Token)
    requires |ts| == 1 && Placeholders(ts) != []
    ensures t.Ref? && ts == [t] && Placeholders(ts) == [t]
  {
    t := ts[0];
    assert Placeholders(ts)[0] in ts;
    assert ts == [t];
    LonePlaceholder(t);
  }

  lemma PlainGoes(r: Run, st0: Store, st: Store, key: string, visited: seq<string>)
    requires Shuffles(r) && Within(st, r.universe) && Underway(st0, st) && r.norm(key) == key
    requires Lookup(st, key).Str? ==> Placeholders(Lookup(st, key).ts) == []
    ensures Went(st0, st, key, visited, ResolveValue(r, st, key, visited))
  {
    var val := Lookup(st, key);
    if val == Nil {
      assert Hollow(st, key, 0);
    }
    if val.Str? {
      assert forall t | t in val.ts && t.Ref? :: t in Placeholders(val.ts);
    }
  }

  lemma {:induction false} AllGo(r: Run, st0: Store, st: Store, done: seq<Token>, phs: seq<Token>, path: seq<string>,
                                 acc: seq<Entry>)
    requires Shuffles(r) && NormalKeys(r) && Within(st, r.universe) && AllToldApart(st0) && Underway(st0, st)
    requires forall ph | ph in phs :: ph.Ref? && ph.key in r.universe && ph.key !in path
    requires forall e | e in acc :: RefsIn(e.value, r.universe)
    requires Gleaned(st, acc, done)
    ensures var p := ResolveAll(r, st, phs, path, acc);
            && Goes(st0, st, path, p.st) && (p.Stop? ==> p.why.Circular?)
            && (p.Done? ==> Gleaned(p.st, p.es, done + phs))
    decreases |r.universe - SetOf(path)|, 0, |phs|
  {
    if phs == [] {
      EmptyRight(done);
    } else {
      var ph := phs[0];
      FirstOne(r, st, phs, path, acc);
      KeyGoes(r, st0, st, ph.key, path);
      var o := ResolveValue(r, st, ph.key, path);
      GleanedStays(st, o.st, acc, done);
      if Chosen(ph, o.res).Ok? {
        var v := Chosen(ph, o.res).value;
        ChosenIsSpent(o.st, ph, o.res);
        GleanedOneMore(o.st, acc, done, ph, v);
        AllGo(r, st0, o.st, done + [ph], phs[1..], path, Extended(acc, ph, v));
        GoesFurther(st0, st, path, o.st, ResolveAll(r, o.st, phs[1..], path, Extended(acc, ph, v)).st);
        Shift(done, phs);
      }
    }
  }

  lemma ChosenIsSpent(st: Store, ph: Token, res: Result)
    requires ph.Ref? && (res.Ok? ==> Leftover(st, ph.key, res.value)) && Chosen(ph, res).Ok?
    ensures var v := Chosen(ph, res).value;
            Spent(st, v) && (v == Nil ==> ph.def.None? && EndsInNothing(st, ph.key))
  {
    if ph.def.Some? {
      DefaultIsSpent(st, ph.def.value);
    }
  }

  /***************************** Leaves that are spent *****************************/

  /** A key that ends in nothing resolves to nothing, if its references stay clear of the
      keys being resolved. */
  lemma {:induction false} HollowIsNil(r: Run, st: Store, key: string, path: seq<string>, n: nat)
    requires Shuffles(r) && NormalKeys(r) && Within(st, r.universe) && r.norm(key) == key
    requires Hollow(st, key, n) && forall v | v in path :: !Hollow(st, v, n)
    ensures ResolveValue(r, st, key, path) == Outcome(st, Ok(Nil))
    decreases n
  {
    var val := Lookup(st, key);
    if val != Nil {
      var t := val.ts[0];
      assert val.ts == [t];
      forall v | v in path
        ensures !Hollow(st, v, n - 1)
      {
        if Hollow(st, v, n - 1) {
          HollowMonotone(st, v, n - 1, n);
        }
      }
      if Hollow(st, key, n - 1) {
        HollowIsNil(r, st, key, path, n - 1);
      } else {
        HollowIsNil(r, st, t.key, path + [key], n - 1);
        ResolveLone(r, st, key, path, t);
      }
    }
  }

  lemma {:induction false} AllHollowPass(r: Run, st: Store, phs: seq<Token>, path: seq<string>)
    requires Shuffles(r) && NormalKeys(r) && Within(st, r.universe)
    requires forall ph | ph in phs :: ph.Ref? && ph.key in r.universe && ph.key !in path
    requires forall ph | ph in phs :: ph.def.None? && EndsInNothing(st, ph.key)
    requires forall v | v in path :: !EndsInNothing(st, v)
    ensures ResolveAll(r, st, phs, path, []) == Done(st, [])
    decreases |phs|
  {
    if phs != [] {
      var ph := phs[0];
      FirstOne(r, st, phs, path, []);
      var n: nat :| Hollow(st, ph.key, n);
      HollowIsNil(r, st, ph.key, path, n);
      AllHollowPass(r, st, phs[1..], path);
    }
  }

  lemma {:induction false} LeastHollow(st: Store, key: string, n: nat) returns (m: nat)
    requires Hollow(st, key, n)
    ensures Hollow(st, key, m) && (m > 0 ==> !Hollow(st, key, m - 1))
    decreases n
  {
    if n > 0 && Hollow(st, key, n - 1) {
      m := LeastHollow(st, key, n - 1);
    } else {
      m := n;
    }
  }

  /** The leaf is longer than one placeholder, so it does not end in nothing. */
  lemma LongIsNotHollow(st: Store, key: string)
    requires Lookup(st, key).Str? && !LoneBare(Lookup(st, key))
    ensures !EndsInNothing(st, key)
  {
  }

  /** A spent leaf that is not one lone placeholder resolves, if none of the keys being
      resolved ends in nothing. */
  lemma SpentResolves(r: Run, st: Store, key: string, path: seq<string>)
    requires Shuffles(r) && NormalKeys(r) && Within(st, r.universe) && r.norm(key) == key
    requires Spent(st, Lookup(st, key)) && !LoneBare(Lookup(st, key))
    requires forall v | v in path :: !EndsInNothing(st, v)
    ensures ResolveValue(r, st, key, path).res.Ok?
  {
    var val := Lookup(st, key);
    if val.Str? && Placeholders(val.ts) != [] {
      var phs, path' := Placeholders(val.ts), path + [key];
      LongIsNotHollow(st, key);
      AllHollowPass(r, st, phs, path');
      ResolveUnfolds(r, st, key, path);
    }
  }

  /** Leaf `k` is being resolved, and refers to a spent leaf. */
  lemma SpentTarget(r: Run, st: Store, k: string, t: Token)
    requires Shuffles(r) && NormalKeys(r) && Within(st, r.universe)
    requires Lookup(st, k).Str? && t in Lookup(st, k).ts && t.Ref? && t.key in r.universe && t.key != k
    requires Spent(st, Lookup(st, t.key))
    ensures ResolveValue(r, st, t.key, [k]).res.Ok?
  {
    var target := Lookup(st, t.key);
    if LoneBare(target) {
      assert target.ts[0] in target.ts;
      var m: nat :| Hollow(st, target.ts[0].key, m);
      assert Hollow(st, t.key, m + 1);
      var n := LeastHollow(st, t.key, m + 1);
      LaterThan(st, k, t, n);
      HollowIsNil(r, st, t.key, [k], n);
    } else if target == Nil {
      HollowIsNil(r, st, t.key, [k], 0);
    } else {
      NotHollowEither(st, k, t);
      SpentResolves(r, st, t.key, [k]);
    }
  }

  /** If `k` ends in nothing at all, then one step after its reference. */
  lemma LaterThan(st: Store, k: string, t: Token, n: nat)
    requires Lookup(st, k).Str? && t in Lookup(st, k).ts && t.Ref? && (n > 0 ==> !Hollow(st, t.key, n - 1))
    ensures !Hollow(st, k, n)
  {
  }

  lemma NotHollowEither(st: Store, k: string, t: Token)
    requires Lookup(st, k).Str? && t in Lookup(st, k).ts && t.Ref?
    requires !LoneBare(Lookup(st, t.key)) && Lookup(st, t.key) != Nil
    ensures !EndsInNothing(st, k)
  {
    forall n: nat
      ensures !Hollow(st, k, n)
    {
      LaterThan(st, k, t, n);
    }
  }

  /***************************** Visiting one leaf *****************************/

  ghost predicate MentionsItself(st: Store, k: string) {
    k in st && st[k].Str? && exists t :: t in st[k].ts && t.Ref? && t.key == k
  }

  /** The references of `ts` without default lead to spent leaves. */
  ghost predicate Prepared(st: Store, ts: seq<Token>) {
    forall t | t in ts && t.Ref? && t.def.None? :: Spent(st, Lookup(st, t.key))
  }

  lemma StillPrepared(st: Store, st': Store, ts: seq<Token>)
    requires Prepared(st, ts) && Underway(st, st') && KeepsHollow(st, st')
    ensures Prepared(st', ts)
  {
    forall t | t in ts && t.Ref? && t.def.None?
      ensures Spent(st', Lookup(st', t.key))
    {
      StillSpent(st, st', t.key);
    }
  }

  lemma StillSpent(st: Store, st': Store, key: string)
    requires Spent(st, Lookup(st, key)) && Underway(st, st') && KeepsHollow(st, st')
    ensures Spent(st', Lookup(st', key))
  {
    SpentStays(st, st', Lookup(st, key));
  }

  lemma {:induction false} AllPass(r: Run, st0: Store, st: Store, k: string, phs: seq<Token>, acc: seq<Entry>)
    requires Shuffles(r) && NormalKeys(r) && Within(st, r.universe) && AllToldApart(st0) && Underway(st0, st)
    requires k in st0 && r.norm(k) == k && st0[k].Str? && st[k] == st0[k]
    requires forall ph | ph in phs :: ph in st0[k].ts && ph.Ref? && ph.key in r.universe && ph.key !in [k]
    requires forall e | e in acc :: RefsIn(e.value, r.universe)
    requires Prepared(st, phs)
    ensures ResolveAll(r, st, phs, [k], acc).Done?
    decreases |phs|
  {
    if phs != [] {
      var ph := phs[0];
      FirstOne(r, st, phs, [k], acc);
      KeyGoes(r, st0, st, ph.key, [k]);
      var o := ResolveValue(r, st, ph.key, [k]);
      if ph.def.None? {
        SpentTarget(r, st, k, ph);
      }
      assert k in [k];
      StillPrepared(st, o.st, phs[1..]);
      AllPass(r, st0, o.st, k, phs[1..], Extended(acc, ph, Chosen(ph, o.res).value));
    }
  }

  /** A leaf that does not mention itself and whose references without default lead to spent
      leaves is resolved, and is spent from then on. */
  lemma VisitPasses(r: Run, st0: Store, st: Store, k: string)
    requires Shuffles(r) && NormalKeys(r) && Within(st, r.universe) && AllToldApart(st0) && Underway(st0, st)
    requires k in st0 && r.norm(k) == k && !MentionsItself(st0, k)
    requires st0[k].Str? ==> Prepared(st, st0[k].ts)
    ensures var o := ResolveValue(r, st, k, []);
            o.res.Ok? && Goes(st0, st, [], o.st) && Spent(o.st, o.st[k])
  {
    KeyGoes(r, st0, st, k, []);
    if Spent(st, st[k]) {
      if LoneBare(st[k]) {
        assert st[k].ts[0] in st[k].ts;
        var m: nat :| Hollow(st, st[k].ts[0].key, m);
        assert Hollow(st, k, m + 1);
        HollowIsNil(r, st, k, [], m + 1);
      } else {
        SpentResolves(r, st, k, []);
      }
    } else {
      FreshPasses(r, st0, st, k);
    }
    LeavesSpent(r, st0, st, k);
  }

  lemma FreshPasses(r: Run, st0: Store, st: Store, k: string)
    requires Shuffles(r) && NormalKeys(r) && Within(st, r.universe) && AllToldApart(st0) && Underway(st0, st)
    requires k in st0 && r.norm(k) == k && !MentionsItself(st0, k)
    requires st[k] == st0[k] && (st0[k].Str? ==> Prepared(st, st0[k].ts))
    ensures ResolveValue(r, st, k, []).res.Ok?
  {
    if st0[k].Str? && Placeholders(st0[k].ts) != [] {
      var phs := Placeholders(st0[k].ts);
      AllPass(r, st0, st, k, phs, []);
      assert [] + [k] == [k];
      ResolveUnfolds(r, st, k, []);
    }
  }

  /** What a leaf is left with when it resolves. */
  lemma LeavesSpent(r: Run, st0: Store, st: Store, k: string)
    requires Shuffles(r) && Within(st, r.universe) && k in st0 && k in st
    requires var o := ResolveValue(r, st, k, []); o.res.Ok? && Went(st0, st, k, [], o)
    ensures Spent(ResolveValue(r, st, k, []).st, ResolveValue(r, st, k, []).st[k])
  {
    var o := ResolveValue(r, st, k, []);
    LeftoverIsSpent(o.st, k, o.res.value);
  }

  lemma LeftoverIsSpent(st: Store, k: string, v: Value)
    requires k in st && Leftover(st, k, v)
    ensures Spent(st, st[k])
  {
    if v == Nil {
      var n: nat :| Hollow(st, k, n);
      if st[k] != Nil {
        assert Hollow(st, st[k].ts[0].key, n - 1);
      }
    }
  }

  /***************************** Whole runs *****************************/

  /** No chain of references without default comes back, and no leaf mentions itself. */
  ghost predicate Escapable(st: Store, norm: Norm) {
    Acyclic(Bare(st), norm) && forall k | k in st :: !MentionsItself(st, k)
  }

  lemma {:induction false} LowestOf(keys: set<string>, g: Graph) returns (k: string)
    requires keys != {}
    ensures k in keys && forall x | x in keys :: g.rank(k) <= g.rank(x)
    decreases |keys|
  {
    k :| k in keys;
    if keys != {k} {
      var low := LowestOf(keys - {k}, g);
      if g.rank(low) < g.rank(k) {
        k := low;
      }
    }
  }

  /** The leaves visited so far are spent. */
  ghost predicate SpentOutside(st: Store, remaining: set<string>) {
    forall k | k in st && k !in remaining :: Spent(st, st[k])
  }

  lemma LowestIsPrepared(r: Run, st0: Store, g: Graph, st: Store, remaining: set<string>, k: string)
    requires NormalKeys(r) && Within(st0, r.universe) && r.norm == g.norm && Ranked(Bare(st0), g)
    requires Underway(st0, st) && SpentOutside(st, remaining)
    requires k in st0 && st0[k].Str? && forall x | x in remaining :: g.rank(k) <= g.rank(x)
    ensures Prepared(st, st0[k].ts)
  {
    forall t | t in st0[k].ts && t.Ref? && t.def.None?
      ensures Spent(st, Lookup(st, t.key))
    {
      assert t in Bare(st0)[k].ts;
      assert g.rank(t.key) < g.rank(k);
    }
  }

  /** Visiting the leaves by rank along the references without default succeeds. */
  lemma SomeRunSucceeds(r: Run, st0: Store) returns (order: seq<string>)
    requires Loadable(r, st0) && NormalKeys(r) && AllToldApart(st0) && NoMalformed(st0) && Escapable(st0, r.norm)
    ensures Complete(order, st0) && VisitAll(r, st0, order).res.Ok?
  {
    RankedIffAcyclic(Bare(st0), r.norm);
    var g: Graph :| g.norm == r.norm && Ranked(Bare(st0), g);
    var remaining, st := st0.Keys, st0;
    order := [];
    while remaining != {}
      invariant Visited(order, st0.Keys, remaining) && Underway(st0, st) && Within(st, r.universe)
      invariant VisitAll(r, st0, order).res.Ok? && VisitAll(r, st0, order).st == st && SpentOutside(st, remaining)
      decreases |remaining|
    {
      var k := LowestOf(remaining, g);
      VisitNext(r, st0, g, st, remaining, k);
      VisitOneMore(r, st0, order, k);
      VisitedOneMore(order, st0.Keys, remaining, k);
      st := ResolveValue(r, st, k, []).st;
      order, remaining := order + [k], remaining - {k};
    }
    VisitedSoFar(order, st0, remaining);
  }

  lemma VisitNext(r: Run, st0: Store, g: Graph, st: Store, remaining: set<string>, k: string)
    requires Loadable(r, st0) && NormalKeys(r) && AllToldApart(st0) && Within(st, r.universe)
    requires forall x | x in st0 :: !MentionsItself(st0, x)
    requires r.norm == g.norm && Ranked(Bare(st0), g) && Underway(st0, st) && SpentOutside(st, remaining)
    requires k in remaining && remaining <= st0.Keys && forall x | x in remaining :: g.rank(k) <= g.rank(x)
    ensures var o := ResolveValue(r, st, k, []);
            o.res.Ok? && Underway(st0, o.st) && SpentOutside(o.st, remaining - {k})
  {
    if st0[k].Str? {
      LowestIsPrepared(r, st0, g, st, remaining, k);
    }
    VisitPasses(r, st0, st, k);
    var o := ResolveValue(r, st, k, []);
    forall x | x in o.st && x !in remaining - {k}
      ensures Spent(o.st, o.st[x])
    {
      if x != k {
        StillSpent(st, o.st, x);
      }
    }
  }

  /** A leaf that mentions itself is never rewritten, and resolving it is an error. */
  lemma {:induction false} SelfStays(r: Run, st: Store, key: string, visited: seq<string>, k: string)
    requires Shuffles(r) && NormalKeys(r) && Within(st, r.universe) && r.norm(key) == key && MentionsItself(st, k)
    ensures var o := ResolveValue(r, st, key, visited);
            o.st[k] == st[k] && (key == k ==> !o.res.Ok?)
    decreases |r.universe - SetOf(visited) - {key}|, 1, 0
  {
    var val := Lookup(st, key);
    if key == k {
      SelfFails(r, st, k, visited);
    } else if !val.Str? || Placeholders(val.ts) == [] {
      assert ResolveValue(r, st, key, visited).st == st;
    } else {
      var phs, path := Placeholders(val.ts), visited + [key];
      if forall ph | ph in phs :: ph.key !in path {
        SameMeasure(r.universe, visited, key);
        AllSelfStay(r, st, phs, path, [], k);
        ResolveUnfolds(r, st, key, visited);
        OtherLeafStays(r, key, val.ts, ResolveAll(r, st, phs, path, []), k);
      }
    }
  }

  lemma SelfFails(r: Run, st: Store, k: string, visited: seq<string>)
    requires Shuffles(r) && Within(st, r.universe) && r.norm(k) == k && MentionsItself(st, k)
    ensures ResolveValue(r, st, k, visited) == Outcome(st, Circular)
  {
    var t :| t in st[k].ts && t.Ref? && t.key == k;
    assert t in Placeholders(st[k].ts) && t.key in visited + [k];
  }

  lemma OtherLeafStays(r: Run, key: string, ts: seq<Token>, p: Progress, k: string)
    requires Shuffles(r) && ts != [] && TokensIn(ts, r.universe) && Within(p.st, r.universe)
    requires p.Done? ==> forall e | e in p.es :: RefsIn(e.value, r.universe)
    requires p.Stop? ==> !p.why.Ok?
    requires r.norm(key) != k
    ensures Lookup(Finish(r, key, ts, p).st, k) == Lookup(p.st, k)
  {
  }

  lemma {:induction false} AllSelfStay(r: Run, st: Store, phs: seq<Token>, path: seq<string>, acc: seq<Entry>,
                                       k: string)
    requires Shuffles(r) && NormalKeys(r) && Within(st, r.universe) && MentionsItself(st, k)
    requires forall ph | ph in phs :: ph.Ref? && ph.key in r.universe && ph.key !in path
    requires forall e | e in acc :: RefsIn(e.value, r.universe)
    ensures ResolveAll(r, st, phs, path, acc).st[k] == st[k]
    decreases |r.universe - SetOf(path)|, 0, |phs|
  {
    if phs != [] {
      var ph := phs[0];
      FirstOne(r, st, phs, path, acc);
      SelfStays(r, st, ph.key, path, k);
      var o := ResolveValue(r, st, ph.key, path);
      if Chosen(ph, o.res).Ok? {
        AllSelfStay(r, o.st, phs[1..], path, Extended(acc, ph, Chosen(ph, o.res).value), k);
      }
    }
  }

  lemma {:induction false} SelfIsReported(r: Run, st: Store, order: seq<string>, k: string)
    requires Shuffles(r) && NormalKeys(r) && Within(st, r.universe) && MentionsItself(st, k) && k in order
    requires forall x | x in order :: r.norm(x) == x
    ensures !VisitAll(r, st, order).res.Ok?
    decreases |order|
  {
    SelfStays(r, st, order[0], [], k);
    var o := ResolveValue(r, st, order[0], []);
    if order[0] != k && o.res.Ok? {
      SelfIsReported(r, o.st, order[1..], k);
    }
  }

  /** A configuration that cannot be escaped is reported by every run over all its leaves. */
  lemma InescapableIsReported(r: Run, st0: Store, order: seq<string>)
    requires Loadable(r, st0) && NormalKeys(r) && NoMalformed(st0) && Covers(order, st0) && !Escapable(st0, r.norm)
    ensures VisitAll(r, st0, order).res.Circular?
  {
    CircularExactly(r, st0, order);
    if k :| k in st0 && MentionsItself(st0, k) {
      SelfIsReported(r, st0, order, k);
    } else {
      var k :| Reaches(Bare(st0), r.norm, k, k);
      OnCycleReaches(Bare(st0), r.norm, k);
    }
  }

  /** Every run over all leaves reports a circular reference exactly if there is a cycle of
      references without default, or a leaf mentions itself. */
  lemma ReportedInEveryRun(r: Run, st0: Store)
    requires Loadable(r, st0) && NormalKeys(r) && AllToldApart(st0) && NoMalformed(st0)
    ensures (forall order | Complete(order, st0) :: VisitAll(r, st0, order).res.Circular?) <==> !Escapable(st0, r.norm)
  {
    if Escapable(st0, r.norm) {
      var order := SomeRunSucceeds(r, st0);
    } else {
      forall order | Complete(order, st0)
        ensures VisitAll(r, st0, order).res.Circular?
      {
        InescapableIsReported(r, st0, order);
      }
    }
  }

  /** A circular reference is reported exactly when there is one, in every run over all
      leaves, if and only if there is none or one that cannot be escaped. */
  lemma ReportedExactly(r: Run, st0: Store)
    requires Loadable(r, st0) && NormalKeys(r) && AllToldApart(st0) && NoMalformed(st0)
    ensures (forall order | Complete(order, st0) :: VisitAll(r, st0, order).res.Circular? <==> !Acyclic(st0, r.norm)) <==>
            Acyclic(st0, r.norm) || !Escapable(st0, r.norm)
  {
    ReportedInEveryRun(r, st0);
    if Acyclic(st0, r.norm) {
      forall order | Complete(order, st0)
        ensures !VisitAll(r, st0, order).res.Circular?
      {
        CircularIsReal(r, st0, order);
      }
    }
  }

  /** What a load that stops at the first error says about cycles. */
  lemma LoadReports(r: Run, st0: Store, order: seq<string>)
    requires Loadable(r, st0) && NoMalformed(st0) && IsVisitOf(order, st0)
    requires VisitAll(r, st0, order).res.Ok? ==> Covers(order, st0)
    ensures var o := VisitAll(r, st0, order);
            && (o.res.Ok? || o.res.Circular?)
            && (o.res.Circular? ==> !Acyclic(st0, r.norm))
            && (!Acyclic(Bare(st0), r.norm) || (NormalKeys(r) && !Escapable(st0, r.norm)) ==> o.res.Circular?)
            && (SafeDefaults(st0, r.norm) ==> (o.res.Circular? <==> !Acyclic(st0, r.norm)))
  {
    CircularExactly(r, st0, order);
    if VisitAll(r, st0, order).res.Ok? {
      if k :| Reaches(Bare(st0), r.norm, k, k) {
        OnCycleReaches(Bare(st0), r.norm, k);
      }
      if k :| Reaches(st0, r.norm, k, k) {
        OnCycleReaches(st0, r.norm, k);
      }
      if NormalKeys(r) && !Escapable(st0, r.norm) {
        InescapableIsReported(r, st0, order);
      }
    }
  }

  lemma OnCycleReaches(st: Store, norm: Norm, k: string)
    requires Reaches(st, norm, k, k)
    ensures k in st && ReachesCycle(st, norm, k)
  {
    var p :| IsPath(st, norm, p) && p[0] == k && p[|p| - 1] == k;
    assert Edge(st, norm, p[0], p[1]);
    assert OnOrReaches(st, norm, k, k);
  }

  /***************************** A default that is never put in place *****************************/

  /** Two leaves: `x` is "${y}", and `y` is "${x:d}" followed by `c`, where `d` prints
      otherwise than it is written. */
  ghost predicate OddCycle(r: Run, st: Store, x: string, y: string, d: Default, c: char) {
    && CycleRun(r, x, y) && Within(st, r.universe) && st.Keys == {x, y} && d.Printed() != d.raw
    && st[x] == Str([Ref(y, None)]) && st[y] == Str([Ref(x, Some(d)), Ch(c)])
  }

  lemma OddSearch(x: string, d: Default)
    requires d.Printed() != d.raw
    ensures SearchText(Ref(x, Some(d))) != TokenText(Ref(x, Some(d)))
  {
    var a, b := SearchText(Ref(x, Some(d))), TokenText(Ref(x, Some(d)));
    assert a[|x| + 3..|a| - 1] == d.Printed() && b[|x| + 3..|b| - 1] == d.raw;
  }

  lemma {:induction false} NothingReplaced(ts: seq<Token>, pat: string, with: seq<Token>)
    requires forall t | t in ts && t.Ref? :: TokenText(t) != pat
    ensures ReplaceTokens(ts, pat, with) == ts
  {
    if ts != [] {
      assert ts[0] in ts;
      NothingReplaced(ts[1..], pat, with);
    }
  }

  lemma OneEntry(r: Run, e: Entry)
    requires Shuffles(r)
    ensures r.shuffle([e]) == [e]
  {
    var s := r.shuffle([e]);
    assert multiset(s) == multiset([e]);
    assert |s| == |multiset(s)| == 1;
    assert s[0] in multiset(s);
  }

  lemma OnlyPlaceholder(t: Token, c: char)
    requires t.Ref?
    ensures Placeholders([t, Ch(c)]) == [t]
  {
    assert [t, Ch(c)][1..] == [Ch(c)] && [Ch(c)][1..] == [];
  }

  /** The default is put nowhere. */
  lemma OddAssembles(r: Run, x: string, d: Default, c: char)
    requires Shuffles(r) && d.Printed() != d.raw
    ensures var t := Ref(x, Some(d));
            Assemble(r, [t, Ch(c)], [Entry(x, SearchText(t), DefaultValue(d))]) == Str([t, Ch(c)])
  {
    var t := Ref(x, Some(d));
    var e := Entry(x, SearchText(t), DefaultValue(d));
    OneEntry(r, e);
    OddSearch(x, d);
    NothingReplaced([t, Ch(c)], e.search, Printed(e.value));
    assert [e][1..] == [];
    assert ReplaceEntries([t, Ch(c)], [e]) == ReplaceEntries([t, Ch(c)], []) == [t, Ch(c)];
  }

  lemma OddGathers(r: Run, st: Store, x: string, y: string, d: Default, c: char)
    requires OddCycle(r, st, x, y, d, c)
    ensures var t := Ref(x, Some(d));
            ResolveAll(r, st, [t], [y], []) == Done(st, [Entry(x, SearchText(t), DefaultValue(d))])
  {
    var t := Ref(x, Some(d));
    ResolveRepeated(r, st, x, [y], Ref(y, None));
    FirstOne(r, st, [t], [y], []);
    assert [t][1..] == [];
  }

  /** Resolving `y` leaves everything as it is. */
  lemma OddLeafStays(r: Run, st: Store, x: string, y: string, d: Default, c: char)
    requires OddCycle(r, st, x, y, d, c)
    ensures ResolveValue(r, st, y, []) == Outcome(st, Ok(st[y]))
  {
    var t := Ref(x, Some(d));
    OnlyPlaceholder(t, c);
    assert [] + [y] == [y];
    OddGathers(r, st, x, y, d, c);
    ResolveUnfolds(r, st, y, []);
    OddAssembles(r, x, d, c);
    assert st[y := st[y]] == st;
  }

  lemma OddLeafFails(r: Run, st: Store, x: string, y: string, d: Default, c: char)
    requires OddCycle(r, st, x, y, d, c)
    ensures ResolveValue(r, st, x, []) == Outcome(st, Circular)
  {
    var t := Ref(x, Some(d));
    OnlyPlaceholder(t, c);
    assert [] + [x] == [x] && t in Placeholders(st[y].ts) && t.key in [x] + [y];
    assert ResolveValue(r, st, y, [x]) == Outcome(st, Circular);
    ResolveLone(r, st, x, [], Ref(y, None));
  }

  lemma {:induction false} OddRunFails(r: Run, st: Store, x: string, y: string, d: Default, c: char, order: seq<string>)
    requires OddCycle(r, st, x, y, d, c) && x in order && IsVisitOf(order, st)
    ensures VisitAll(r, st, order).res.Circular?
    decreases |order|
  {
    assert order[0] in order;
    if order[0] == x {
      OddLeafFails(r, st, x, y, d, c);
    } else {
      OddLeafStays(r, st, x, y, d, c);
      assert forall k | k in order[1..] :: k in order;
      OddRunFails(r, st, x, y, d, c, order[1..]);
    }
  }

  lemma OddIsEscapable(r: Run, st: Store, x: string, y: string, d: Default, c: char)
    requires OddCycle(r, st, x, y, d, c)
    ensures Escapable(st, r.norm)
  {
    var g := Graph(r.norm, k => if k == x then 1 else 0);
    forall k, t | k in st && t in Bare(st)[k].ts && t.Ref?
      ensures g.rank(g.norm(t.key)) < g.rank(k)
    {
      assert t in st[k].ts && t.def.None?;
      assert k != y;
    }
    RankedIffAcyclic(Bare(st), r.norm);
  }

  /** Telling placeholders apart matters: here every run is reported, although the only cycle
      has a default on it and no leaf mentions itself. */
  lemma OddDefaultOnCycle(r: Run, st: Store, x: string, y: string, d: Default, c: char)
    requires OddCycle(r, st, x, y, d, c)
    ensures Escapable(st, r.norm) && forall order | Complete(order, st) :: VisitAll(r, st, order).res.Circular?
  {
    OddIsEscapable(r, st, x, y, d, c);
    forall order | Complete(order, st)
      ensures VisitAll(r, st, order).res.Circular?
    {
      OddRunFails(r, st, x, y, d, c, order);
    }
  }
}
