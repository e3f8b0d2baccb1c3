/** In-place resolution against pure substitution. Written-back values act as a memo:
    whatever has been resolved before, resolving a leaf gives its substitution in the
    initial configuration, unless a reference leads to a leaf that collapses.
 */
module Memo {
  import opened Collections
  import opened Text
  import opened Placeholder
  import opened Resolver
  import opened Substitution
  import opened Replacement

  /** Every leaf holds what it held initially, or its value. */
  ghost predicate Memoised(st0: Store, vs: Values, st: Store) {
    && st.Keys == st0.Keys
    && forall k | k in st0 :: st[k] == st0[k] || (st[k] != Nil && ValueAt(vs, k) == Some(st[k]))
  }

  /** The leaf's value is a string that consists of one dead placeholder. Read again, that
      string counts as a lone placeholder without a value, no longer as a string. */
  predicate Collapses(vs: Values, k: string) {
    match ValueAt(vs, k)
    case Some(Str(ts)) => |ts| == 1 && ts[0].Ref?
    case _ => false
  }

  ghost predicate NoneCollapses(vs: Values, norm: Norm, ts: seq<Token>) {
    forall t | t in ts && t.Ref? :: !Collapses(vs, norm(t.key))
  }

  /** No leaf of rank below `bound` refers to a leaf that collapses. */
  ghost predicate CleanBelow(st0: Store, g: Graph, vs: Values, bound: nat) {
    forall k | k in st0 && st0[k].Str? && g.rank(k) < bound :: NoneCollapses(vs, g.norm, st0[k].ts)
  }

  function Lift(v: Option<Value>): Result {
    if v.Some? then Ok(v.value) else BadSyntax
  }

  /** The keys being resolved outrank what is left to resolve. */
  ghost predicate RanksAbove(path: seq<string>, g: Graph, bound: nat) {
    forall v | v in path :: g.rank(g.norm(v)) >= bound
  }

  /** A step that resolves leaves of rank below `bound` only. */
  ghost predicate Progresses(st0: Store, g: Graph, vs: Values, st: Store, st': Store, bound: nat) {
    && Memoised(st0, vs, st')
    && st.Keys == st0.Keys
    && (forall k | k in st0 && g.rank(k) >= bound :: st'[k] == st[k])
    && (forall k | k in st0 && st[k] == Final(st0, vs, k) :: st'[k] == Final(st0, vs, k))
  }

  lemma ProgressTransitive(st0: Store, g: Graph, vs: Values, a: Store, b: Store, c: Store, low: nat, high: nat)
    requires low <= high
    requires Progresses(st0, g, vs, a, b, low) && Progresses(st0, g, vs, b, c, high)
    ensures Progresses(st0, g, vs, a, c, high)
  {
  }

  /** What resolving key `k` must produce from a memoised store. */
  ghost predicate Resolved(st0: Store, g: Graph, vs: Values, st: Store, k: string, o: Outcome)
    requires Memoised(st0, vs, st)
  {
    && Progresses(st0, g, vs, st, o.st, g.rank(k) + 1)
    && o.res == (if Collapses(vs, k) && k in st0 && st[k] != st0[k] then Ok(Nil) else Lift(ValueAt(vs, k)))
    && (k in st0 && o.res.Ok? ==> o.st[k] == Final(st0, vs, k))
  }

  lemma WriteBack(st0: Store, g: Graph, vs: Values, st: Store, st1: Store, k: string, v: Value)
    requires Memoised(st0, vs, st) && Progresses(st0, g, vs, st, st1, g.rank(k)) && k in st0
    requires || (st[k] == st0[k] && ValueAt(vs, k) == Some(v))
             || (st[k] != st0[k] && v == (if Collapses(vs, k) then Nil else st[k]))
    ensures Resolved(st0, g, vs, st, k, Outcome(SetLeaf(st1, k, v), Ok(v)))
  {
    var st' := SetLeaf(st1, k, v);
    assert forall j | j in st0 && j != k :: st'[j] == st1[j];
    assert st1[k] == st[k];
    assert st'[k] == Final(st0, vs, k);
  }

  /***************************** One string *****************************/

  lemma FreshValue(r: Run, st0: Store, g: Graph, k: string, es: seq<Entry>)
    requires Shuffles(r) && Ranked(st0, g) && WellFormedBelow(st0, g, g.rank(k) + 1)
    requires k in st0 && st0[k].Str? && Placeholders(st0[k].ts) != []
    requires Gathers(st0, g, g.rank(k), es, st0[k].ts)
    requires forall t | t in st0[k].ts && t.Ref? :: PureRef(st0, g, t, g.rank(k)).Some?
    ensures Pure(st0, g, k) == Some(Assemble(r, st0[k].ts, es))
  {
    var ts := st0[k].ts;
    if |ts| > 1 {
      AssembleIsPure(r, st0, g, g.rank(k), es, ts);
    } else {
      assert ts == [ts[0]] && Placeholders(ts)[0] in ts;
      AssembleLone(r, st0, g, g.rank(k), es, ts[0]);
    }
  }

  lemma DeadNotRecorded(st0: Store, g: Graph, bound: nat, e: Entry, ts: seq<Token>)
    requires Ranked(st0, g) && OnlyDead(st0, g, Str(ts), bound)
    ensures !Recorded(st0, g, bound, e, ts)
  {
    forall ph | ph in ts && ph.Ref?
      ensures !EntryFor(st0, g, bound, e, ph)
    {
      assert Dead(st0, g, ph, bound);
    }
  }

  /** Reading a resolved string again changes nothing, except that a lone dead placeholder
      has no value. */
  lemma DeadValue(r: Run, st0: Store, g: Graph, bound: nat, es: seq<Entry>, ts: seq<Token>)
    requires Shuffles(r) && Ranked(st0, g) && RanksBelow(ts, g, bound) && Placeholders(ts) != []
    requires OnlyDead(st0, g, Str(ts), bound) && Gathers(st0, g, bound, es, ts)
    ensures Assemble(r, ts, es) == if |ts| > 1 then Str(ts) else Nil
  {
    if es != [] {
      DeadNotRecorded(st0, g, bound, es[0], ts);
    }
    assert multiset(r.shuffle(es)) == multiset(es);
    assert |r.shuffle(es)| == |multiset(r.shuffle(es))|;
    assert Placeholders(ts)[0] in ts;
  }

  lemma {:induction false} NeverMalformed(st0: Store, g: Graph, k: string)
    requires Ranked(st0, g)
    ensures Pure(st0, g, k) != Some(Malformed)
    decreases g.rank(k)
  {
    if k in st0 && st0[k].Str? && |st0[k].ts| == 1 && st0[k].ts[0].Ref? {
      var t := st0[k].ts[0];
      assert t in st0[k].ts;
      NeverMalformed(st0, g, g.norm(t.key));
    }
  }

  /***************************** One leaf *****************************/

  /** The placeholders leaf `k` of a memoised store shows: those of the initial leaf, or
      dead ones. */
  lemma MemoisedTokens(st0: Store, g: Graph, vs: Values, st: Store, k: string)
    requires Ranked(st0, g) && PlainKeys(st0) && vs == PureValues(st0, g) && Memoised(st0, vs, st)
    requires k in st0 && st[k].Str? && CleanBelow(st0, g, vs, g.rank(k) + 1)
    ensures RanksBelow(st[k].ts, g, g.rank(k)) && NoneCollapses(vs, g.norm, st[k].ts)
    ensures st[k] != st0[k] ==> OnlyDead(st0, g, st[k], g.rank(k))
  {
    if st[k] != st0[k] {
      PureLeavesDead(st0, g, k);
      assert OnlyDead(st0, g, st[k], g.rank(k));
      forall t | t in st[k].ts && t.Ref?
        ensures g.rank(g.norm(t.key)) < g.rank(k) && !Collapses(vs, g.norm(t.key))
      {
        assert Dead(st0, g, t, g.rank(k));
        PureIsValueAt(st0, g, g.norm(t.key));
      }
    }
  }

  lemma NotCircular(g: Graph, ts: seq<Token>, path: seq<string>, bound: nat)
    requires RanksBelow(ts, g, bound) && RanksAbove(path, g, bound)
    ensures forall ph | ph in Placeholders(ts) :: ph.key !in path
  {
    forall ph | ph in Placeholders(ts)
      ensures ph.key !in path
    {
      assert g.rank(g.norm(ph.key)) < bound;
    }
  }

  lemma {:induction false} ResolveIsPure(r: Run, st0: Store, g: Graph, vs: Values, st: Store, key: string,
                                         visited: seq<string>)
    requires Shuffles(r) && r.norm == g.norm && Within(st, r.universe)
    requires Ranked(st0, g) && WellFormedBelow(st0, g, g.rank(g.norm(key)) + 1) && vs == PureValues(st0, g)
    requires Memoised(st0, vs, st)
    requires CleanBelow(st0, g, vs, g.rank(g.norm(key)) + 1)
    requires RanksAbove(visited, g, g.rank(g.norm(key)))
    ensures Resolved(st0, g, vs, st, g.norm(key), ResolveValue(r, st, key, visited))
    decreases g.rank(g.norm(key)), 1, 0
  {
    var k := g.norm(key);
    var val := Lookup(st, k);
    if val.Str? && Placeholders(val.ts) != [] {
      MemoisedTokens(st0, g, vs, st, k);
      var phs, path := Placeholders(val.ts), visited + [key];
      NotCircular(g, val.ts, path, g.rank(k));
      GatherIsPure(r, st0, g, vs, st, [], phs, path, [], g.rank(k));
      var p := ResolveAll(r, st, phs, path, []);
      EmptyLeft(phs);
      ResolveUnfolds(r, st, key, visited);
      if p.Done? {
        GathersPlaceholders(st0, g, g.rank(k), p.es, val.ts);
        FinishIsPure(r, st0, g, vs, st, k, p);
      } else {
        StopIsPure(st0, g, vs, st, k, p);
      }
    } else {
      PlainIsPure(st0, g, vs, st, k);
    }
  }

  /** A leaf without placeholders is its own value. */
  lemma PlainIsPure(st0: Store, g: Graph, vs: Values, st: Store, k: string)
    requires Ranked(st0, g) && vs == PureValues(st0, g) && Memoised(st0, vs, st)
    requires var val := Lookup(st, k); val.Str? ==> Placeholders(val.ts) == []
    ensures var val := Lookup(st, k);
            Resolved(st0, g, vs, st, k, Outcome(st, if val.Malformed? then BadSyntax else Ok(val)))
  {
    NeverMalformed(st0, g, k);
    PureIsValueAt(st0, g, k);
  }

  lemma StopIsPure(st0: Store, g: Graph, vs: Values, st: Store, k: string, p: Progress)
    requires Ranked(st0, g) && vs == PureValues(st0, g) && Memoised(st0, vs, st)
    requires k in st0 && st[k].Str? && RanksBelow(st[k].ts, g, g.rank(k))
    requires st[k] != st0[k] ==> OnlyDead(st0, g, st[k], g.rank(k))
    requires p.Stop? && p.why == BadSyntax && Progresses(st0, g, vs, st, p.st, g.rank(k))
    requires exists ph :: ph in Placeholders(st[k].ts) && PureRef(st0, g, ph, g.rank(k)).None?
    ensures Resolved(st0, g, vs, st, k, Outcome(p.st, BadSyntax))
  {
    var ph :| ph in Placeholders(st[k].ts) && PureRef(st0, g, ph, g.rank(k)).None?;
    assert st[k] == st0[k] by {
      assert Dead(st0, g, ph, g.rank(k)) ==> PureRef(st0, g, ph, g.rank(k)) == Some(Nil);
    }
    assert Pure(st0, g, k).None?;
  }

  lemma FinishIsPure(r: Run, st0: Store, g: Graph, vs: Values, st: Store, k: string, p: Progress)
    requires Shuffles(r) && Ranked(st0, g) && WellFormedBelow(st0, g, g.rank(k) + 1) && vs == PureValues(st0, g)
    requires Memoised(st0, vs, st)
    requires k in st0 && st[k].Str? && Placeholders(st[k].ts) != []
    requires RanksBelow(st[k].ts, g, g.rank(k))
    requires st[k] != st0[k] ==> OnlyDead(st0, g, st[k], g.rank(k))
    requires p.Done? && Progresses(st0, g, vs, st, p.st, g.rank(k))
    requires Gathers(st0, g, g.rank(k), p.es, st[k].ts)
    requires forall t | t in st[k].ts && t.Ref? :: PureRef(st0, g, t, g.rank(k)).Some?
    ensures var v := Assemble(r, st[k].ts, p.es);
            Resolved(st0, g, vs, st, k, Outcome(SetLeaf(p.st, k, v), Ok(v)))
  {
    var v := Assemble(r, st[k].ts, p.es);
    if st[k] == st0[k] {
      FreshValue(r, st0, g, k, p.es);
    } else {
      DeadValue(r, st0, g, g.rank(k), p.es, st[k].ts);
    }
    WriteBack(st0, g, vs, st, p.st, k, v);
  }

  /***************************** Its placeholders *****************************/

  /** What resolving the placeholders `phs`, after those of `done`, must produce. */
  ghost predicate Gathered(st0: Store, g: Graph, vs: Values, st: Store, done: seq<Token>, phs: seq<Token>,
                           bound: nat, p: Progress)
    requires Ranked(st0, g) && RanksBelow(done, g, bound) && RanksBelow(phs, g, bound)
  {
    && Progresses(st0, g, vs, st, p.st, bound)
    && (if forall ph | ph in phs && ph.Ref? :: PureRef(st0, g, ph, bound).Some?
        then p.Done? && Gathers(st0, g, bound, p.es, done + phs)
        else p.Stop? && p.why == BadSyntax)
  }

  lemma {:induction false} GatherIsPure(r: Run, st0: Store, g: Graph, vs: Values, st: Store, done: seq<Token>,
                                        phs: seq<Token>, path: seq<string>, acc: seq<Entry>, bound: nat)
    requires Shuffles(r) && r.norm == g.norm && Within(st, r.universe)
    requires Ranked(st0, g) && WellFormedBelow(st0, g, bound) && vs == PureValues(st0, g) && Memoised(st0, vs, st)
    requires forall ph | ph in phs :: ph.Ref? && ph.key in r.universe && ph.key !in path
    requires forall e | e in acc :: RefsIn(e.value, r.universe)
    requires RanksBelow(done, g, bound) && RanksBelow(phs, g, bound)
    requires CleanBelow(st0, g, vs, bound) && NoneCollapses(vs, g.norm, phs) && RanksAbove(path, g, bound)
    requires Gathers(st0, g, bound, acc, done)
    ensures Gathered(st0, g, vs, st, done, phs, bound, ResolveAll(r, st, phs, path, acc))
    decreases bound, 0, |phs|
  {
    if phs == [] {
      assert done + phs == done;
    } else {
      var ph := phs[0];
      FirstOne(r, st, phs, path, acc);
      var o := ResolveValue(r, st, ph.key, path);
      ResolveIsPure(r, st0, g, vs, st, ph.key, path);
      ChoosesPure(st0, g, vs, st, ph, o, bound);
      if PureRef(st0, g, ph, bound).Some? {
        var acc' := Extended(acc, ph, PureRef(st0, g, ph, bound).value);
        GathersOneMore(st0, g, bound, acc, done, ph);
        GatherIsPure(r, st0, g, vs, o.st, done + [ph], phs[1..], path, acc', bound);
        GatheredStep(st0, g, vs, st, done, phs, bound, o.st, ResolveAll(r, o.st, phs[1..], path, acc'));
      }
    }
  }

  /** What is chosen for a placeholder is what it stands for. */
  lemma ChoosesPure(st0: Store, g: Graph, vs: Values, st: Store, ph: Token, o: Outcome, bound: nat)
    requires Ranked(st0, g) && vs == PureValues(st0, g) && Memoised(st0, vs, st)
    requires ph.Ref? && g.rank(g.norm(ph.key)) < bound && !Collapses(vs, g.norm(ph.key))
    requires Resolved(st0, g, vs, st, g.norm(ph.key), o)
    ensures Chosen(ph, o.res) == Lift(PureRef(st0, g, ph, bound))
  {
    PureIsValueAt(st0, g, g.norm(ph.key));
  }

  lemma GatheredStep(st0: Store, g: Graph, vs: Values, st: Store, done: seq<Token>, phs: seq<Token>, bound: nat,
                     st1: Store, p: Progress)
    requires Ranked(st0, g) && RanksBelow(done, g, bound) && RanksBelow(phs, g, bound) && phs != []
    requires phs[0].Ref? && PureRef(st0, g, phs[0], bound).Some?
    requires Progresses(st0, g, vs, st, st1, g.rank(g.norm(phs[0].key)) + 1)
    requires Gathered(st0, g, vs, st1, done + [phs[0]], phs[1..], bound, p)
    ensures Gathered(st0, g, vs, st, done, phs, bound, p)
  {
    ProgressTransitive(st0, g, vs, st, st1, p.st, g.rank(g.norm(phs[0].key)) + 1, bound);
    assert done + [phs[0]] + phs[1..] == done + phs;
    assert forall ph :: ph in phs <==> ph == phs[0] || ph in phs[1..];
  }

  lemma {:induction false} PutEntryKeys(es: seq<Entry>, e: Entry, key: string)
    ensures HasKey(PutEntry(es, e), key) <==> HasKey(es, key) || e.key == key
  {
    var after := PutEntry(es, e);
    if es == [] {
      assert e in after;
    } else if es[0].key == e.key {
      assert forall x :: x in es <==> x == es[0] || x in es[1..];
      assert forall x :: x in after <==> x == e || x in es[1..];
    } else {
      PutEntryKeys(es[1..], e, key);
      assert forall x :: x in es <==> x == es[0] || x in es[1..];
      assert forall x :: x in after <==> x == es[0] || x in PutEntry(es[1..], e);
    }
  }

  lemma GathersOneMore(st0: Store, g: Graph, bound: nat, acc: seq<Entry>, done: seq<Token>, ph: Token)
    requires Ranked(st0, g) && RanksBelow(done, g, bound)
    requires ph.Ref? && g.rank(g.norm(ph.key)) < bound && PureRef(st0, g, ph, bound).Some?
    requires Gathers(st0, g, bound, acc, done)
    ensures Gathers(st0, g, bound, Extended(acc, ph, PureRef(st0, g, ph, bound).value), done + [ph])
  {
    var v := PureRef(st0, g, ph, bound).value;
    var e := Entry(ph.key, SearchText(ph), v);
    var acc' := if v == Nil then acc else PutEntry(acc, e);
    forall x | x in acc'
      ensures Recorded(st0, g, bound, x, done + [ph])
    {
      if x in acc {
        assert Recorded(st0, g, bound, x, done);
        var q :| q in done && EntryFor(st0, g, bound, x, q);
        assert q in done + [ph];
      } else {
        assert ph in done + [ph] && EntryFor(st0, g, bound, e, ph);
      }
    }
    forall q | q in done + [ph] && q.Ref? && PureRef(st0, g, q, bound) != Some(Nil)
      ensures HasKey(acc', q.key)
    {
      PutEntryKeys(acc, e, q.key);
    }
  }
}
