/** Why leaves that collapse matter: once such a leaf has been written back, a leaf that
    refers to it no longer receives its value.
 */
module Collapse {
  import opened Collections
  import opened Text
  import opened Placeholder
  import opened Resolver
  import opened Substitution
  import opened Replacement
  import opened Memo
  import opened Resolution
  import opened Persistence
  import Cycles

  /** What a placeholder of a leaf that refers to collapsing leaves may be given. */
  ghost predicate Stands(st0: Store, g: Graph, vs: Values, bound: nat, ph: Token, v: Value)
    requires Ranked(st0, g) && ph.Ref? && g.rank(g.norm(ph.key)) < bound
  {
    || PureRef(st0, g, ph, bound) == Some(v)
    || (Collapses(vs, g.norm(ph.key)) && ph.def.Some? && v == DefaultValue(ph.def.value))
  }

  ghost predicate StrayEntry(st0: Store, g: Graph, vs: Values, bound: nat, e: Entry, ts: seq<Token>)
    requires Ranked(st0, g) && RanksBelow(ts, g, bound)
  {
    exists ph :: ph in ts && ph.Ref? && e.key == ph.key && e.search == SearchText(ph)
                 && e.value != Nil && Stands(st0, g, vs, bound, ph, e.value)
  }

  /** Entries gathered for `ts` when the target of its placeholder `t0` has collapsed. */
  ghost predicate Strays(st0: Store, g: Graph, vs: Values, bound: nat, ts: seq<Token>, t0: Token, es: seq<Entry>)
    requires Ranked(st0, g) && RanksBelow(ts, g, bound) && t0.Ref?
  {
    && (forall e | e in es :: StrayEntry(st0, g, vs, bound, e, ts))
    && (forall e | e in es && e.key == t0.key :: t0.def.Some? && e.value == DefaultValue(t0.def.value))
  }

  /** Placeholders with a value of their own have an entry, and so has `t0` if defaulted. */
  ghost predicate HasEntries(st0: Store, g: Graph, vs: Values, bound: nat, t0: Token, es: seq<Entry>, phs: seq<Token>)
    requires Ranked(st0, g) && RanksBelow(phs, g, bound)
  {
    forall ph | ph in phs && ph.Ref? ::
      (if ph == t0 then ph.def.Some?
       else PureRef(st0, g, ph, bound) != Some(Nil) && !Collapses(vs, g.norm(ph.key)))
      ==> HasKey(es, ph.key)
  }

  /** A string `ts` with a placeholder `t0` whose target collapses, in a configuration
      that is clean below the string's rank. */
  ghost predicate Scene(st0: Store, g: Graph, vs: Values, ts: seq<Token>, t0: Token, bound: nat) {
    && Ranked(st0, g) && WellFormed(st0, g) && vs == PureValues(st0, g)
    && (forall k | k in st0 :: ValueAt(vs, k).Some?)
    && ColonFree(ts) && RanksBelow(ts, g, bound) && CleanBelow(st0, g, vs, bound)
    && (|ts| > 1 ==> Unambiguous(st0, g, bound, ts))
    && t0 in ts && t0.Ref? && Collapses(vs, g.norm(t0.key)) && g.norm(t0.key) in st0
    && Final(st0, vs, g.norm(t0.key)) != st0[g.norm(t0.key)]
  }

  /** `t0` is the only placeholder with its key. */
  ghost predicate Sole(ts: seq<Token>, t0: Token) {
    t0.Ref? && forall x | x in ts && x.Ref? && x.key == t0.key :: x == t0
  }

  lemma CollapsedIsValued(st0: Store, g: Graph, vs: Values, t: Token, bound: nat)
    requires Ranked(st0, g) && vs == PureValues(st0, g) && t.Ref? && g.rank(g.norm(t.key)) < bound
    requires Collapses(vs, g.norm(t.key))
    ensures Valued(st0, g, bound, t)
  {
    PureIsValueAt(st0, g, g.norm(t.key));
  }

  lemma SceneIsSole(st0: Store, g: Graph, vs: Values, ts: seq<Token>, t0: Token, bound: nat)
    requires Scene(st0, g, vs, ts, t0, bound)
    ensures Sole(ts, t0)
  {
    forall x | x in ts && x.Ref? && x.key == t0.key
      ensures x == t0
    {
      CollapsedIsValued(st0, g, vs, x, bound);
      CollapsedIsValued(st0, g, vs, t0, bound);
    }
  }

  /** The target of `t0` has been written back. */
  ghost predicate Spoiled(st0: Store, g: Graph, vs: Values, st: Store, t0: Token) {
    && Memoised(st0, vs, st)
    && t0.Ref? && g.norm(t0.key) in st0 && st[g.norm(t0.key)] == Final(st0, vs, g.norm(t0.key))
  }

  /** What resolving placeholder `ph` chooses. */
  ghost predicate StrayChoice(st0: Store, g: Graph, vs: Values, bound: nat, t0: Token, ph: Token, v: Value)
    requires Ranked(st0, g) && t0.Ref? && ph.Ref? && g.rank(g.norm(ph.key)) < bound
  {
    if ph == t0 then v == (if t0.def.Some? then DefaultValue(t0.def.value) else Nil)
    else || PureRef(st0, g, ph, bound) == Some(v)
         || (Collapses(vs, g.norm(ph.key)) && v == (if ph.def.Some? then DefaultValue(ph.def.value) else Nil))
  }

  lemma StrayStep(r: Run, st0: Store, g: Graph, vs: Values, st: Store, ts: seq<Token>, t0: Token, bound: nat,
                  ph: Token, path: seq<string>)
    requires Shuffles(r) && r.norm == g.norm && Within(st, r.universe)
    requires Scene(st0, g, vs, ts, t0, bound) && Spoiled(st0, g, vs, st, t0)
    requires ph in ts && ph.Ref? && RanksAbove(path, g, bound)
    ensures var o := ResolveValue(r, st, ph.key, path);
            && Progresses(st0, g, vs, st, o.st, bound) && Spoiled(st0, g, vs, o.st, t0)
            && Chosen(ph, o.res).Ok? && StrayChoice(st0, g, vs, bound, t0, ph, Chosen(ph, o.res).value)
  {
    assert g.rank(g.norm(ph.key)) < bound;
    assert CleanBelow(st0, g, vs, g.rank(g.norm(ph.key)) + 1);
    ResolveIsPure(r, st0, g, vs, st, ph.key, path);
    PureIsValueAt(st0, g, g.norm(ph.key));
  }

  lemma {:induction false} GatherStrays(r: Run, st0: Store, g: Graph, vs: Values, st: Store, ts: seq<Token>, t0: Token,
                                        done: seq<Token>, phs: seq<Token>, path: seq<string>, acc: seq<Entry>, bound: nat)
    requires Shuffles(r) && r.norm == g.norm && Within(st, r.universe)
    requires Scene(st0, g, vs, ts, t0, bound) && Spoiled(st0, g, vs, st, t0)
    requires (forall t | t in done :: t in ts) && (forall t | t in phs :: t in ts)
    requires forall ph | ph in phs :: ph.Ref? && ph.key in r.universe && ph.key !in path
    requires RanksAbove(path, g, bound)
    requires forall e | e in acc :: RefsIn(e.value, r.universe)
    requires Strays(st0, g, vs, bound, ts, t0, acc) && HasEntries(st0, g, vs, bound, t0, acc, done)
    ensures var p := ResolveAll(r, st, phs, path, acc);
            && p.Done? && Progresses(st0, g, vs, st, p.st, bound)
            && Strays(st0, g, vs, bound, ts, t0, p.es) && HasEntries(st0, g, vs, bound, t0, p.es, done + phs)
    decreases |phs|
  {
    if phs == [] {
      EmptyRight(done);
    } else {
      var ph := phs[0];
      FirstOne(r, st, phs, path, acc);
      StrayStep(r, st0, g, vs, st, ts, t0, bound, ph, path);
      var o := ResolveValue(r, st, ph.key, path);
      var v := Chosen(ph, o.res).value;
      var acc' := Extended(acc, ph, v);
      SceneIsSole(st0, g, vs, ts, t0, bound);
      OneMoreStray(st0, g, vs, bound, ts, t0, acc, done, ph, v);
      GatherStrays(r, st0, g, vs, o.st, ts, t0, done + [ph], phs[1..], path, acc', bound);
      ProgressTransitive(st0, g, vs, st, o.st, ResolveAll(r, o.st, phs[1..], path, acc').st, bound, bound);
      Shift(done, phs);
    }
  }

  lemma OneMoreStray(st0: Store, g: Graph, vs: Values, bound: nat, ts: seq<Token>, t0: Token, acc: seq<Entry>,
                     done: seq<Token>, ph: Token, v: Value)
    requires Ranked(st0, g) && vs == PureValues(st0, g) && Sole(ts, t0) && RanksBelow(ts, g, bound)
    requires t0 in ts && t0.Ref? && ph in ts && ph.Ref? && (forall t | t in done :: t in ts)
    requires Strays(st0, g, vs, bound, ts, t0, acc) && HasEntries(st0, g, vs, bound, t0, acc, done)
    requires StrayChoice(st0, g, vs, bound, t0, ph, v)
    requires Collapses(vs, g.norm(t0.key))
    ensures var acc' := Extended(acc, ph, v);
            Strays(st0, g, vs, bound, ts, t0, acc') && HasEntries(st0, g, vs, bound, t0, acc', done + [ph])
  {
    var e := Entry(ph.key, SearchText(ph), v);
    var acc' := if v == Nil then acc else PutEntry(acc, e);
    assert v != Nil ==> Stands(st0, g, vs, bound, ph, v);
    assert v != Nil ==> StrayEntry(st0, g, vs, bound, e, ts);
    forall q | q in done + [ph] && q.Ref?
      ensures (if q == t0 then q.def.Some?
               else PureRef(st0, g, q, bound) != Some(Nil) && !Collapses(vs, g.norm(q.key)))
              ==> HasKey(acc', q.key)
    {
      PutEntryKeys(acc, e, q.key);
    }
  }

  /***************************** The text that results *****************************/

  function RefCount(ts: seq<Token>): nat {
    if ts == [] then 0 else (if ts[0].Ref? then 1 else 0) + RefCount(ts[1..])
  }

  lemma {:induction false} RefCountConcat(a: seq<Token>, b: seq<Token>)
    ensures RefCount(a + b) == RefCount(a) + RefCount(b)
  {
    if a == [] {
      assert a + b == b;
    } else {
      RefCountConcat(a[1..], b);
      assert (a + b)[1..] == a[1..] + b;
    }
  }

  lemma {:induction false} RefCountPlain(ts: seq<Token>)
    requires forall t | t in ts :: t.Ch?
    ensures RefCount(ts) == 0
  {
    if ts != [] {
      assert ts[0] in ts;
      RefCountPlain(ts[1..]);
    }
  }

  /** What the entry that token `t` matches, if any, says about `t`. */
  ghost predicate Accounts(st0: Store, g: Graph, vs: Values, bound: nat, t0: Token, t: Token, m: Option<Value>)
    requires Ranked(st0, g) && t0.Ref? && t.Ref? && g.rank(g.norm(t.key)) < bound
  {
    && (m.Some? ==> m.value != Nil && Stands(st0, g, vs, bound, t, m.value))
    && (m.Some? && t == t0 ==> t0.def.Some? && m.value == DefaultValue(t0.def.value))
    && (m.None? ==> if t == t0 then t0.def.None?
                    else PureRef(st0, g, t, bound) == Some(Nil) || Collapses(vs, g.norm(t.key)))
  }

  /** The entry a token matches was gathered for that token. */
  lemma MatchStray(st0: Store, g: Graph, vs: Values, bound: nat, ts: seq<Token>, t0: Token, es: seq<Entry>, t: Token)
    requires Ranked(st0, g) && vs == PureValues(st0, g) && Distinguished(st0, g, bound, ts) && RanksBelow(ts, g, bound)
    requires t0 in ts && t0.Ref? && t in ts && t.Ref? && Collapses(vs, g.norm(t0.key))
    requires Strays(st0, g, vs, bound, ts, t0, es) && HasEntries(st0, g, vs, bound, t0, es, ts)
    ensures Accounts(st0, g, vs, bound, t0, t, Match(es, t))
  {
    var m := Match(es, t);
    if m.Some? {
      var e :| e in es && e.search == TokenText(t) && e.value == m.value;
      StrayIsFor(st0, g, vs, bound, ts, e, t);
    } else if Valued(st0, g, bound, t) && HasKey(es, t.key) {
      var e :| e in es && e.key == t.key;
      StrayIsFor(st0, g, vs, bound, ts, e, t);
    } else if t == t0 {
      CollapsedIsValued(st0, g, vs, t0, bound);
    }
  }

  /** A string whose placeholders can be told apart. */
  ghost predicate Distinguished(st0: Store, g: Graph, bound: nat, ts: seq<Token>)
    requires Ranked(st0, g)
  {
    ColonFree(ts) && Unambiguous(st0, g, bound, ts)
  }

  lemma StrayIsFor(st0: Store, g: Graph, vs: Values, bound: nat, ts: seq<Token>, e: Entry, t: Token)
    requires Ranked(st0, g) && vs == PureValues(st0, g) && Distinguished(st0, g, bound, ts) && RanksBelow(ts, g, bound)
    requires t in ts && t.Ref? && StrayEntry(st0, g, vs, bound, e, ts)
    requires e.search == TokenText(t) || (e.key == t.key && Valued(st0, g, bound, t))
    ensures e.key == t.key && e.search == TokenText(t)
    ensures e.value != Nil && Stands(st0, g, vs, bound, t, e.value)
  {
    var ph := StrayFor(st0, g, vs, bound, ts, e);
    SearchIsText(ph);
    if e.search == TokenText(t) {
      TextDeterminesKey(ph, t);
    }
    assert ph == t;
  }

  /** One token's share never gains a placeholder, and a defaulted `t0` loses one. */
  lemma StrayToken(st0: Store, g: Graph, vs: Values, bound: nat, ts: seq<Token>, t0: Token, es: seq<Entry>, t: Token)
    requires Ranked(st0, g) && vs == PureValues(st0, g) && Distinguished(st0, g, bound, ts) && RanksBelow(ts, g, bound)
    requires t0 in ts && t0.Ref? && Collapses(vs, g.norm(t0.key)) && t in ts
    requires forall x | x in ts && x.Ref? :: PureRef(st0, g, x, bound).Some?
    requires Strays(st0, g, vs, bound, ts, t0, es) && HasEntries(st0, g, vs, bound, t0, es, ts)
    ensures RefCount(SimulToken(t, es)) <= RefCount(PureToken(st0, g, t, bound))
    ensures t == t0 && t0.def.Some? ==> RefCount(SimulToken(t, es)) < RefCount(PureToken(st0, g, t, bound))
    ensures t == t0 && t0.def.None? ==> SimulToken(t, es) == [t0]
  {
    if t.Ref? {
      MatchStray(st0, g, vs, bound, ts, t0, es, t);
      if Collapses(vs, g.norm(t.key)) {
        CollapsedShare(st0, g, vs, bound, t0, t, Match(es, t));
      }
    }
  }

  function Share(t: Token, m: Option<Value>): seq<Token> {
    if m.Some? then Printed(m.value) else [t]
  }

  lemma CollapsedShare(st0: Store, g: Graph, vs: Values, bound: nat, t0: Token, t: Token, m: Option<Value>)
    requires Ranked(st0, g) && vs == PureValues(st0, g) && t0.Ref? && t.Ref? && g.rank(g.norm(t.key)) < bound
    requires Collapses(vs, g.norm(t.key)) && Accounts(st0, g, vs, bound, t0, t, m)
    ensures PureRef(st0, g, t, bound).Some?
    ensures RefCount(Share(t, m)) <= RefCount(PureToken(st0, g, t, bound))
    ensures t == t0 && t0.def.Some? ==> RefCount(Share(t, m)) < RefCount(PureToken(st0, g, t, bound))
  {
    CollapsedToken(st0, g, vs, bound, t);
    if t.def.Some? {
      RefCountPlain(Printed(DefaultValue(t.def.value)));
    }
    LoneRef([t]);
  }

  lemma CollapsedToken(st0: Store, g: Graph, vs: Values, bound: nat, t: Token)
    requires Ranked(st0, g) && vs == PureValues(st0, g) && t.Ref? && g.rank(g.norm(t.key)) < bound
    requires Collapses(vs, g.norm(t.key))
    ensures PureRef(st0, g, t, bound).Some? && RefCount(PureToken(st0, g, t, bound)) == 1
  {
    PureIsValueAt(st0, g, g.norm(t.key));
    LoneRef(ValueAt(vs, g.norm(t.key)).value.ts);
  }

  lemma LoneRef(ts: seq<Token>)
    requires |ts| == 1 && ts[0].Ref?
    ensures RefCount(ts) == 1
  {
    assert ts == [ts[0]];
  }

  lemma {:induction false} StrayTokens(st0: Store, g: Graph, vs: Values, bound: nat, all: seq<Token>, t0: Token,
                                       es: seq<Entry>, ts: seq<Token>)
    requires Ranked(st0, g) && vs == PureValues(st0, g) && Distinguished(st0, g, bound, all)
    requires RanksBelow(all, g, bound)
    requires t0 in all && t0.Ref? && Collapses(vs, g.norm(t0.key)) && forall t | t in ts :: t in all
    requires forall x | x in all && x.Ref? :: PureRef(st0, g, x, bound).Some?
    requires Strays(st0, g, vs, bound, all, t0, es) && HasEntries(st0, g, vs, bound, t0, es, all)
    ensures RefCount(Simul(ts, es)) <= RefCount(PureTokens(st0, g, ts, bound))
    ensures t0 in ts && t0.def.Some? ==> RefCount(Simul(ts, es)) < RefCount(PureTokens(st0, g, ts, bound))
    ensures t0 in ts && t0.def.None? ==> t0 in Simul(ts, es)
  {
    if ts != [] {
      assert ts[0] in ts;
      StrayTokens(st0, g, vs, bound, all, t0, es, ts[1..]);
      StrayToken(st0, g, vs, bound, all, t0, es, ts[0]);
      RefCountConcat(SimulToken(ts[0], es), Simul(ts[1..], es));
      RefCountConcat(PureToken(st0, g, ts[0], bound), PureTokens(st0, g, ts[1..], bound));
    }
  }

  lemma StrayUnsearched(st0: Store, g: Graph, vs: Values, bound: nat, ts: seq<Token>, t0: Token, es: seq<Entry>,
                        e: Entry)
    requires |ts| > 1 && Scene(st0, g, vs, ts, t0, bound) && Strays(st0, g, vs, bound, ts, t0, es) && e in es
    ensures Unsearched(Printed(e.value), es)
  {
    var ph := StrayFor(st0, g, vs, bound, ts, e);
    if PureRef(st0, g, ph, bound) == Some(e.value) {
      PureUnsearched(st0, g, vs, bound, ts, es, ph, e.value);
    }
  }

  /** The placeholder an entry was gathered for has a value. */
  lemma StrayFor(st0: Store, g: Graph, vs: Values, bound: nat, ts: seq<Token>, e: Entry) returns (ph: Token)
    requires Ranked(st0, g) && vs == PureValues(st0, g) && RanksBelow(ts, g, bound)
    requires StrayEntry(st0, g, vs, bound, e, ts)
    ensures ph in ts && Valued(st0, g, bound, ph) && Stands(st0, g, vs, bound, ph, e.value)
    ensures e.key == ph.key && e.search == SearchText(ph) && e.value != Nil
  {
    ph :| ph in ts && ph.Ref? && e.key == ph.key && e.search == SearchText(ph)
          && e.value != Nil && Stands(st0, g, vs, bound, ph, e.value);
    if Collapses(vs, g.norm(ph.key)) {
      CollapsedIsValued(st0, g, vs, ph, bound);
    }
  }

  lemma PureUnsearched(st0: Store, g: Graph, vs: Values, bound: nat, ts: seq<Token>, es: seq<Entry>, ph: Token,
                       v: Value)
    requires Ranked(st0, g) && PlainKeys(st0) && vs == PureValues(st0, g) && ColonFree(ts) && RanksBelow(ts, g, bound)
    requires ph.Ref? && g.rank(g.norm(ph.key)) < bound && PureRef(st0, g, ph, bound) == Some(v)
    requires forall f | f in es :: StrayEntry(st0, g, vs, bound, f, ts)
    ensures Unsearched(Printed(v), es)
  {
    PureRefLeavesDead(st0, g, ph, bound);
    forall t, f | t in Printed(v) && t.Ref? && f in es
      ensures f.search != TokenText(t)
    {
      assert Dead(st0, g, t, bound);
      DeadUnsearched(st0, g, vs, bound, ts, t, f);
    }
  }

  lemma DeadUnsearched(st0: Store, g: Graph, vs: Values, bound: nat, ts: seq<Token>, t: Token, f: Entry)
    requires Ranked(st0, g) && vs == PureValues(st0, g) && ColonFree(ts) && RanksBelow(ts, g, bound)
    requires Dead(st0, g, t, bound) && StrayEntry(st0, g, vs, bound, f, ts)
    ensures f.search != TokenText(t)
  {
    var ph := StrayFor(st0, g, vs, bound, ts, f);
    if f.search == TokenText(t) {
      SearchKey(ph, t);
      DeadIsNotValued(st0, g, bound, t);
    }
  }

  lemma StraysShuffled(r: Run, st0: Store, g: Graph, vs: Values, bound: nat, ts: seq<Token>, t0: Token, es: seq<Entry>)
    requires Shuffles(r) && Ranked(st0, g) && RanksBelow(ts, g, bound) && t0.Ref?
    requires Strays(st0, g, vs, bound, ts, t0, es) && HasEntries(st0, g, vs, bound, t0, es, ts)
    ensures Strays(st0, g, vs, bound, ts, t0, r.shuffle(es)) && HasEntries(st0, g, vs, bound, t0, r.shuffle(es), ts)
  {
    ShuffleKeeps(r, es);
    forall key | HasKey(es, key)
      ensures HasKey(r.shuffle(es), key)
    {
      var e :| e in es && e.key == key;
      assert e in r.shuffle(es);
    }
  }

  /** A longer string does not become its pure substitution. */
  lemma StrayString(r: Run, st0: Store, g: Graph, vs: Values, bound: nat, ts: seq<Token>, t0: Token, es: seq<Entry>)
    requires Shuffles(r) && Scene(st0, g, vs, ts, t0, bound) && |ts| > 1
    requires forall x | x in ts && x.Ref? :: PureRef(st0, g, x, bound).Some?
    requires Strays(st0, g, vs, bound, ts, t0, es) && HasEntries(st0, g, vs, bound, t0, es, ts)
    ensures Assemble(r, ts, es) != Str(PureTokens(st0, g, ts, bound))
  {
    var shuffled := r.shuffle(es);
    StraysShuffled(r, st0, g, vs, bound, ts, t0, es);
    forall e | e in shuffled
      ensures Unsearched(Printed(e.value), shuffled)
    {
      StrayUnsearched(st0, g, vs, bound, ts, t0, shuffled, e);
    }
    ReplaceInAnyOrder(ts, shuffled);
    StrayTokens(st0, g, vs, bound, ts, t0, shuffled, ts);
    PureTokensLeaveDead(st0, g, ts, bound);
    PureIsValueAt(st0, g, g.norm(t0.key));
    assert !Dead(st0, g, t0, bound);
  }

  /** A lone placeholder does not become its pure substitution either. */
  lemma StrayLone(r: Run, st0: Store, g: Graph, vs: Values, bound: nat, t0: Token, es: seq<Entry>)
    requires Scene(st0, g, vs, [t0], t0, bound)
    requires Strays(st0, g, vs, bound, [t0], t0, es)
    ensures var v := Assemble(r, [t0], es);
            (if v == Nil then Str([t0]) else v) != PureRef(st0, g, t0, bound).value
  {
    var v := Assemble(r, [t0], es);
    PureIsValueAt(st0, g, g.norm(t0.key));
    var bare := ValueAt(vs, g.norm(t0.key)).value;
    assert PureRef(st0, g, t0, bound) == Some(bare);
    PureLeavesDead(st0, g, g.norm(t0.key));
    assert bare.ts[0] in bare.ts;
    assert Dead(st0, g, bare.ts[0], g.rank(g.norm(t0.key)));
    assert bare.ts[0] != t0;
    if v != Nil {
      var e :| e in es && e.value == v;
      assert StrayEntry(st0, g, vs, bound, e, [t0]);
      assert v == DefaultValue(t0.def.value);
    }
  }

  lemma AllRefsHaveValues(st0: Store, g: Graph, vs: Values, ts: seq<Token>, bound: nat)
    requires Ranked(st0, g) && vs == PureValues(st0, g) && RanksBelow(ts, g, bound)
    requires forall k | k in st0 :: ValueAt(vs, k).Some?
    ensures forall x | x in ts && x.Ref? :: PureRef(st0, g, x, bound).Some?
  {
    forall x | x in ts && x.Ref?
      ensures PureRef(st0, g, x, bound).Some?
    {
      PureIsValueAt(st0, g, g.norm(x.key));
    }
  }

  /** A placeholder without an entry has no default and no value. */
  ghost predicate LeavesBarren(st0: Store, g: Graph, vs: Values, st: Store, es: seq<Entry>, phs: seq<Token>,
                               bound: nat) {
    forall t | t in phs && t.Ref? :: HasKey(es, t.key) || Barren(st0, g, vs, st, t, bound)
  }

  lemma BarrenIfNothing(r: Run, st0: Store, g: Graph, vs: Values, st: Store, ts: seq<Token>, t0: Token, bound: nat,
                        ph: Token, path: seq<string>)
    requires Shuffles(r) && r.norm == g.norm && Within(st, r.universe)
    requires Scene(st0, g, vs, ts, t0, bound) && Spoiled(st0, g, vs, st, t0)
    requires ph in ts && ph.Ref? && RanksAbove(path, g, bound)
    ensures var o := ResolveValue(r, st, ph.key, path);
            Chosen(ph, o.res) == Ok(Nil) ==> Barren(st0, g, vs, o.st, ph, bound)
  {
    var k := g.norm(ph.key);
    assert g.rank(k) < bound;
    assert CleanBelow(st0, g, vs, g.rank(k) + 1);
    ResolveIsPure(r, st0, g, vs, st, ph.key, path);
  }

  lemma StillBarren(st0: Store, g: Graph, vs: Values, st: Store, st': Store, es: seq<Entry>, e: Entry,
                    phs: seq<Token>, bound: nat)
    requires Memoised(st0, vs, st) && Progresses(st0, g, vs, st, st', bound)
    requires LeavesBarren(st0, g, vs, st, es, phs, bound)
    ensures LeavesBarren(st0, g, vs, st', es, phs, bound) && LeavesBarren(st0, g, vs, st', PutEntry(es, e), phs, bound)
  {
    forall t | t in phs && t.Ref?
      ensures HasKey(es, t.key) || Barren(st0, g, vs, st', t, bound)
      ensures HasKey(PutEntry(es, e), t.key) || Barren(st0, g, vs, st', t, bound)
    {
      PutEntryKeys(es, e, t.key);
      if !HasKey(es, t.key) {
        assert Barren(st0, g, vs, st, t, bound);
        var k := g.norm(t.key);
        assert k in st0 && st[k] != st0[k] ==> st[k] == Final(st0, vs, k);
      }
    }
  }

  lemma BarrenOneMore(st0: Store, g: Graph, vs: Values, st: Store, st': Store, acc: seq<Entry>, done: seq<Token>,
                      ph: Token, v: Value, bound: nat)
    requires Memoised(st0, vs, st) && Progresses(st0, g, vs, st, st', bound)
    requires LeavesBarren(st0, g, vs, st, acc, done, bound)
    requires ph.Ref? && (v == Nil ==> Barren(st0, g, vs, st', ph, bound))
    ensures LeavesBarren(st0, g, vs, st', Extended(acc, ph, v), done + [ph], bound)
  {
    var e := Entry(ph.key, SearchText(ph), v);
    StillBarren(st0, g, vs, st, st', acc, e, done, bound);
    PutEntryKeys(acc, e, ph.key);
  }

  lemma {:induction false} GatherLeavesBarren(r: Run, st0: Store, g: Graph, vs: Values, st: Store, ts: seq<Token>,
                                              t0: Token,
                                              done: seq<Token>, phs: seq<Token>, path: seq<string>, acc: seq<Entry>, bound: nat)
    requires Shuffles(r) && r.norm == g.norm && Within(st, r.universe)
    requires Scene(st0, g, vs, ts, t0, bound) && Spoiled(st0, g, vs, st, t0)
    requires forall ph | ph in phs :: ph in ts && ph.Ref? && ph.key in r.universe && ph.key !in path
    requires RanksAbove(path, g, bound)
    requires forall e | e in acc :: RefsIn(e.value, r.universe)
    requires LeavesBarren(st0, g, vs, st, acc, done, bound)
    ensures var p := ResolveAll(r, st, phs, path, acc);
            p.Done? ==> LeavesBarren(st0, g, vs, p.st, p.es, done + phs, bound)
    decreases |phs|
  {
    if phs == [] {
      EmptyRight(done);
    } else {
      var ph := phs[0];
      FirstOne(r, st, phs, path, acc);
      StrayStep(r, st0, g, vs, st, ts, t0, bound, ph, path);
      BarrenIfNothing(r, st0, g, vs, st, ts, t0, bound, ph, path);
      var o := ResolveValue(r, st, ph.key, path);
      var v := Chosen(ph, o.res).value;
      var acc' := Extended(acc, ph, v);
      BarrenOneMore(st0, g, vs, st, o.st, acc, done, ph, v, bound);
      GatherLeavesBarren(r, st0, g, vs, o.st, ts, t0, done + [ph], phs[1..], path, acc', bound);
      Shift(done, phs);
    }
  }

  lemma WrittenBack(st: Store, y: string, ts: seq<Token>, v: Value)
    requires y in st && st[y] == Str(ts)
    ensures SetLeaf(st, y, v) == st[y := Left(ts, v)]
  {
  }

  lemma EntriesGathered(r: Run, st0: Store, g: Graph, vs: Values, st: Store, y: string, t0: Token) returns (p: Progress)
    requires Loadable(r, st0) && r.norm == g.norm && Within(st, r.universe)
    requires y in st0 && st0[y].Str? && Scene(st0, g, vs, st0[y].ts, t0, g.rank(y))
    requires Spoiled(st0, g, vs, st, t0) && st[y] == st0[y]
    ensures p.Done? && y in p.st && p.st[y] == st0[y] && Progresses(st0, g, vs, st, p.st, g.rank(y))
    ensures var ts := st0[y].ts;
            && LeavesBarren(st0, g, vs, p.st, p.es, ts, g.rank(y))
            && Strays(st0, g, vs, g.rank(y), ts, t0, p.es)
            && HasEntries(st0, g, vs, g.rank(y), t0, p.es, ts)
            && var v := Assemble(r, ts, p.es);
               ResolveValue(r, st, y, []) == Outcome(p.st[y := Left(ts, v)], Ok(v))
  {
    var ts, bound := st0[y].ts, g.rank(y);
    var phs := Placeholders(ts);
    assert t0 in phs;
    NotCircular(g, ts, [] + [y], bound);
    GatherStrays(r, st0, g, vs, st, ts, t0, [], phs, [] + [y], [], bound);
    GatherLeavesBarren(r, st0, g, vs, st, ts, t0, [], phs, [] + [y], [], bound);
    EmptyLeft(phs);
    p := ResolveAll(r, st, phs, [] + [y], []);
    ResolveUnfolds(r, st, y, []);
    WrittenBack(p.st, y, ts, Assemble(r, ts, p.es));
  }

  /** What the leaf holds once `v` has been assembled for it. */
  function Left(ts: seq<Token>, v: Value): Value {
    if v == Nil then Str(ts) else v
  }

  lemma WrongValue(r: Run, st0: Store, g: Graph, vs: Values, y: string, t0: Token, es: seq<Entry>)
    requires Shuffles(r) && y in st0 && st0[y].Str? && Scene(st0, g, vs, st0[y].ts, t0, g.rank(y))
    requires Strays(st0, g, vs, g.rank(y), st0[y].ts, t0, es)
    requires HasEntries(st0, g, vs, g.rank(y), t0, es, st0[y].ts)
    ensures Left(st0[y].ts, Assemble(r, st0[y].ts, es)) != Final(st0, vs, y)
  {
    var ts, bound := st0[y].ts, g.rank(y);
    AllRefsHaveValues(st0, g, vs, ts, bound);
    PureIsValueAt(st0, g, y);
    assert t0 in Placeholders(ts);
    if |ts| > 1 {
      StrayString(r, st0, g, vs, bound, ts, t0, es);
    } else {
      assert ts == [t0];
      StrayLone(r, st0, g, vs, bound, t0, es);
      PureIsValueAt(st0, g, g.norm(t0.key));
    }
  }

  /** Resolving a leaf that refers to a spoiled target leaves it with a wrong value. */
  lemma SpoiledLeaf(r: Run, st0: Store, g: Graph, vs: Values, st: Store, y: string, t0: Token)
    requires Loadable(r, st0) && r.norm == g.norm && Within(st, r.universe)
    requires y in st0 && st0[y].Str? && Scene(st0, g, vs, st0[y].ts, t0, g.rank(y))
    requires Spoiled(st0, g, vs, st, t0) && st[y] == st0[y]
    ensures ResolveValue(r, st, y, []).st[y] != Final(st0, vs, y)
  {
    var p := EntriesGathered(r, st0, g, vs, st, y, t0);
    WrongValue(r, st0, g, vs, y, t0, p.es);
  }

  /***************************** The exact condition *****************************/

  ghost predicate Dirty(st0: Store, g: Graph, vs: Values, y: string) {
    y in st0 && st0[y].Str? && !NoneCollapses(vs, g.norm, st0[y].ts)
  }

  lemma {:induction false} LowestDirty(st0: Store, g: Graph, vs: Values, y: string) returns (low: string)
    requires Dirty(st0, g, vs, y)
    ensures Dirty(st0, g, vs, low) && CleanBelow(st0, g, vs, g.rank(low))
    decreases g.rank(y)
  {
    if CleanBelow(st0, g, vs, g.rank(y)) {
      low := y;
    } else {
      var k :| k in st0 && st0[k].Str? && g.rank(k) < g.rank(y) && !NoneCollapses(vs, g.norm, st0[k].ts);
      low := LowestDirty(st0, g, vs, k);
    }
  }

  /** A leaf that collapses did not start out as the placeholder it collapses to. */
  lemma CollapsedChanges(st0: Store, g: Graph, vs: Values, k: string)
    requires Ranked(st0, g) && WellFormed(st0, g) && vs == PureValues(st0, g) && Collapses(vs, k)
    ensures k in st0 && Final(st0, vs, k) != st0[k]
  {
    PureIsValueAt(st0, g, k);
    PureLeavesDead(st0, g, k);
    var bare := ValueAt(vs, k).value;
    var z := bare.ts[0];
    assert z in bare.ts;
    assert Dead(st0, g, z, g.rank(k));
    assert z in Placeholders(bare.ts);
    assert PureRef(st0, g, z, g.rank(k)) == Some(Nil);
  }

  /***************************** The rest of the run *****************************/

  lemma {:induction false} LeftOver(st0: Store, g: Graph, vs: Values, st: Store, all: seq<Token>, t0: Token,
                                    es: seq<Entry>, ts: seq<Token>, bound: nat)
    requires |all| > 1 && Scene(st0, g, vs, all, t0, bound) && Strays(st0, g, vs, bound, all, t0, es)
    requires LeavesBarren(st0, g, vs, st, es, all, bound) && forall t | t in ts :: t in all
    ensures AllBarren(st0, g, vs, st, Simul(ts, es), bound)
  {
    if ts != [] {
      assert ts[0] in ts;
      LeftOver(st0, g, vs, st, all, t0, es, ts[1..], bound);
      LeftOverToken(st0, g, vs, st, all, t0, es, ts[0], bound);
    }
  }

  lemma LeftOverToken(st0: Store, g: Graph, vs: Values, st: Store, all: seq<Token>, t0: Token, es: seq<Entry>,
                      t: Token, bound: nat)
    requires |all| > 1 && Scene(st0, g, vs, all, t0, bound) && Strays(st0, g, vs, bound, all, t0, es)
    requires LeavesBarren(st0, g, vs, st, es, all, bound) && t in all
    ensures AllBarren(st0, g, vs, st, SimulToken(t, es), bound)
  {
    if t.Ref? {
      if Match(es, t).Some? {
        var e :| e in es && e.search == TokenText(t) && e.value == Match(es, t).value;
        StrayIsFor(st0, g, vs, bound, all, e, t);
        StandsBarren(st0, g, vs, st, t, e.value, bound);
      } else if HasKey(es, t.key) {
        NotValuedIsBarren(st0, g, vs, st, all, es, t, bound);
      }
    }
  }

  lemma NotValuedIsBarren(st0: Store, g: Graph, vs: Values, st: Store, ts: seq<Token>, es: seq<Entry>, t: Token,
                          bound: nat)
    requires Ranked(st0, g) && vs == PureValues(st0, g) && Distinguished(st0, g, bound, ts) && RanksBelow(ts, g, bound)
    requires t in ts && t.Ref? && Match(es, t).None? && HasKey(es, t.key)
    requires forall e | e in es :: StrayEntry(st0, g, vs, bound, e, ts)
    ensures Barren(st0, g, vs, st, t, bound)
  {
    PureIsValueAt(st0, g, g.norm(t.key));
    if Valued(st0, g, bound, t) {
      var e :| e in es && e.key == t.key;
      StrayIsFor(st0, g, vs, bound, ts, e, t);
    }
  }

  lemma StandsBarren(st0: Store, g: Graph, vs: Values, st: Store, t: Token, v: Value, bound: nat)
    requires Ranked(st0, g) && WellFormed(st0, g) && vs == PureValues(st0, g)
    requires t.Ref? && g.rank(g.norm(t.key)) < bound && Stands(st0, g, vs, bound, t, v)
    ensures AllBarren(st0, g, vs, st, Printed(v), bound)
  {
    if PureRef(st0, g, t, bound) == Some(v) {
      PureRefLeavesDead(st0, g, t, bound);
      forall d | d in Printed(v) && d.Ref?
        ensures Barren(st0, g, vs, st, d, bound)
      {
        assert Dead(st0, g, d, bound);
        PureIsValueAt(st0, g, g.norm(d.key));
      }
    }
  }

  /** What the leaf is left with shows no placeholder that could still be given a value. */
  lemma SpoiledIsFrozen(r: Run, st0: Store, g: Graph, vs: Values, ts: seq<Token>, t0: Token, bound: nat, st: Store,
                        es: seq<Entry>)
    requires Shuffles(r) && Scene(st0, g, vs, ts, t0, bound) && Strays(st0, g, vs, bound, ts, t0, es)
    requires HasEntries(st0, g, vs, bound, t0, es, ts) && LeavesBarren(st0, g, vs, st, es, ts, bound)
    ensures var left := Left(ts, Assemble(r, ts, es));
            left.Str? ==> AllBarren(st0, g, vs, st, left.ts, bound)
  {
    if |ts| > 1 {
      var shuffled := r.shuffle(es);
      StraysShuffled(r, st0, g, vs, bound, ts, t0, es);
      BarrenShuffled(r, st0, g, vs, st, es, ts, bound);
      forall e | e in shuffled
        ensures Unsearched(Printed(e.value), shuffled)
      {
        StrayUnsearched(st0, g, vs, bound, ts, t0, shuffled, e);
      }
      ReplaceInAnyOrder(ts, shuffled);
      LeftOver(st0, g, vs, st, ts, t0, shuffled, ts, bound);
    } else {
      assert ts == [t0];
      LoneIsFrozen(r, st0, g, vs, t0, bound, st, es);
    }
  }

  lemma BarrenShuffled(r: Run, st0: Store, g: Graph, vs: Values, st: Store, es: seq<Entry>, ts: seq<Token>, bound: nat)
    requires Shuffles(r) && LeavesBarren(st0, g, vs, st, es, ts, bound)
    ensures LeavesBarren(st0, g, vs, st, r.shuffle(es), ts, bound)
  {
    ShuffleKeeps(r, es);
    forall t | t in ts && t.Ref? && HasKey(es, t.key)
      ensures HasKey(r.shuffle(es), t.key)
    {
      var e :| e in es && e.key == t.key;
      assert e in r.shuffle(es);
    }
  }

  lemma LoneIsFrozen(r: Run, st0: Store, g: Graph, vs: Values, t0: Token, bound: nat, st: Store, es: seq<Entry>)
    requires Scene(st0, g, vs, [t0], t0, bound) && Strays(st0, g, vs, bound, [t0], t0, es)
    requires LeavesBarren(st0, g, vs, st, es, [t0], bound)
    ensures var left := Left([t0], Assemble(r, [t0], es));
            left.Str? ==> AllBarren(st0, g, vs, st, left.ts, bound)
  {
    if es == [] {
      assert t0 in [t0];
    } else {
      assert es[0] in es && StrayEntry(st0, g, vs, bound, es[0], [t0]);
    }
  }

  lemma SteadyFrom(r: Run, st0: Store, g: Graph, vs: Values, st: Store, y: string, left: Value)
    requires Setting(r, st0, g, vs, g.rank(y)) && Memoised(st0, vs, st) && y in st
    requires Within(st[y := left], r.universe) && Orderly(g, st[y := left])
    requires left.Str? ==> AllBarren(st0, g, vs, st, left.ts, g.rank(y))
    ensures Steady(r, st0, g, vs, st[y := left], y)
  {
    if left.Str? {
      BarrenStays(st0, g, vs, st, st[y := left], left.ts, g.rank(y));
    }
  }

  /** Nothing is going to put the leaf right: from here on it is steady. */
  lemma SpoiledIsSteady(r: Run, st0: Store, g: Graph, vs: Values, st: Store, y: string, t0: Token)
    requires Setting(r, st0, g, vs, g.rank(y)) && Within(st, r.universe) && Orderly(g, st)
    requires y in st0 && st0[y].Str? && Scene(st0, g, vs, st0[y].ts, t0, g.rank(y))
    requires Spoiled(st0, g, vs, st, t0) && st[y] == st0[y]
    ensures ResolveValue(r, st, y, []).res.Ok? && Steady(r, st0, g, vs, ResolveValue(r, st, y, []).st, y)
  {
    var ts := st0[y].ts;
    var p := EntriesGathered(r, st0, g, vs, st, y, t0);
    SpoiledIsFrozen(r, st0, g, vs, ts, t0, g.rank(y), p.st, p.es);
    RanksKept(r, g, st, y, []);
    SteadyFrom(r, st0, g, vs, p.st, y, Left(ts, Assemble(r, ts, p.es)));
  }

  /** After visiting the target `k` and then the leaf that refers to it, that leaf is wrong
      for good. */
  ghost predicate WrongForGood(r: Run, st0: Store, g: Graph, vs: Values, k: string, y: string)
    requires Shuffles(r) && Within(st0, r.universe)
  {
    && k in st0 && y in st0 && k != y
    && var one := ResolveValue(r, st0, k, []);
       var two := ResolveValue(r, one.st, y, []);
       && one.res.Ok? && two.res.Ok?
       && Steady(r, st0, g, vs, two.st, y) && two.st[y] != Final(st0, vs, y)
  }

  lemma TwoVisits(r: Run, st0: Store, g: Graph, vs: Values, y: string, t0: Token)
    requires Setting(r, st0, g, vs, g.rank(y)) && y in st0 && st0[y].Str?
    requires Scene(st0, g, vs, st0[y].ts, t0, g.rank(y))
    ensures WrongForGood(r, st0, g, vs, g.norm(t0.key), y)
  {
    var k := g.norm(t0.key);
    SpoilTarget(r, st0, g, vs, y, t0);
    RanksKept(r, g, st0, k, []);
    var st1 := ResolveValue(r, st0, k, []).st;
    SpoiledLeaf(r, st0, g, vs, st1, y, t0);
    SpoiledIsSteady(r, st0, g, vs, st1, y, t0);
  }

  /** A complete run that visits the target first and then the leaf that refers to it goes
      well and ends with a wrong value there. */
  lemma DirtyGoesWrong(r: Run, st0: Store, g: Graph, vs: Values, y: string) returns (order: seq<string>)
    requires Loadable(r, st0) && r.norm == g.norm && Ranked(st0, g) && WellFormed(st0, g) && vs == PureValues(st0, g)
    requires forall k | k in st0 :: ValueAt(vs, k).Some?
    requires Dirty(st0, g, vs, y) && CleanBelow(st0, g, vs, g.rank(y))
    ensures Complete(order, st0) && VisitAll(r, st0, order).res.Ok?
    ensures VisitAll(r, st0, order).st[y] != Final(st0, vs, y)
  {
    var t0 :| t0 in st0[y].ts && t0.Ref? && Collapses(vs, g.norm(t0.key));
    CollapsedChanges(st0, g, vs, g.norm(t0.key));
    NoneMalformed(st0, g, vs);
    TwoVisits(r, st0, g, vs, y, t0);
    order := StaysWrong(r, st0, g, vs, g.norm(t0.key), y);
  }

  lemma StaysWrong(r: Run, st0: Store, g: Graph, vs: Values, k: string, y: string) returns (order: seq<string>)
    requires Shuffles(r) && Within(st0, r.universe) && WrongForGood(r, st0, g, vs, k, y)
    ensures Complete(order, st0) && VisitAll(r, st0, order).res.Ok?
    ensures VisitAll(r, st0, order).st[y] != Final(st0, vs, y)
  {
    var rest := Listing(st0.Keys - {k, y});
    order := [k] + ([y] + rest);
    CompleteOrder(st0, k, y, rest);
    var st1 := ResolveValue(r, st0, k, []).st;
    VisitFirst(r, st0, k, [y] + rest);
    VisitFirst(r, st1, y, rest);
    VisitsStaySteady(r, st0, g, vs, ResolveValue(r, st1, y, []).st, rest, y);
  }

  lemma CompleteOrder(st: Store, k: string, y: string, rest: seq<string>)
    requires k in st && y in st && k != y && Distinct(rest) && forall x :: x in rest <==> x in st.Keys - {k, y}
    ensures Complete([k] + ([y] + rest), st)
  {
    ConsDistinct(y, rest);
    ConsDistinct(k, [y] + rest);
  }

  lemma ConsDistinct(x: string, s: seq<string>)
    requires Distinct(s) && x !in s
    ensures Distinct([x] + s)
  {
  }

  lemma NoneMalformed(st0: Store, g: Graph, vs: Values)
    requires Ranked(st0, g) && vs == PureValues(st0, g) && forall k | k in st0 :: ValueAt(vs, k).Some?
    ensures Cycles.NoMalformed(st0)
  {
    forall k | k in st0
      ensures !st0[k].Malformed?
    {
      PureIsValueAt(st0, g, k);
    }
  }

  lemma SpoilTarget(r: Run, st0: Store, g: Graph, vs: Values, y: string, t0: Token)
    requires Loadable(r, st0) && r.norm == g.norm
    requires y in st0 && st0[y].Str? && Scene(st0, g, vs, st0[y].ts, t0, g.rank(y))
    ensures var o := ResolveValue(r, st0, g.norm(t0.key), []);
            o.res.Ok? && Spoiled(st0, g, vs, o.st, t0) && o.st[y] == st0[y]
  {
    var k := g.norm(t0.key);
    assert g.rank(k) < g.rank(y) && g.norm(k) == k;
    ResolveIsPure(r, st0, g, vs, st0, k, []);
  }

  lemma VisitFirst(r: Run, st: Store, k: string, rest: seq<string>)
    requires Shuffles(r) && Within(st, r.universe) && ResolveValue(r, st, k, []).res.Ok?
    ensures VisitAll(r, st, [k] + rest) == VisitAll(r, ResolveValue(r, st, k, []).st, rest)
  {
    ConsTail(k, rest);
  }

  /** The run succeeds and leaves every leaf with its pure substitution. */
  ghost predicate GoesRight(r: Run, st0: Store, vs: Values, order: seq<string>)
    requires Shuffles(r) && Within(st0, r.universe)
  {
    var o := VisitAll(r, st0, order);
    o.res.Ok? && forall k | k in st0 :: o.st[k] == Final(st0, vs, k)
  }

  lemma AllValues(st: Store, g: Graph)
    requires Ranked(st, g) && forall k | k in st :: Pure(st, g, k).Some?
    ensures forall k | k in st :: ValueAt(PureValues(st, g), k).Some?
  {
  }

  /** For a configuration without cycles and malformed strings, every run that visits every
      leaf once leaves every leaf with its pure substitution exactly when no leaf refers to
      one that collapses. */
  lemma PureExactlyWhenClean(r: Run, st0: Store, g: Graph)
    requires Loadable(r, st0) && r.norm == g.norm && Ranked(st0, g) && WellFormed(st0, g)
    requires forall k | k in st0 :: Pure(st0, g, k).Some?
    ensures var vs := PureValues(st0, g);
            Clean(st0, g, vs) <==> forall order | Complete(order, st0) :: GoesRight(r, st0, vs, order)
  {
    var vs := PureValues(st0, g);
    if Clean(st0, g, vs) {
      forall order | Complete(order, st0)
        ensures GoesRight(r, st0, vs, order)
      {
        FullVisit(r, st0, g, order, vs);
      }
    } else {
      var y :| y in st0 && st0[y].Str? && !NoneCollapses(vs, g.norm, st0[y].ts);
      AllValues(st0, g);
      var order := DirtyRun(r, st0, g, y);
    }
  }

  /***************************** Examples *****************************/

  /** `x` is "${m}${e}", `e` is empty, `m` is missing, and `y` is "${x:d}". */
  function Collapsing(x: string, e: string, m: string, y: string, d: string): Store {
    map[x := Str([Ref(m, None), Ref(e, None)]), e := Str([]), y := Str([Ref(x, Some(Plain(d)))])]
  }

  function Ranks(x: string, y: string): Graph {
    Graph((k: string) => k, (k: string) => if k == y then 2 else if k == x then 1 else 0)
  }

  predicate FourKeys(x: string, e: string, m: string, y: string) {
    && x != e && x != m && x != y && e != m && e != y && m != y
    && ':' !in x && ':' !in e && ':' !in m
  }

  lemma ExampleRanked(x: string, e: string, m: string, y: string, d: string)
    requires FourKeys(x, e, m, y)
    ensures Ranked(Collapsing(x, e, m, y, d), Ranks(x, y)) && PlainKeys(Collapsing(x, e, m, y, d))
  {
    var st, g := Collapsing(x, e, m, y, d), Ranks(x, y);
    forall k | k in st && st[k].Str?
      ensures RanksBelow(st[k].ts, g, g.rank(k)) && ColonFree(st[k].ts)
    {
      if k == x {
        TwoRefs(m, e, g);
      } else if k == y {
        OneRef(Ref(x, Some(Plain(d))), g, 2);
      }
    }
  }

  lemma ExampleWellFormed(x: string, e: string, m: string, y: string, d: string)
    requires FourKeys(x, e, m, y) && Ranked(Collapsing(x, e, m, y, d), Ranks(x, y))
    requires PlainKeys(Collapsing(x, e, m, y, d))
    ensures WellFormed(Collapsing(x, e, m, y, d), Ranks(x, y))
  {
    TwoKeys(Collapsing(x, e, m, y, d), Ranks(x, y), m, e);
  }

  lemma TwoKeys(st: Store, g: Graph, m: string, e: string)
    requires Ranked(st, g) && m != e
    ensures Unambiguous(st, g, 1, [Ref(m, None), Ref(e, None)])
  {
  }

  lemma TwoRefs(m: string, e: string, g: Graph)
    requires m != e && ':' !in m && ':' !in e && g.rank(g.norm(m)) < 1 && g.rank(g.norm(e)) < 1
    ensures RanksBelow([Ref(m, None), Ref(e, None)], g, 1) && ColonFree([Ref(m, None), Ref(e, None)])
  {
  }

  lemma OneRef(t: Token, g: Graph, bound: nat)
    requires t.Ref? && ':' !in t.key && g.rank(g.norm(t.key)) < bound
    ensures RanksBelow([t], g, bound) && ColonFree([t])
  {
  }

  lemma ExampleValues(x: string, e: string, m: string, y: string, d: string)
    requires FourKeys(x, e, m, y) && Ranked(Collapsing(x, e, m, y, d), Ranks(x, y))
    ensures Pure(Collapsing(x, e, m, y, d), Ranks(x, y), e) == Some(Str([]))
    ensures Pure(Collapsing(x, e, m, y, d), Ranks(x, y), x) == Some(Str([Ref(m, None)]))
  {
    var st, g := Collapsing(x, e, m, y, d), Ranks(x, y);
    var tm, te := Ref(m, None), Ref(e, None);
    assert Pure(st, g, m) == Some(Nil) && Pure(st, g, e) == Some(Str([]));
    var ts := [tm, te];
    assert ts[1..] == [te] && [te][1..] == [];
    assert PureToken(st, g, tm, 1) == [tm] && PureToken(st, g, te, 1) == [];
    assert PureTokens(st, g, [te], 1) == [] + PureTokens(st, g, [], 1) == [];
    assert PureTokens(st, g, ts, 1) == [tm];
    assert Placeholders(ts)[0] == tm;
  }

  lemma ExampleDirty(x: string, e: string, m: string, y: string, d: string)
    requires FourKeys(x, e, m, y) && Ranked(Collapsing(x, e, m, y, d), Ranks(x, y))
    ensures var st := Collapsing(x, e, m, y, d);
            var vs := PureValues(st, Ranks(x, y));
            Dirty(st, Ranks(x, y), vs, y) && forall k | k in st :: ValueAt(vs, k).Some?
  {
    ExampleValues(x, e, m, y, d);
    var st, g := Collapsing(x, e, m, y, d), Ranks(x, y);
    var t := Ref(x, Some(Plain(d)));
    PureIsValueAt(st, g, x);
    assert Collapses(PureValues(st, g), x) && t in st[y].ts;
    assert PureRef(st, g, t, 2).Some?;
    assert Pure(st, g, y).Some?;
  }

  lemma ExampleLoadable(r: Run, x: string, e: string, m: string, y: string, d: string)
    requires FourKeys(x, e, m, y)
    requires Shuffles(r) && r.norm == Ranks(x, y).norm && m in r.universe && e in r.universe && x in r.universe
    ensures Loadable(r, Collapsing(x, e, m, y, d))
  {
  }

  /** A well-formed configuration without cycles that a complete run gets wrong. */
  lemma CollapseHappens(r: Run, x: string, e: string, m: string, y: string, d: string) returns (order: seq<string>)
    requires FourKeys(x, e, m, y)
    requires Shuffles(r) && r.norm == Ranks(x, y).norm && m in r.universe && e in r.universe && x in r.universe
    ensures var st, g := Collapsing(x, e, m, y, d), Ranks(x, y);
            && Ranked(st, g) && WellFormed(st, g) && Loadable(r, st) && Complete(order, st)
            && !GoesRight(r, st, PureValues(st, g), order)
  {
    var st, g := Collapsing(x, e, m, y, d), Ranks(x, y);
    ExampleRanked(x, e, m, y, d);
    ExampleWellFormed(x, e, m, y, d);
    ExampleDirty(x, e, m, y, d);
    ExampleLoadable(r, x, e, m, y, d);
    order := DirtyRun(r, st, g, y);
  }

  lemma DirtyRun(r: Run, st: Store, g: Graph, y: string) returns (order: seq<string>)
    requires Loadable(r, st) && r.norm == g.norm && Ranked(st, g) && WellFormed(st, g)
    requires Dirty(st, g, PureValues(st, g), y)
    requires forall k | k in st :: ValueAt(PureValues(st, g), k).Some?
    ensures Complete(order, st) && !GoesRight(r, st, PureValues(st, g), order)
  {
    var vs := PureValues(st, g);
    var low := LowestDirty(st, g, vs, y);
    order := DirtyGoesWrong(r, st, g, vs, low);
  }
}
