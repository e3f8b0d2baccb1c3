/** Replacing the resolved placeholders of a string one after the other, in whatever
    order a map is iterated, amounts to substituting them all at once.
 */
module Replacement {
  import opened Collections
  import opened Text
  import opened Placeholder
  import opened Resolver
  import opened Substitution

  function Match(es: seq<Entry>, t: Token): (v: Option<Value>)
    ensures v.Some? ==> exists e :: e in es && e.search == TokenText(t) && e.value == v.value
    ensures v.None? ==> forall e | e in es :: e.search != TokenText(t)
  {
    if es == [] then None
    else if es[0].search == TokenText(t) then Some(es[0].value)
    else Match(es[1..], t)
  }

  function SimulToken(t: Token, es: seq<Entry>): seq<Token> {
    if t.Ref? && Match(es, t).Some? then Printed(Match(es, t).value) else [t]
  }

  function Simul(ts: seq<Token>, es: seq<Entry>): seq<Token> {
    if ts == [] then [] else SimulToken(ts[0], es) + Simul(ts[1..], es)
  }

  lemma {:induction false} SimulConcat(a: seq<Token>, b: seq<Token>, es: seq<Entry>)
    ensures Simul(a + b, es) == Simul(a, es) + Simul(b, es)
  {
    if a == [] {
      EmptyLeft(b);
      EmptyLeft(Simul(b, es));
    } else {
      HeadOfConcat(a, b);
      SimulConcat(a[1..], b, es);
      Regroup(SimulToken(a[0], es), Simul(a[1..], es), Simul(b, es));
    }
  }

  /** No entry searches for a token of `ts`. */
  ghost predicate Unsearched(ts: seq<Token>, es: seq<Entry>) {
    forall t, e | t in ts && t.Ref? && e in es :: e.search != TokenText(t)
  }

  lemma {:induction false} SimulUnsearched(ts: seq<Token>, es: seq<Entry>)
    requires Unsearched(ts, es)
    ensures Simul(ts, es) == ts
  {
    if ts != [] {
      SimulUnsearched(ts[1..], es);
      assert ts[0] in ts;
      assert SimulToken(ts[0], es) == [ts[0]];
    }
  }

  lemma {:induction false} ReplaceOne(ts: seq<Token>, e: Entry, es: seq<Entry>)
    requires Unsearched(Printed(e.value), es)
    ensures Simul(ReplaceTokens(ts, e.search, Printed(e.value)), es) == Simul(ts, [e] + es)
  {
    if ts != [] {
      var t, with := ts[0], Printed(e.value);
      ReplaceOne(ts[1..], e, es);
      SimulConcat(if t.Ref? && TokenText(t) == e.search then with else [t],
                  ReplaceTokens(ts[1..], e.search, with), es);
      SimulUnsearched(with, es);
      assert ([e] + es)[1..] == es;
      assert Simul([t], es) == SimulToken(t, es) + [] == SimulToken(t, es);
    }
  }

  /** Values that bring in nothing another entry searches for can be put in place one
      after the other. */
  lemma {:induction false} ReplaceInAnyOrder(ts: seq<Token>, es: seq<Entry>)
    requires forall e | e in es :: Unsearched(Printed(e.value), es)
    ensures ReplaceEntries(ts, es) == Simul(ts, es)
    decreases |es|
  {
    if es == [] {
      SimulUnsearched(ts, es);
    } else {
      var e := es[0];
      assert e in es;
      ReplaceInAnyOrder(ReplaceTokens(ts, e.search, Printed(e.value)), es[1..]);
      ReplaceOne(ts, e, es[1..]);
      assert [e] + es[1..] == es;
    }
  }

  /** A placeholder is determined by its text up to how its default was parsed. */
  lemma TextDeterminesKey(t: Token, u: Token)
    requires t.Ref? && u.Ref? && ':' !in t.key && ':' !in u.key
    requires TokenText(t) == TokenText(u)
    ensures t.key == u.key && RawDefault(t) == RawDefault(u)
  {
    var b, c := Body(t.key, RawDefault(t)), Body(u.key, RawDefault(u));
    assert TokenText(t)[2..|TokenText(t)| - 1] == b;
    assert TokenText(u)[2..|TokenText(u)| - 1] == c;
    FoundInBody(t);
    FoundInBody(u);
  }

  /***************************** Gathered entries *****************************/

  /** `e` is what resolving placeholder `ph` recorded. */
  ghost predicate EntryFor(st: Store, g: Graph, bound: nat, e: Entry, ph: Token)
    requires Ranked(st, g)
  {
    && ph.Ref? && g.rank(g.norm(ph.key)) < bound
    && e.key == ph.key && e.search == SearchText(ph)
    && PureRef(st, g, ph, bound) == Some(e.value) && e.value != Nil
  }

  ghost predicate Recorded(st: Store, g: Graph, bound: nat, e: Entry, phs: seq<Token>)
    requires Ranked(st, g)
  {
    exists ph :: ph in phs && EntryFor(st, g, bound, e, ph)
  }

  ghost predicate HasKey(es: seq<Entry>, key: string) {
    exists e :: e in es && e.key == key
  }

  /** `es` records exactly the placeholders of `phs` that have a value. */
  ghost predicate Gathers(st: Store, g: Graph, bound: nat, es: seq<Entry>, phs: seq<Token>)
    requires Ranked(st, g) && RanksBelow(phs, g, bound)
  {
    && (forall e | e in es :: Recorded(st, g, bound, e, phs))
    && (forall ph | ph in phs && ph.Ref? ::
          PureRef(st, g, ph, bound) != Some(Nil) ==> HasKey(es, ph.key))
  }

  lemma SearchIsText(ph: Token)
    requires ph.Ref? && PrintsBack(ph)
    ensures SearchText(ph) == TokenText(ph)
  {
  }

  lemma RecordedValued(st: Store, g: Graph, bound: nat, e: Entry, ts: seq<Token>) returns (ph: Token)
    requires Ranked(st, g) && Recorded(st, g, bound, e, ts)
    ensures ph in ts && EntryFor(st, g, bound, e, ph) && Valued(st, g, bound, ph)
  {
    ph :| ph in ts && EntryFor(st, g, bound, e, ph);
  }

  /** The entry that a token matches is the one recorded for it. */
  lemma MatchIsPure(st: Store, g: Graph, bound: nat, ts: seq<Token>, es: seq<Entry>, t: Token)
    requires Ranked(st, g) && RanksBelow(ts, g, bound) && ColonFree(ts) && Unambiguous(st, g, bound, ts)
    requires Gathers(st, g, bound, es, ts) && t in ts && t.Ref?
    ensures Match(es, t) ==
            var v := PureRef(st, g, t, bound);
            if v == Some(Nil) then None else v
  {
    if Valued(st, g, bound, t) {
      SearchIsText(t);
      assert HasKey(es, t.key);
      var e :| e in es && e.key == t.key;
      var ph := RecordedValued(st, g, bound, e, ts);
      assert e.search == TokenText(t);
    }
    if Match(es, t).Some? {
      var e :| e in es && e.search == TokenText(t) && e.value == Match(es, t).value;
      SearchedIsValued(st, g, bound, ts, e, t);
    }
  }

  /** Only a placeholder that has a value is searched for by an entry. */
  lemma SearchedIsValued(st: Store, g: Graph, bound: nat, ts: seq<Token>, e: Entry, t: Token)
    requires Ranked(st, g) && ColonFree(ts) && Unambiguous(st, g, bound, ts) && t in ts
    requires Recorded(st, g, bound, e, ts) && t.Ref? && e.search == TokenText(t) && g.rank(g.norm(t.key)) < bound
    ensures PureRef(st, g, t, bound) == Some(e.value) && e.value != Nil
  {
    var ph := RecordedValued(st, g, bound, e, ts);
    SearchIsText(ph);
    TextDeterminesKey(ph, t);
  }

  lemma {:induction false} SimulIsPure(st: Store, g: Graph, bound: nat, all: seq<Token>, es: seq<Entry>, ts: seq<Token>)
    requires Ranked(st, g) && RanksBelow(all, g, bound) && ColonFree(all) && Unambiguous(st, g, bound, all)
    requires Gathers(st, g, bound, es, all)
    requires forall t | t in all && t.Ref? :: PureRef(st, g, t, bound).Some?
    requires forall t | t in ts :: t in all
    ensures Simul(ts, es) == PureTokens(st, g, ts, bound)
  {
    if ts != [] {
      SimulIsPure(st, g, bound, all, es, ts[1..]);
      assert ts[0] in ts;
      if ts[0].Ref? {
        MatchIsPure(st, g, bound, all, es, ts[0]);
      }
    }
  }

  /** No entry searches for a dead placeholder. */
  lemma DeadIsUnsearched(st: Store, g: Graph, bound: nat, ts: seq<Token>, t: Token, f: Entry)
    requires Ranked(st, g) && ColonFree(ts) && Dead(st, g, t, bound) && Recorded(st, g, bound, f, ts)
    ensures f.search != TokenText(t)
  {
    var ph := RecordedValued(st, g, bound, f, ts);
    var b := Body(ph.key, if ph.def.None? then None else Some(ph.def.value.Printed()));
    assert f.search[2..|f.search| - 1] == b;
    assert TokenText(t)[2..|TokenText(t)| - 1] == t.key;
    if ph.def.Some? {
      assert b[|ph.key|] == ':';
    }
  }

  /** What a recorded value leaves behind is dead, so no entry searches for it. */
  lemma RecordedUnsearched(st: Store, g: Graph, bound: nat, es: seq<Entry>, ts: seq<Token>, e: Entry)
    requires PlainKeys(st) && Ranked(st, g) && RanksBelow(ts, g, bound) && ColonFree(ts)
    requires Gathers(st, g, bound, es, ts) && e in es
    ensures Unsearched(Printed(e.value), es)
  {
    assert Recorded(st, g, bound, e, ts);
    var ph :| ph in ts && EntryFor(st, g, bound, e, ph);
    PureRefLeavesDead(st, g, ph, bound);
    forall t, f | t in Printed(e.value) && t.Ref? && f in es
      ensures f.search != TokenText(t)
    {
      assert Dead(st, g, t, bound);
      DeadIsUnsearched(st, g, bound, ts, t, f);
    }
  }

  lemma GathersShuffled(r: Run, st: Store, g: Graph, bound: nat, es: seq<Entry>, ts: seq<Token>)
    requires Shuffles(r) && Ranked(st, g) && RanksBelow(ts, g, bound)
    requires Gathers(st, g, bound, es, ts)
    ensures Gathers(st, g, bound, r.shuffle(es), ts)
  {
    ShuffleKeeps(r, es);
    forall ph | ph in ts && ph.Ref? && PureRef(st, g, ph, bound) != Some(Nil)
      ensures HasKey(r.shuffle(es), ph.key)
    {
      assert HasKey(es, ph.key);
    }
  }

  lemma GathersPlaceholders(st: Store, g: Graph, bound: nat, es: seq<Entry>, ts: seq<Token>)
    requires Ranked(st, g) && RanksBelow(ts, g, bound)
    requires RanksBelow(Placeholders(ts), g, bound) && Gathers(st, g, bound, es, Placeholders(ts))
    ensures Gathers(st, g, bound, es, ts)
  {
    forall e | e in es
      ensures Recorded(st, g, bound, e, ts)
    {
      assert Recorded(st, g, bound, e, Placeholders(ts));
    }
  }

  /** Replacing entry after entry, in any order, is replacing all at once. */
  lemma AssembleIsSimul(r: Run, st: Store, g: Graph, bound: nat, es: seq<Entry>, ts: seq<Token>)
    requires Shuffles(r) && PlainKeys(st) && Ranked(st, g) && |ts| > 1
    requires RanksBelow(ts, g, bound) && ColonFree(ts) && Gathers(st, g, bound, es, ts)
    ensures Gathers(st, g, bound, r.shuffle(es), ts)
    ensures Assemble(r, ts, es) == Str(Simul(ts, r.shuffle(es)))
  {
    var shuffled := r.shuffle(es);
    GathersShuffled(r, st, g, bound, es, ts);
    forall e | e in shuffled
      ensures Unsearched(Printed(e.value), shuffled)
    {
      RecordedUnsearched(st, g, bound, shuffled, ts, e);
    }
    ReplaceInAnyOrder(ts, shuffled);
  }

  /** A string assembled from gathered entries is its pure substitution. */
  lemma AssembleIsPure(r: Run, st: Store, g: Graph, bound: nat, es: seq<Entry>, ts: seq<Token>)
    requires Shuffles(r) && PlainKeys(st) && Ranked(st, g)
    requires RanksBelow(ts, g, bound) && ColonFree(ts) && Gathers(st, g, bound, es, ts) && Unambiguous(st, g, bound, ts)
    requires |ts| > 1 && forall t | t in ts && t.Ref? :: PureRef(st, g, t, bound).Some?
    ensures Assemble(r, ts, es) == Str(PureTokens(st, g, ts, bound))
  {
    AssembleIsSimul(r, st, g, bound, es, ts);
    SimulIsPure(st, g, bound, ts, r.shuffle(es), ts);
  }

  lemma SearchKey(ph: Token, t: Token)
    requires ph.Ref? && t.Ref? && ':' !in ph.key && ':' !in t.key && SearchText(ph) == TokenText(t)
    ensures ph.key == t.key && (ph.def.Some? <==> t.def.Some?)
    ensures ph.def.Some? ==> ph.def.value.Printed() == t.def.value.raw
  {
    var d := if ph.def.None? then None else Some(ph.def.value.Printed());
    var b, c := Body(ph.key, d), Body(t.key, RawDefault(t));
    assert SearchText(ph)[2..|SearchText(ph)| - 1] == b;
    assert TokenText(t)[2..|TokenText(t)| - 1] == c;
    SameBody(ph.key, d, t.key, RawDefault(t));
  }

  lemma SameBody(a: string, d: Option<string>, b: string, e: Option<string>)
    requires ':' !in a && ':' !in b && Body(a, d) == Body(b, e)
    ensures a == b && d == e
  {
    FoundInBody(Ref(a, if d.None? then None else Some(Plain(d.value))));
    FoundInBody(Ref(b, if e.None? then None else Some(Plain(e.value))));
  }

  lemma DeadIsNotValued(st: Store, g: Graph, bound: nat, t: Token)
    requires Ranked(st, g) && Dead(st, g, t, bound)
    ensures !Valued(st, g, bound, t)
  {
  }

  lemma {:induction false} ValueForIsPure(st: Store, g: Graph, bound: nat, es: seq<Entry>, t: Token)
    requires Ranked(st, g) && t.Ref? && g.rank(g.norm(t.key)) < bound
    requires forall e | e in es :: Recorded(st, g, bound, e, [t])
    ensures es == [] ==> ValueFor(es, t.key) == Nil
    ensures es != [] ==> PureRef(st, g, t, bound) == Some(ValueFor(es, t.key))
    ensures es != [] ==> ValueFor(es, t.key) != Nil
  {
    if es != [] {
      assert Recorded(st, g, bound, es[0], [t]);
    }
  }

  /** A lone placeholder becomes its value. */
  lemma AssembleLone(r: Run, st: Store, g: Graph, bound: nat, es: seq<Entry>, t: Token)
    requires Ranked(st, g) && t.Ref? && g.rank(g.norm(t.key)) < bound
    requires Gathers(st, g, bound, es, [t]) && PureRef(st, g, t, bound).Some?
    ensures Assemble(r, [t], es) == PureRef(st, g, t, bound).value
  {
    ValueForIsPure(st, g, bound, es, t);
    if PureRef(st, g, t, bound) != Some(Nil) {
      assert t in [t];
      assert HasKey(es, t.key);
    }
  }
}
