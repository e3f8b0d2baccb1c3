/** Strings that mention a key twice, once with a default, or whose default prints otherwise
    than it is written: replacement searches for one printed text per key, so a placeholder
    can be missed although it has a value.
 */
module Ambiguity {
  import opened Collections
  import opened Text
  import opened Placeholder
  import opened Resolver
  import opened Substitution
  import opened Replacement
  import opened Memo

  /***************************** One string *****************************/

  /** One entry per key, as in a map. */
  ghost predicate OnePerKey(es: seq<Entry>) {
    forall e, f | e in es && f in es && e.key == f.key :: e == f
  }

  /** The same text is parsed the same way. */
  ghost predicate ParsedAlike(ts: seq<Token>) {
    forall t, u | t in ts && u in ts && t.Ref? && u.Ref? && TokenText(t) == TokenText(u) :: t == u
  }

  lemma {:induction false} UnmatchedStays(ts: seq<Token>, es: seq<Entry>, t: Token)
    requires t in ts && t.Ref? && Match(es, t).None?
    ensures t in Simul(ts, es)
  {
    if ts[0] != t {
      UnmatchedStays(ts[1..], es, t);
    }
  }

  /** The entry that a token matches has its key. */
  lemma MatchedKey(st: Store, g: Graph, bound: nat, ts: seq<Token>, es: seq<Entry>, t: Token) returns (e: Entry)
    requires Ranked(st, g) && RanksBelow(ts, g, bound) && ColonFree(ts)
    requires Gathers(st, g, bound, es, ts) && t in ts && t.Ref? && Match(es, t).Some?
    ensures e in es && e.search == TokenText(t) && e.key == t.key && Recorded(st, g, bound, e, ts)
  {
    e :| e in es && e.search == TokenText(t) && e.value == Match(es, t).value;
    var ph := RecordedValued(st, g, bound, e, ts);
    SearchKey(ph, t);
  }

  lemma MissedOfTwo(st: Store, g: Graph, bound: nat, ts: seq<Token>, es: seq<Entry>, a: Token,
                    b: Token) returns (t: Token)
    requires Ranked(st, g) && RanksBelow(ts, g, bound) && ColonFree(ts) && ParsedAlike(ts)
    requires Gathers(st, g, bound, es, ts) && OnePerKey(es)
    requires a in ts && b in ts && Valued(st, g, bound, a) && Valued(st, g, bound, b) && a.key == b.key && a != b
    ensures t in {a, b} && Match(es, t).None?
  {
    if Match(es, a).None? {
      t := a;
    } else {
      t := b;
      var e := MatchedKey(st, g, bound, ts, es, a);
      if Match(es, b).Some? {
        var f := MatchedKey(st, g, bound, ts, es, b);
      }
    }
  }

  lemma NotPrintedBack(st: Store, g: Graph, bound: nat, ts: seq<Token>, es: seq<Entry>, t: Token)
    requires Ranked(st, g) && RanksBelow(ts, g, bound) && ColonFree(ts) && Gathers(st, g, bound, es, ts)
    requires t in ts && Valued(st, g, bound, t) && !PrintsBack(t)
    requires forall u | u in ts && Valued(st, g, bound, u) && u.key == t.key :: u == t
    ensures Match(es, t).None?
  {
    if Match(es, t).Some? {
      var e := MatchedKey(st, g, bound, ts, es, t);
      var ph := RecordedValued(st, g, bound, e, ts);
      SearchKey(ph, t);
    }
  }

  /** A string with an ambiguous placeholder has one that no entry searches for. */
  lemma AmbiguousIsMissed(st: Store, g: Graph, bound: nat, ts: seq<Token>, es: seq<Entry>) returns (t: Token)
    requires Ranked(st, g) && RanksBelow(ts, g, bound) && ColonFree(ts) && ParsedAlike(ts)
    requires Gathers(st, g, bound, es, ts) && OnePerKey(es) && !Unambiguous(st, g, bound, ts)
    ensures t in ts && Valued(st, g, bound, t) && Match(es, t).None?
  {
    if a, b :| a in ts && b in ts && Valued(st, g, bound, a) && Valued(st, g, bound, b) && a.key == b.key && a != b {
      t := MissedOfTwo(st, g, bound, ts, es, a, b);
    } else {
      t :| t in ts && Valued(st, g, bound, t) && !PrintsBack(t);
      NotPrintedBack(st, g, bound, ts, es, t);
    }
  }

  lemma NoneLive(st: Store, g: Graph, bound: nat, ts: seq<Token>, t: Token)
    requires PlainKeys(st) && Ranked(st, g) && RanksBelow(ts, g, bound) && ColonFree(ts)
    requires forall x | x in ts && x.Ref? :: PureRef(st, g, x, bound).Some?
    requires Valued(st, g, bound, t)
    ensures t !in PureTokens(st, g, ts, bound)
  {
    PureTokensLeaveDead(st, g, ts, bound);
    if t in PureTokens(st, g, ts, bound) {
      DeadIsNotValued(st, g, bound, t);
    }
  }

  /** A longer string becomes its pure substitution exactly if it is not ambiguous. */
  lemma AssembleExactly(r: Run, st: Store, g: Graph, bound: nat, es: seq<Entry>, ts: seq<Token>)
    requires Shuffles(r) && PlainKeys(st) && Ranked(st, g)
    requires RanksBelow(ts, g, bound) && ColonFree(ts) && ParsedAlike(ts) && Gathers(st, g, bound, es, ts)
    requires OnePerKey(es)
    requires |ts| > 1 && forall t | t in ts && t.Ref? :: PureRef(st, g, t, bound).Some?
    ensures Assemble(r, ts, es) == Str(PureTokens(st, g, ts, bound)) <==> Unambiguous(st, g, bound, ts)
  {
    if Unambiguous(st, g, bound, ts) {
      AssembleIsPure(r, st, g, bound, es, ts);
    } else {
      AssembleIsSimul(r, st, g, bound, es, ts);
      ShuffleKeeps(r, es);
      var t := AmbiguousIsMissed(st, g, bound, ts, r.shuffle(es));
      UnmatchedStays(ts, r.shuffle(es), t);
      NoneLive(st, g, bound, ts, t);
    }
  }

  /***************************** One leaf *****************************/

  ghost predicate DistinctKeys(es: seq<Entry>) {
    forall i, j | 0 <= i < j < |es| :: es[i].key != es[j].key
  }

  lemma {:induction false} PutKeepsDistinct(es: seq<Entry>, e: Entry)
    requires DistinctKeys(es)
    ensures DistinctKeys(PutEntry(es, e))
  {
    if es != [] && es[0].key != e.key {
      var rest := PutEntry(es[1..], e);
      PutKeepsDistinct(es[1..], e);
      forall x | x in rest
        ensures x.key != es[0].key
      {
        if x in es[1..] {
          var i :| 0 <= i < |es[1..]| && es[1..][i] == x;
          assert es[i + 1] == x;
        }
      }
    }
  }

  lemma {:induction false} GatheredDistinct(r: Run, st: Store, phs: seq<Token>, path: seq<string>, acc: seq<Entry>)
    requires Shuffles(r) && Within(st, r.universe) && DistinctKeys(acc)
    requires forall ph | ph in phs :: ph.Ref? && ph.key in r.universe && ph.key !in path
    requires forall e | e in acc :: RefsIn(e.value, r.universe)
    ensures var p := ResolveAll(r, st, phs, path, acc); p.Done? ==> DistinctKeys(p.es)
    decreases |phs|
  {
    if phs != [] {
      var ph := phs[0];
      FirstOne(r, st, phs, path, acc);
      var o := ResolveValue(r, st, ph.key, path);
      if Chosen(ph, o.res).Ok? {
        var v := Chosen(ph, o.res).value;
        PutKeepsDistinct(acc, Entry(ph.key, SearchText(ph), v));
        GatheredDistinct(r, o.st, phs[1..], path, Extended(acc, ph, v));
      }
    }
  }

  /** A leaf whose references can all be resolved rightly. */
  ghost predicate Fresh(r: Run, st0: Store, g: Graph, vs: Values, st: Store, k: string) {
    && Shuffles(r) && r.norm == g.norm && Within(st, r.universe)
    && Ranked(st0, g) && vs == PureValues(st0, g) && Memoised(st0, vs, st)
    && WellFormedBelow(st0, g, g.rank(k)) && CleanBelow(st0, g, vs, g.rank(k) + 1)
    && k in st0 && g.norm(k) == k && st0[k].Str? && st[k] == st0[k]
    && forall t | t in st0[k].ts && t.Ref? :: PureRef(st0, g, t, g.rank(k)).Some?
  }

  lemma FreshRefs(r: Run, st0: Store, g: Graph, vs: Values, st: Store, k: string)
    requires Fresh(r, st0, g, vs, st, k)
    ensures RanksAbove([k], g, g.rank(k)) && RanksBelow(Placeholders(st0[k].ts), g, g.rank(k))
    ensures NoneCollapses(vs, g.norm, Placeholders(st0[k].ts)) && CleanBelow(st0, g, vs, g.rank(k))
    ensures forall ph | ph in Placeholders(st0[k].ts) :: ph.Ref? && ph.key in r.universe && ph.key !in [k]
  {
    NotCircular(g, st0[k].ts, [k], g.rank(k));
    assert NoneCollapses(vs, g.norm, st0[k].ts);
  }

  lemma FreshGathers(r: Run, st0: Store, g: Graph, vs: Values, st: Store, k: string) returns (p: Progress)
    requires Fresh(r, st0, g, vs, st, k)
    requires forall ph | ph in Placeholders(st0[k].ts) :: ph.Ref? && ph.key in r.universe && ph.key !in [k]
    ensures p == ResolveAll(r, st, Placeholders(st0[k].ts), [k], [])
    ensures p.Done? && Gathers(st0, g, g.rank(k), p.es, st0[k].ts) && OnePerKey(p.es)
  {
    var phs := Placeholders(st0[k].ts);
    FreshRefs(r, st0, g, vs, st, k);
    GatherIsPure(r, st0, g, vs, st, [], phs, [k], [], g.rank(k));
    GatheredDistinct(r, st, phs, [k], []);
    p := ResolveAll(r, st, phs, [k], []);
    EmptyLeft(phs);
    GathersPlaceholders(st0, g, g.rank(k), p.es, st0[k].ts);
  }

  /** The leaf ends with what is assembled from the entries gathered for it. */
  lemma FreshOutcome(r: Run, st0: Store, g: Graph, vs: Values, st: Store, k: string) returns (p: Progress)
    requires Fresh(r, st0, g, vs, st, k) && Placeholders(st0[k].ts) != []
    ensures p.Done? && p.st.Keys == st0.Keys && Gathers(st0, g, g.rank(k), p.es, st0[k].ts) && OnePerKey(p.es)
    ensures var v := Assemble(r, st0[k].ts, p.es);
            ResolveValue(r, st, k, []) == Outcome(SetLeaf(p.st, k, v), Ok(v))
  {
    FreshRefs(r, st0, g, vs, st, k);
    p := FreshGathers(r, st0, g, vs, st, k);
    assert [] + [k] == [k];
    ResolveUnfolds(r, st, k, []);
  }

  /** Resolving a leaf that is more than one placeholder leaves it with its pure
      substitution exactly if its string is not ambiguous. */
  lemma FreshExactly(r: Run, st0: Store, g: Graph, vs: Values, st: Store, k: string)
    requires Fresh(r, st0, g, vs, st, k) && |st0[k].ts| > 1 && ParsedAlike(st0[k].ts)
    ensures var o := ResolveValue(r, st, k, []);
            o.res.Ok? && (o.st[k] == Final(st0, vs, k) <==> Unambiguous(st0, g, g.rank(k), st0[k].ts))
  {
    var ts := st0[k].ts;
    PureIsValueAt(st0, g, k);
    if Placeholders(ts) != [] {
      var p := FreshOutcome(r, st0, g, vs, st, k);
      AssembleExactly(r, st0, g, g.rank(k), p.es, ts);
    }
  }

  /***************************** Examples *****************************/

  /** Leaf `k` refers to `a`, and no other leaf refers to anything. */
  ghost predicate OnlyRefers(r: Run, st: Store, k: string, a: string) {
    && Shuffles(r) && r.norm == KeyOver(k).norm && Within(st, r.universe)
    && k != a && ':' !in a && k in st && st[k].Str? && (forall t | t in st[k].ts && t.Ref? :: t.key == a)
    && (forall x | x in st && x != k && st[x].Str? :: forall t | t in st[x].ts :: t.Ch?)
    && (a in st ==> st[a].Str?)
  }

  function KeyOver(k: string): Graph {
    Graph((x: string) => x, (x: string) => if x == k then 1 else 0)
  }

  lemma OnlyRefersIsRanked(r: Run, st: Store, k: string, a: string)
    requires OnlyRefers(r, st, k, a)
    ensures Ranked(st, KeyOver(k)) && PlainKeys(st)
  {
    var g := KeyOver(k);
    forall x | x in st && st[x].Str?
      ensures RanksBelow(st[x].ts, g, g.rank(x)) && forall t | t in st[x].ts && t.Ref? :: ':' !in t.key
    {
      if x != k {
        assert forall t | t in st[x].ts :: t.Ch?;
      }
    }
  }

  lemma OnlyRefersIsFresh(r: Run, st: Store, k: string, a: string)
    requires OnlyRefers(r, st, k, a) && Ranked(st, KeyOver(k)) && PlainKeys(st)
    ensures Fresh(r, st, KeyOver(k), PureValues(st, KeyOver(k)), st, k)
  {
    var g := KeyOver(k);
    var vs := PureValues(st, g);
    if a in st {
      NoPlaceholders(st[a].ts);
    }
    assert Pure(st, g, a) == (if a in st then Some(st[a]) else Some(Nil));
    PureIsValueAt(st, g, a);
    assert !Collapses(vs, a) by {
      assert a in st && |st[a].ts| == 1 ==> st[a].ts[0] in st[a].ts;
    }
    forall x | x in st && st[x].Str?
      ensures NoneCollapses(vs, g.norm, st[x].ts)
    {
    }
  }

  /** A key mentioned without and with a default: one of the two placeholders is missed. */
  lemma TwiceIsMissed(r: Run, st: Store, k: string, a: string, d: Default)
    requires OnlyRefers(r, st, k, a) && a in st && st[k] == Str([Ref(a, None), Ref(a, Some(d))])
    ensures Ranked(st, KeyOver(k))
    ensures ResolveValue(r, st, k, []).st[k] != Final(st, PureValues(st, KeyOver(k)), k)
  {
    var g := KeyOver(k);
    OnlyRefersIsRanked(r, st, k, a);
    OnlyRefersIsFresh(r, st, k, a);
    var t, u := Ref(a, None), Ref(a, Some(d));
    var ts := [t, u];
    assert t in ts && u in ts;
    DifferentTexts(a, d);
    HasOwnValue(st, k, a, t);
    HasOwnValue(st, k, a, u);
    FreshExactly(r, st, g, PureValues(st, g), st, k);
  }

  lemma HasOwnValue(st: Store, k: string, a: string, t: Token)
    requires Ranked(st, KeyOver(k)) && a in st && a != k && st[a].Str? && (forall x | x in st[a].ts :: x.Ch?)
    requires t.Ref? && t.key == a
    ensures Valued(st, KeyOver(k), 1, t)
  {
    NoPlaceholders(st[a].ts);
    assert Pure(st, KeyOver(k), a) == Some(st[a]);
  }

  lemma DifferentTexts(a: string, d: Default)
    requires ':' !in a
    ensures TokenText(Ref(a, None)) != TokenText(Ref(a, Some(d)))
  {
    if TokenText(Ref(a, None)) == TokenText(Ref(a, Some(d))) {
      TextDeterminesKey(Ref(a, None), Ref(a, Some(d)));
    }
  }

  /** A default that prints otherwise than it is written is never put in place of a missing
      value. */
  lemma OddDefaultIsMissed(r: Run, st: Store, k: string, a: string, c: char, d: Default)
    requires OnlyRefers(r, st, k, a) && a !in st && d.Printed() != d.raw && st[k] == Str([Ch(c), Ref(a, Some(d))])
    ensures Ranked(st, KeyOver(k))
    ensures ResolveValue(r, st, k, []).st[k] != Final(st, PureValues(st, KeyOver(k)), k)
  {
    var g := KeyOver(k);
    OnlyRefersIsRanked(r, st, k, a);
    OnlyRefersIsFresh(r, st, k, a);
    var t := Ref(a, Some(d));
    assert t in st[k].ts;
    assert Pure(st, g, a) == Some(Nil);
    assert Valued(st, g, 1, t) && !PrintsBack(t);
    FreshExactly(r, st, g, PureValues(st, g), st, k);
  }
}
