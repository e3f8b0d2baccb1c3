/** What resolving a string does to its text: every placeholder gives way to the text of the
    leaf its key leads to, or to the default written inside it, or stays as it is written.
 */
module TextFilling {
  import opened Collections
  import opened Text
  import opened Placeholder
  import opened Resolver
  import opened StringLevel
  import opened Substitution
  import opened Replacement
  import opened TextResolver
  import opened TreeResolver
  import Tree = ConfigTree

  /***************************** The text that should result *****************************/

  /** The text a placeholder gives way to, if there is one. */
  function Stands(st: Leaves, norm: Norm, u: Token): Option<string>
    requires u.Ref?
  {
    if norm(u.key) in st && st[norm(u.key)].Leaf? then Some(st[norm(u.key)].value.text)
    else match u.def case Some(d) => Some(d.raw) case None => None
  }

  function WovenToken(st: Leaves, norm: Norm, u: Token): string {
    match u
    case Ch(c) => [c]
    case Ref(key, _) => match Stands(st, norm, u) case Some(s) => s case None => "${" + key + "}"
  }

  function Woven(st: Leaves, norm: Norm, ts: seq<Token>): string {
    if ts == [] then "" else WovenToken(st, norm, ts[0]) + Woven(st, norm, ts[1..])
  }

  /** The key leads to nothing, to a scalar, or to text without placeholders. */
  predicate LeadsToPlain(st: Leaves, k: string) {
    k in st ==> st[k].Null? || (st[k].Leaf? && (st[k].value.Text? ==> Scan(st[k].value.text, 0, None) == Parsed([], false)))
  }

  /** The default is parsed from its text and printed as it is written. */
  predicate AsWritten(parse: string -> Default, d: Default) {
    d == parse(d.raw) && (d.Typed? ==> d.printed == d.raw)
  }

  predicate CanFollow(t: TextRun, st: Leaves, path: seq<string>, u: Token)
    requires u.Ref?
  {
    u.key in t.universe && u.key !in path && LeadsToPlain(st, t.norm(u.key))
  }

  predicate Fills(t: TextRun, st: Leaves, u: Token) {
    u.Ref? && Stands(st, t.norm, u).Some?
  }

  /** Every placeholder can be followed and its default is as written; those that give way
      are told apart by their keys. */
  ghost predicate Fillable(t: TextRun, st: Leaves, path: seq<string>, ts: seq<Token>) {
    && (forall u | u in ts && u.Ref? :: CanFollow(t, st, path, u) && (u.def.Some? ==> AsWritten(t.parse, u.def.value)))
    && (forall u, v | u in ts && v in ts && Fills(t, st, u) && Fills(t, st, v) && u.key == v.key :: u == v)
  }

  /** At most one key gives way, or no dollar can meet a bracket. */
  ghost predicate KeptApart(t: TextRun, st: Leaves, ts: seq<Token>) {
    || (forall u, v | u in ts && v in ts && Fills(t, st, u) && Fills(t, st, v) :: u.key == v.key)
    || exists dollars :: KeepsApart(t, st, ts, dollars)
  }

  ghost predicate KeepsApart(t: TextRun, st: Leaves, ts: seq<Token>, dollars: bool) {
    Tame(dollars, ts) && forall u | u in ts && Fills(t, st, u) :: TameText(dollars, Stands(st, t.norm, u).value)
  }

  /***************************** Gathering *****************************/

  /** `te` was recorded for placeholder `u`. */
  predicate EntryOf(t: TextRun, st: Leaves, te: TextEntry, u: Token) {
    && Fills(t, st, u) && te.key == u.key && te.search == TokenText(u)
    && te.value.Leaf? && te.value.value.text == Stands(st, t.norm, u).value
  }

  ghost predicate FromSome(t: TextRun, st: Leaves, te: TextEntry, us: seq<Token>) {
    exists u :: u in us && EntryOf(t, st, te, u)
  }

  ghost predicate HasEntry(tes: seq<TextEntry>, key: string) {
    exists te :: te in tes && te.key == key
  }

  /** The entries come from `us`, and there is one for every key of `done` that gives way. */
  ghost predicate GathersText(t: TextRun, st: Leaves, tes: seq<TextEntry>, us: seq<Token>, done: set<Token>) {
    && (forall te | te in tes :: FromSome(t, st, te, us))
    && (forall u | u in done && Fills(t, st, u) :: HasEntry(tes, u.key))
  }

  lemma PlainTarget(t: TextRun, st: Leaves, key: string, visited: seq<string>)
    requires Mixing(t) && LeadsToPlain(st, t.norm(key))
    ensures ResolveText(t, st, key, visited) ==
            TextOutcome(st, TextOk(if t.norm(key) in st then st[t.norm(key)] else Tree.Null))
  {
    TextPlain(t, st, key, visited);
  }

  /** What is chosen for one placeholder. */
  lemma ChosenText(t: TextRun, st: Leaves, u: Token, path: seq<string>)
    requires Mixing(t) && u.Ref? && CanFollow(t, st, path, u) && (u.def.Some? ==> AsWritten(t.parse, u.def.value))
    ensures var o := ResolveText(t, st, u.key, path);
            var chosen := TextChosen(t.parse, Found(u.key, RawDefault(u)), o.res);
            && o.st == st && chosen.TextOk?
            && (if Fills(t, st, u)
                then chosen.value.Leaf? && chosen.value.value.text == Stands(st, t.norm, u).value
                else chosen.value == Tree.Null)
    ensures TextSearch(t.parse, Found(u.key, RawDefault(u))) == TokenText(u)
  {
    PlainTarget(t, st, u.key, path);
  }

  lemma {:induction false} PutHas(tes: seq<TextEntry>, te: TextEntry, key: string)
    ensures HasEntry(PutText(tes, te), key) <==> HasEntry(tes, key) || key == te.key
  {
    if tes == [] {
      assert te in [te];
    } else if tes[0].key == te.key {
      assert te in [te] + tes[1..];
      assert forall x | x in tes :: x == tes[0] || x in tes[1..];
      assert forall x | x in tes[1..] :: x in [te] + tes[1..] && x in tes;
    } else {
      PutHas(tes[1..], te, key);
      var put := PutText(tes[1..], te);
      assert forall x | x in tes :: x == tes[0] || x in tes[1..];
      assert tes[0] in [tes[0]] + put && forall x | x in put :: x in [tes[0]] + put;
      assert forall x | x in tes[1..] :: x in tes;
    }
  }

  lemma {:induction false} PutDistinct(tes: seq<TextEntry>, te: TextEntry)
    requires KeysDiffer(tes)
    ensures KeysDiffer(PutText(tes, te))
  {
    if tes != [] && tes[0].key != te.key {
      PutDistinct(tes[1..], te);
      PutHas(tes[1..], te, tes[0].key);
    }
  }

  /** One entry for each key. */
  ghost predicate KeysDiffer(tes: seq<TextEntry>) {
    tes == [] || (!HasEntry(tes[1..], tes[0].key) && KeysDiffer(tes[1..]))
  }

  lemma ExtendedGathers(t: TextRun, st: Leaves, tes: seq<TextEntry>, us: seq<Token>, done: set<Token>, u: Token, n: Node)
    requires GathersText(t, st, tes, us, done) && u in us && u.Ref?
    requires TextSearch(t.parse, Found(u.key, RawDefault(u))) == TokenText(u)
    requires if Fills(t, st, u) then n.Leaf? && n.value.text == Stands(st, t.norm, u).value else n == Tree.Null
    ensures GathersText(t, st, TextExtended(t.parse, tes, Found(u.key, RawDefault(u)), n), us, done + {u})
  {
    if Fills(t, st, u) {
      var te := TextEntry(u.key, TokenText(u), n);
      assert EntryOf(t, st, te, u);
      forall v | v in done + {u} && Fills(t, st, v)
        ensures HasEntry(PutText(tes, te), v.key)
      {
        PutHas(tes, te, v.key);
      }
    }
  }

  /** Gathering the first placeholder of a list. */
  lemma GatherFirst(t: TextRun, st: Leaves, phs: seq<Token>, path: seq<string>, tes: seq<TextEntry>)
    returns (more: seq<TextEntry>, n: Node)
    requires Mixing(t) && Searchable(tes) && phs != [] && forall ph | ph in phs :: ph.Ref?
    requires FollowedApart(FoundEach(phs), t.universe, path)
    requires CanFollow(t, st, path, phs[0]) && (phs[0].def.Some? ==> AsWritten(t.parse, phs[0].def.value))
    ensures FollowedApart(FoundEach(phs[1..]), t.universe, path) && Searchable(more)
    ensures TextSearch(t.parse, Found(phs[0].key, RawDefault(phs[0]))) == TokenText(phs[0])
    ensures more == TextExtended(t.parse, tes, Found(phs[0].key, RawDefault(phs[0])), n)
    ensures if Fills(t, st, phs[0]) then n.Leaf? && n.value.text == Stands(st, t.norm, phs[0]).value else n == Tree.Null
    ensures GatherText(t, st, FoundEach(phs), path, tes) == GatherText(t, st, FoundEach(phs[1..]), path, more)
  {
    var u, found := phs[0], FoundEach(phs);
    assert phs == [u] + phs[1..];
    FoundEachCons(u, phs[1..]);
    assert found[0] == Found(u.key, RawDefault(u)) && found[0..] == found && found[1..] == FoundEach(phs[1..]);
    ChosenText(t, st, u, path);
    n := TextChosen(t.parse, found[0], ResolveText(t, st, u.key, path).res).value;
    more := TextExtended(t.parse, tes, found[0], n);
    TextOneMore(t, st, found, 0, path, tes);
  }

  lemma {:induction false} GatherFills(t: TextRun, st: Leaves, phs: seq<Token>, path: seq<string>, tes: seq<TextEntry>,
                                       us: seq<Token>, done: set<Token>)
    requires Mixing(t) && Searchable(tes) && Fillable(t, st, path, us) && GathersText(t, st, tes, us, done)
    requires forall ph | ph in phs :: ph.Ref? && ph in us
    requires FollowedApart(FoundEach(phs), t.universe, path) && KeysDiffer(tes)
    ensures var p := GatherText(t, st, FoundEach(phs), path, tes);
            p.TextDone? && p.st == st && GathersText(t, st, p.es, us, done + SetOf(phs)) && KeysDiffer(p.es)
    decreases |phs|
  {
    if phs == [] {
      assert done + SetOf(phs) == done;
    } else {
      assert phs[0] in phs;
      var more, n := GatherFirst(t, st, phs, path, tes);
      ExtendedGathers(t, st, tes, us, done, phs[0], n);
      PutDistinct(tes, TextEntry(phs[0].key, TokenText(phs[0]), n));
      GatherFills(t, st, phs[1..], path, more, us, done + {phs[0]});
      assert done + SetOf(phs) == done + {phs[0]} + SetOf(phs[1..]);
    }
  }

  lemma FoundApart(phs: seq<Token>, universe: set<string>, path: seq<string>)
    requires forall ph | ph in phs :: ph.Ref? && ph.key in universe && ph.key !in path
    ensures FollowedApart(FoundEach(phs), universe, path)
  {
    forall f | f in FoundEach(phs)
      ensures f.key in universe && f.key !in path
    {
      var i :| 0 <= i < |phs| && FoundEach(phs)[i] == f;
      assert phs[i] in phs;
    }
  }

  /***************************** Replacing *****************************/

  /** The entries as the token model has them. */
  function AsTokens(tes: seq<TextEntry>): (es: seq<Entry>)
    ensures |es| == |tes|
    ensures forall i | 0 <= i < |tes| :: es[i] == Entry(tes[i].key, tes[i].search, Str(Chars(SprintNode(tes[i].value))))
  {
    seq(|tes|, i requires 0 <= i < |tes| => Entry(tes[i].key, tes[i].search, Str(Chars(SprintNode(tes[i].value)))))
  }

  lemma {:induction false} ReplacesAsTokens(s: string, tes: seq<TextEntry>)
    requires Searchable(tes)
    ensures forall e | e in AsTokens(tes) :: e.search != ""
    ensures ReplaceEach(s, tes) == ReplaceTexts(s, AsTokens(tes))
    decreases |tes|
  {
    if tes != [] {
      var e := AsTokens(tes)[0];
      assert tes[0] in tes && AsTokens(tes)[1..] == AsTokens(tes[1..]);
      RenderChars(SprintNode(tes[0].value));
      ReplacesAsTokens(ReplaceAll(s, tes[0].search, SprintNode(tes[0].value)), tes[1..]);
      assert forall x | x in AsTokens(tes) :: x == e || x in AsTokens(tes[1..]);
    }
  }

  /** An entry found by the text of a placeholder holds what that stands for. */
  lemma FoundIsRight(t: TextRun, st: Leaves, ts: seq<Token>, te: TextEntry, u: Token)
    requires FromSome(t, st, te, ts) && ColonFree(ts) && u in ts && u.Ref? && te.search == TokenText(u)
    ensures Fills(t, st, u) && SprintNode(te.value) == Stands(st, t.norm, u).value
  {
    var v :| v in ts && EntryOf(t, st, te, v);
    TextDeterminesKey(v, u);
    SameStands(st, t.norm, u, v);
  }

  /** A placeholder that gives way is found. */
  lemma FilledIsFound(t: TextRun, st: Leaves, path: seq<string>, ts: seq<Token>, tes: seq<TextEntry>, u: Token)
    requires Fillable(t, st, path, ts) && GathersText(t, st, tes, ts, SetOf(ts)) && u in ts && Fills(t, st, u)
    ensures exists e :: e in AsTokens(tes) && e.search == TokenText(u)
  {
    assert u in SetOf(ts);
    var te :| te in tes && te.key == u.key;
    assert FromSome(t, st, te, ts);
    var v :| v in ts && EntryOf(t, st, te, v);
    AsTokensHas(tes, te);
  }

  lemma AsTokensHas(tes: seq<TextEntry>, te: TextEntry)
    requires te in tes
    ensures Entry(te.key, te.search, Str(Chars(SprintNode(te.value)))) in AsTokens(tes)
  {
    var i :| 0 <= i < |tes| && tes[i] == te;
    assert AsTokens(tes)[i] in AsTokens(tes);
  }

  lemma AsTokensFrom(tes: seq<TextEntry>, e: Entry) returns (te: TextEntry)
    requires e in AsTokens(tes)
    ensures te in tes && e == Entry(te.key, te.search, Str(Chars(SprintNode(te.value))))
  {
    var i :| 0 <= i < |tes| && AsTokens(tes)[i] == e;
    te := tes[i];
  }

  /** The entry that a placeholder matches holds what it stands for. */
  lemma MatchStands(t: TextRun, st: Leaves, path: seq<string>, ts: seq<Token>, tes: seq<TextEntry>, u: Token)
    requires Fillable(t, st, path, ts) && GathersText(t, st, tes, ts, SetOf(ts)) && ColonFree(ts) && u in ts && u.Ref?
    ensures Match(AsTokens(tes), u) ==
            match Stands(st, t.norm, u) case Some(s) => Some(Str(Chars(s))) case None => None
  {
    var es := AsTokens(tes);
    if Match(es, u).Some? {
      var e :| e in es && e.search == TokenText(u) && e.value == Match(es, u).value;
      var te := AsTokensFrom(tes, e);
      FoundIsRight(t, st, ts, te, u);
    } else if Fills(t, st, u) {
      FilledIsFound(t, st, path, ts, tes, u);
    }
  }

  lemma SameStands(st: Leaves, norm: Norm, u: Token, v: Token)
    requires u.Ref? && v.Ref? && u.key == v.key && RawDefault(u) == RawDefault(v)
    ensures Stands(st, norm, u) == Stands(st, norm, v)
  {
  }

  lemma {:induction false} SimulIsWoven(t: TextRun, st: Leaves, path: seq<string>, all: seq<Token>,
                                        tes: seq<TextEntry>, ts: seq<Token>)
    requires Fillable(t, st, path, all) && GathersText(t, st, tes, all, SetOf(all)) && ColonFree(all)
    requires forall u | u in ts :: u in all
    ensures Render(Simul(ts, AsTokens(tes))) == Woven(st, t.norm, ts)
  {
    if ts != [] {
      var u, es := ts[0], AsTokens(tes);
      assert u in ts;
      SimulIsWoven(t, st, path, all, tes, ts[1..]);
      RenderConcat(SimulToken(u, es), Simul(ts[1..], es));
      assert Render([u]) == TokenText(u) by {
        assert [u][1..] == [];
        EmptyRight(TokenText(u));
      }
      if u.Ref? {
        MatchStands(t, st, path, all, tes, u);
        if Fills(t, st, u) {
          RenderChars(Stands(st, t.norm, u).value);
        }
      }
    }
  }

  lemma CharsUnsearched(tes: seq<TextEntry>)
    ensures forall e | e in AsTokens(tes) :: Unsearched(Printed(e.value), AsTokens(tes))
  {
  }

  /** Replacing on text renders replacing on tokens: for a single entry, or when dollars and
      brackets are kept apart. */
  lemma TextsRender(t: TextRun, st: Leaves, ts: seq<Token>, tes: seq<TextEntry>)
    requires Written(ts) && Searchable(tes) && (forall te | te in tes :: FromSome(t, st, te, ts))
    requires |tes| <= 1 || exists dollars :: KeepsApart(t, st, ts, dollars)
    ensures ReplaceEach(Render(ts), tes) == Render(ReplaceEntries(ts, AsTokens(tes)))
  {
    var es := AsTokens(tes);
    forall e | e in es
      ensures PlaceholderText(e.search)
    {
      var i :| 0 <= i < |tes| && es[i] == e;
      assert tes[i] in tes;
      var u :| u in ts && EntryOf(t, st, tes[i], u);
      WrittenRef(ts, u);
    }
    ReplacesAsTokens(Render(ts), tes);
    if |tes| == 1 {
      assert es[0] in es && es[1..] == [];
      ReplaceIsTokenwise(ts, es[0].search, Printed(es[0].value));
      assert ReplaceTexts(Render(ts), es) == ReplaceTexts(ReplaceAll(Render(ts), es[0].search, Sprint(es[0].value)), []);
    } else if |tes| > 1 {
      var dollars :| KeepsApart(t, st, ts, dollars);
      EntriesTame(t, st, ts, tes, dollars);
      TameStaysWritten(dollars, ts, es);
      TextsFollowTokens(ts, es);
    }
  }

  lemma EntriesTame(t: TextRun, st: Leaves, ts: seq<Token>, tes: seq<TextEntry>, dollars: bool)
    requires KeepsApart(t, st, ts, dollars) && forall te | te in tes :: FromSome(t, st, te, ts)
    ensures forall e | e in AsTokens(tes) :: Tame(dollars, Printed(e.value))
  {
    forall e | e in AsTokens(tes)
      ensures Tame(dollars, Printed(e.value))
    {
      var i :| 0 <= i < |tes| && AsTokens(tes)[i] == e;
      assert tes[i] in tes;
      var u :| u in ts && EntryOf(t, st, tes[i], u);
      CharsAreTame(dollars, Stands(st, t.norm, u).value);
    }
  }

  lemma {:induction false} WrittenRef(ts: seq<Token>, u: Token)
    requires Written(ts) && u in ts && u.Ref?
    ensures PlaceholderText(TokenText(u))
  {
    if ts[0] != u {
      WrittenRef(ts[1..], u);
    }
  }

  /***************************** The law *****************************/

  lemma MixedHas(t: TextRun, tes: seq<TextEntry>)
    requires Mixing(t)
    ensures |Mixed(t, tes)| == |tes| && forall te :: te in Mixed(t, tes) <==> te in tes
  {
    var order := t.mix(TextKeys(tes));
    assert Arranged(TextKeys(tes), order);
    forall te | te in tes
      ensures te in Mixed(t, tes)
    {
      var i :| 0 <= i < |tes| && tes[i] == te;
      var j := Onto(order, |tes|, i);
      assert Mixed(t, tes)[j] == te;
    }
  }

  function Upto(n: nat): (r: set<nat>)
    ensures |r| == n && forall k :: k in r <==> 0 <= k < n
  {
    if n == 0 then {} else Upto(n - 1) + {n - 1}
  }

  /** Distinct indices below `n`, as many as there are, are all of them. */
  lemma Onto(order: seq<nat>, n: nat, i: nat) returns (j: nat)
    requires |order| == n && Distinct(order) && (forall k | 0 <= k < n :: order[k] < n) && i < n
    ensures j < n && order[j] == i
  {
    CountDistinct(order);
    SubsetSize(SetOf(order), Upto(n));
    assert i in SetOf(order);
    j :| 0 <= j < n && order[j] == i;
  }

  lemma {:induction false} CountDistinct(s: seq<nat>)
    requires Distinct(s)
    ensures |SetOf(s)| == |s|
  {
    if s != [] {
      var n := |s| - 1;
      CountDistinct(s[..n]);
      assert s == s[..n] + [s[n]];
      assert SetOf(s) == SetOf(s[..n]) + {s[n]};
    }
  }

  lemma FirstTwoDiffer(tes: seq<TextEntry>)
    requires |tes| > 1 && KeysDiffer(tes)
    ensures tes[0].key != tes[1].key
  {
    assert tes[1] == tes[1..][0] && tes[1] in tes[1..];
  }

  lemma OneKeyOneEntry(t: TextRun, st: Leaves, ts: seq<Token>, tes: seq<TextEntry>)
    requires (forall te | te in tes :: FromSome(t, st, te, ts)) && KeysDiffer(tes)
    requires forall u, v | u in ts && v in ts && Fills(t, st, u) && Fills(t, st, v) :: u.key == v.key
    ensures |tes| <= 1
  {
    assert forall i | 0 <= i < |tes| :: FromSome(t, st, tes[i], ts);
    if |tes| > 1 {
      FirstTwoDiffer(tes);
    }
  }

  /** Replacing the entries in whatever order they are iterated weaves the text. */
  lemma ReplacingWeaves(t: TextRun, st: Leaves, path: seq<string>, ts: seq<Token>, tes: seq<TextEntry>)
    requires Mixing(t) && Fillable(t, st, path, ts) && KeptApart(t, st, ts) && Written(ts) && ColonFree(ts)
    requires GathersText(t, st, tes, ts, SetOf(ts)) && Searchable(tes) && KeysDiffer(tes)
    ensures ReplaceEach(Render(ts), Mixed(t, tes)) == Woven(st, t.norm, ts)
  {
    var mixed := Mixed(t, tes);
    MixedHas(t, tes);
    MixedGathers(t, st, ts, tes, mixed);
    if forall u, v | u in ts && v in ts && Fills(t, st, u) && Fills(t, st, v) :: u.key == v.key {
      OneKeyOneEntry(t, st, ts, tes);
    }
    TextsRender(t, st, ts, mixed);
    CharsUnsearched(mixed);
    ReplaceInAnyOrder(ts, AsTokens(mixed));
    SimulIsWoven(t, st, path, ts, mixed, ts);
  }

  lemma MixedGathers(t: TextRun, st: Leaves, ts: seq<Token>, tes: seq<TextEntry>, mixed: seq<TextEntry>)
    requires GathersText(t, st, tes, ts, SetOf(ts)) && forall te :: te in mixed <==> te in tes
    ensures GathersText(t, st, mixed, ts, SetOf(ts))
  {
    forall u | u in SetOf(ts) && Fills(t, st, u)
      ensures HasEntry(mixed, u.key)
    {
      assert HasEntry(tes, u.key);
    }
  }

  /** What is gathered for a text. */
  lemma GatheredFor(t: TextRun, st: Leaves, path: seq<string>, ts: seq<Token>) returns (tes: seq<TextEntry>)
    requires Mixing(t) && Fillable(t, st, path, ts)
    ensures FollowedApart(FoundEach(Placeholders(ts)), t.universe, path) && Searchable(tes) && KeysDiffer(tes)
    ensures GatherText(t, st, FoundEach(Placeholders(ts)), path, []) == TextDone(st, tes)
    ensures GathersText(t, st, tes, ts, SetOf(ts))
  {
    var phs := Placeholders(ts);
    FoundApart(phs, t.universe, path);
    GatherFills(t, st, phs, path, [], ts, {});
    tes := GatherText(t, st, FoundEach(phs), path, []).es;
    forall u | u in SetOf(ts) && Fills(t, st, u)
      ensures HasEntry(tes, u.key)
    {
      assert u in SetOf(phs);
    }
  }

  /** Resolving a text with more in it than one placeholder, for any number of placeholders,
      any order in which they are put in place, and any other leaves: each gives way to its
      own text, and the leaf is rewritten. */
  lemma TextIsFilled(t: TextRun, st: Leaves, key: string, visited: seq<string>, ts: seq<Token>)
    requires Mixing(t) && t.norm(key) in st && st[t.norm(key)] == Tree.Leaf(Tree.Text(Render(ts)))
    requires Written(ts) && ColonFree(ts) && |ts| > 1 && exists u :: u in ts && u.Ref?
    requires Fillable(t, st, visited + [key], ts) && KeptApart(t, st, ts)
    ensures var filled := Tree.Leaf(Tree.Text(Woven(st, t.norm, ts)));
            ResolveText(t, st, key, visited) == TextOutcome(st[t.norm(key) := filled], TextOk(filled))
  {
    var path, phs := visited + [key], Placeholders(ts);
    WrittenIsValid(ts);
    ScannerSeesTokens(ts);
    var tes := GatheredFor(t, st, path, ts);
    TextUnfolds(t, st, key, visited, Render(ts), FoundEach(phs), true);
    ReplacingWeaves(t, st, path, ts, tes);
  }

  /** A text that is one placeholder becomes what its key leads to, or its default with the
      type it was given; without either it stays. */
  lemma LoneIsFilled(t: TextRun, st: Leaves, key: string, visited: seq<string>, u: Token)
    requires Mixing(t) && t.norm(key) in st && u.Ref? && st[t.norm(key)] == Tree.Leaf(Tree.Text(TokenText(u)))
    requires ValidRef(u) && CanFollow(t, st, visited + [key], u) && (u.def.Some? ==> u.def.value == t.parse(u.def.value.raw))
    ensures var k, o := t.norm(u.key), ResolveText(t, st, key, visited);
            if k in st && st[k].Leaf? then o == TextOutcome(st[t.norm(key) := st[k]], TextOk(st[k]))
            else
              match u.def
              case None => o == TextOutcome(st, TextOk(Tree.Null))
              case Some(Plain(raw)) =>
                o == TextOutcome(st[t.norm(key) := Tree.Leaf(Tree.Text(raw))], TextOk(Tree.Leaf(Tree.Text(raw))))
              case Some(Typed(_, kind, printed)) =>
                var n := Tree.Leaf(Tree.Other(kind, printed));
                o == TextOutcome(st[t.norm(key) := n], TextOk(n))
  {
    var f, path := Found(u.key, RawDefault(u)), visited + [key];
    LoneScan(u);
    assert [f][1..] == [];
    TextUnfolds(t, st, key, visited, TokenText(u), [f], false);
    PlainTarget(t, st, u.key, path);
    var chosen := TextChosen(t.parse, f, ResolveText(t, st, u.key, path).res);
    assert GatherText(t, st, [f], path, []) == TextDone(st, TextExtended(t.parse, [], f, chosen.value));
  }

  /***************************** Errors *****************************/

  /** A text with a placeholder inside a placeholder is an error, and nothing is written. */
  lemma NestingIsReported(t: TextRun, st: Leaves, key: string, visited: seq<string>, text: string)
    requires Mixing(t) && t.norm(key) in st && st[t.norm(key)] == Tree.Leaf(Tree.Text(text)) && HasNested(text, 0)
    ensures ResolveText(t, st, key, visited) == TextOutcome(st, TextBadSyntax)
  {
    ParseFailsExactlyOnNesting(text);
  }

  /** A default covers an error of what its key leads to; without one the error is passed on. */
  lemma DefaultCoversError(t: TextRun, st: Leaves, key: string, visited: seq<string>, u: Token, text: string)
    requires Mixing(t) && t.norm(key) in st && u.Ref? && st[t.norm(key)] == Tree.Leaf(Tree.Text(TokenText(u)))
    requires ValidRef(u) && u.key in t.universe && u.key !in visited + [key]
    requires t.norm(u.key) in st && st[t.norm(u.key)] == Tree.Leaf(Tree.Text(text)) && HasNested(text, 0)
    ensures u.def.None? ==> ResolveText(t, st, key, visited) == TextOutcome(st, TextBadSyntax)
    ensures u.def.Some? && t.parse(u.def.value.raw) == Plain(u.def.value.raw) ==>
              var n := Tree.Leaf(Tree.Text(u.def.value.raw));
              ResolveText(t, st, key, visited) == TextOutcome(st[t.norm(key) := n], TextOk(n))
  {
    var f, path := Found(u.key, RawDefault(u)), visited + [key];
    LoneScan(u);
    TextUnfolds(t, st, key, visited, TokenText(u), [f], false);
    NestingIsReported(t, st, u.key, path, text);
    assert [f][1..] == [];
    var chosen := TextChosen(t.parse, f, TextBadSyntax);
    assert GatherText(t, st, [f], path, []) ==
           if chosen.TextOk? then TextDone(st, TextExtended(t.parse, [], f, chosen.value)) else TextStop(st, chosen);
  }

  /***************************** One default *****************************/

  lemma {:induction false} LiteralWritten(s: string)
    requires NoOpening(s)
    ensures Written(Chars(s))
  {
    if s != "" {
      forall i
        ensures !OpensAt(s[1..], i)
      {
        assert !OpensAt(s, i + 1);
      }
      LiteralWritten(s[1..]);
      assert Chars(s)[1..] == Chars(s[1..]) && !OpensAt(s, 0);
    }
  }

  function Around(a: string, u: Token, b: string): seq<Token> {
    Chars(a) + ([u] + Chars(b))
  }

  lemma AroundIsText(a: string, u: Token, b: string)
    requires u.Ref? && NoOpening(a) && NoOpening(b) && PlaceholderText(TokenText(u))
    ensures Written(Around(a, u, b)) && Render(Around(a, u, b)) == a + TokenText(u) + b
  {
    LiteralWritten(a);
    LiteralWritten(b);
    assert [u][1..] == [] && Written([u]);
    WrittenConcat([u], Chars(b));
    WrittenConcat(Chars(a), [u] + Chars(b));
    RenderConcat(Chars(a), [u] + Chars(b));
    RenderCons(u, Chars(b));
    RenderChars(a);
    RenderChars(b);
    Regroup(a, TokenText(u), b);
  }

  lemma CharsCons(s: string)
    requires s != ""
    ensures Chars(s) == [Ch(s[0])] + Chars(s[1..])
  {
  }

  lemma {:induction false} WovenChars(st: Leaves, norm: Norm, s: string, ts: seq<Token>)
    ensures Woven(st, norm, Chars(s) + ts) == s + Woven(st, norm, ts)
  {
    if s == "" {
      EmptyLeft(ts);
    } else {
      var c, rest := s[0], s[1..];
      WovenChars(st, norm, rest, ts);
      CharsCons(s);
      Regroup([Ch(c)], Chars(rest), ts);
      ConsTail(Ch(c), Chars(rest) + ts);
      assert s == [c] + rest;
      Regroup([c], rest, Woven(st, norm, ts));
    }
  }

  lemma WovenAround(st: Leaves, norm: Norm, a: string, u: Token, b: string)
    ensures Woven(st, norm, Around(a, u, b)) == a + WovenToken(st, norm, u) + b
  {
    WovenChars(st, norm, a, [u] + Chars(b));
    ConsTail(u, Chars(b));
    EmptyRight(Chars(b));
    WovenChars(st, norm, b, []);
    EmptyRight(b);
    Regroup(a, WovenToken(st, norm, u), b);
  }

  /** `${key:raw}` in a text, where the key leads nowhere: the default is put in its place. */
  lemma DefaultInPlace(t: TextRun, st: Leaves, leaf: string, a: string, key: string, raw: string, b: string)
    requires Mixing(t) && leaf in st && t.norm(leaf) == leaf && key in t.universe && key != leaf && t.norm(key) !in st
    requires st[leaf] == Tree.Leaf(Tree.Text(a + ("${" + (key + ":" + raw) + "}") + b)) && NoOpening(a) && NoOpening(b)
    requires ':' !in key && '}' !in key + ":" + raw && NoOpening(key + ":" + raw)
    requires t.parse(raw) == Plain(raw) && (a != "" || b != "")
    ensures var filled := Tree.Leaf(Tree.Text(a + raw + b));
            ResolveText(t, st, leaf, []) == TextOutcome(st[leaf := filled], TextOk(filled))
  {
    var u := Ref(key, Some(Plain(raw)));
    var ts := Around(a, u, b);
    assert TokenText(u) == "${" + (key + ":" + raw) + "}";
    assert PlaceholderText(TokenText(u));
    AroundIsText(a, u, b);
    WovenAround(st, t.norm, a, u, b);
    assert forall v | v in ts && v.Ref? :: v == u;
    assert u in ts && [] + [leaf] == [leaf];
    TextIsFilled(t, st, leaf, [], ts);
  }

  /** A key that occurs twice with different defaults: the later one is recorded for it, so
      only the later placeholder gives way. */
  lemma LaterDefaultWins(t: TextRun, st: Leaves, leaf: string, key: string, raw: string, later: string)
    requires Mixing(t) && leaf in st && t.norm(leaf) == leaf && key in t.universe && key != leaf && t.norm(key) !in st
    requires var u, v := Ref(key, Some(Plain(raw))), Ref(key, Some(Plain(later)));
             && ValidRef(u) && ValidRef(v) && st[leaf] == Tree.Leaf(Tree.Text(TokenText(u) + TokenText(v)))
    requires raw != later && t.parse(raw) == Plain(raw) && t.parse(later) == Plain(later)
    ensures var filled := Tree.Leaf(Tree.Text("${" + (key + ":" + raw) + "}" + later));
            ResolveText(t, st, leaf, []) == TextOutcome(st[leaf := filled], TextOk(filled))
  {
    var u, v := Ref(key, Some(Plain(raw))), Ref(key, Some(Plain(later)));
    var ts, found := [u, v], [Found(key, Some(raw)), Found(key, Some(later))];
    var te := TextEntry(key, TokenText(v), Tree.Leaf(Tree.Text(later)));
    TwoTokens(u, v);
    ParseUndoesRender(ts);
    assert [] + [leaf] == [leaf];
    TextUnfolds(t, st, leaf, [], Render(ts), found, true);
    GatherTwo(t, st, leaf, key, raw, later);
    OneMixed(t, te);
    DifferentTexts(key, raw, later);
    ReplaceMiss(TokenText(u), TokenText(v), TokenText(v), later);
    EmptyRight(TokenText(v));
    ReplaceHit(TokenText(v), "", later);
    EmptyRight(later);
    assert [te][1..] == [];
    assert ReplaceEach(Render(ts), [te]) == ReplaceEach(TokenText(u) + later, []) == TokenText(u) + later;
  }

  lemma TwoTokens(u: Token, v: Token)
    requires u.Ref? && v.Ref? && ValidRef(u) && ValidRef(v)
    ensures ValidTokens([u, v]) && Render([u, v]) == TokenText(u) + TokenText(v)
    ensures References([u, v]) == [Found(u.key, RawDefault(u)), Found(v.key, RawDefault(v))]
    ensures PlaceholderText(TokenText(u)) && PlaceholderText(TokenText(v))
  {
    OneRef(u);
    OneRef(v);
    assert [u, v] == [u] + [v] && [u, v][1..] == [v];
    RenderCons(u, [v]);
    ReferencesCons(u, [v]);
  }

  lemma GatherTwo(t: TextRun, st: Leaves, leaf: string, key: string, raw: string, later: string)
    requires Mixing(t) && key in t.universe && key != leaf && t.norm(key) !in st
    requires t.parse(raw) == Plain(raw) && t.parse(later) == Plain(later)
    ensures var found := [Found(key, Some(raw)), Found(key, Some(later))];
            && FollowedApart(found, t.universe, [leaf])
            && GatherText(t, st, found, [leaf], []) ==
               TextDone(st, [TextEntry(key, TokenText(Ref(key, Some(Plain(later)))), Tree.Leaf(Tree.Text(later)))])
  {
    var found := [Found(key, Some(raw)), Found(key, Some(later))];
    PlainTarget(t, st, key, [leaf]);
    var first := TextExtended(t.parse, [], found[0], Tree.Leaf(Tree.Text(raw)));
    TextOneMore(t, st, found, 0, [leaf], []);
    TextOneMore(t, st, found, 1, [leaf], first);
    assert found[0..] == found && found[2..] == [];
    assert first[1..] == [];
  }

  lemma DifferentTexts(key: string, raw: string, later: string)
    requires raw != later && ':' !in key
    ensures TokenText(Ref(key, Some(Plain(raw)))) != TokenText(Ref(key, Some(Plain(later))))
  {
    var u, v := Ref(key, Some(Plain(raw))), Ref(key, Some(Plain(later)));
    if TokenText(u) == TokenText(v) {
      TextDeterminesKey(u, v);
    }
  }

  /** Resolving in the tree: the leaf is rewritten and no other is touched. */
  method FillInTree(t: TextRun, tree: Node, leaf: string, ghost ts: seq<Token>) returns (tree': Node)
    requires tree.Obj? && Tree.GoodTree(tree) && Ready(t, tree, Tree.Flat(tree))
    requires leaf in Tree.Flat(tree) && t.norm(leaf) == leaf && Tree.Flat(tree)[leaf] == Tree.Leaf(Tree.Text(Render(ts)))
    requires Written(ts) && ColonFree(ts) && |ts| > 1 && exists u :: u in ts && u.Ref?
    requires Fillable(t, Tree.Flat(tree), [leaf], ts) && KeptApart(t, Tree.Flat(tree), ts)
    ensures tree'.Obj? && Tree.GoodTree(tree')
    ensures Tree.Flat(tree') == Tree.Flat(tree)[leaf := Tree.Leaf(Tree.Text(Woven(Tree.Flat(tree), t.norm, ts)))]
  {
    ghost var st := Tree.Flat(tree);
    assert [] + [leaf] == [leaf];
    TextIsFilled(t, st, leaf, [], ts);
    var res;
    tree', res := VisitLeaf(t, tree, leaf, st);
  }

  /***************************** At every depth *****************************/

  /** The text of what a leaf stands for in the pure substitution. */
  ghost function PureText(st: Store, g: Graph, u: Token): string
    requires Ranked(st, g)
  {
    match u
    case Ch(c) => [c]
    case Ref(key, def) =>
      match Pure(st, g, g.norm(key))
      case Some(Str(us)) => Render(us)
      case Some(Scalar(_, text)) => text
      case _ =>
        match def
        case Some(Plain(raw)) => raw
        case Some(Typed(_, _, printed)) => printed
        case None => "${" + key + "}"
  }

  ghost function PureWoven(st: Store, g: Graph, ts: seq<Token>): string
    requires Ranked(st, g)
  {
    if ts == [] then "" else PureText(st, g, ts[0]) + PureWoven(st, g, ts[1..])
  }

  lemma {:induction false} NeverMalformed(st: Store, g: Graph, k: string)
    requires Ranked(st, g)
    ensures Pure(st, g, k) != Some(Malformed)
    decreases g.rank(k)
  {
    if k in st && st[k].Str? && Placeholders(st[k].ts) != [] && |st[k].ts| == 1 {
      var u := st[k].ts[0];
      assert u in Placeholders(st[k].ts) && u in st[k].ts;
      NeverMalformed(st, g, g.norm(u.key));
    }
  }

  lemma PureTokenText(st: Store, g: Graph, u: Token, bound: nat)
    requires Ranked(st, g) && (u.Ref? ==> g.rank(g.norm(u.key)) < bound && PureRef(st, g, u, bound).Some?)
    ensures Render(PureToken(st, g, u, bound)) == PureText(st, g, u)
  {
    assert [u][1..] == [];
    EmptyRight(TokenText(u));
    if u.Ref? {
      NeverMalformed(st, g, g.norm(u.key));
      var v := PureRef(st, g, u, bound).value;
      if v.Scalar? {
        RenderChars(v.text);
      } else if u.def.Some? {
        RenderChars(u.def.value.raw);
      }
    }
  }

  lemma {:induction false} PureTokensText(st: Store, g: Graph, ts: seq<Token>, bound: nat)
    requires Ranked(st, g) && RanksBelow(ts, g, bound)
    requires forall u | u in ts && u.Ref? :: PureRef(st, g, u, bound).Some?
    ensures Render(PureTokens(st, g, ts, bound)) == PureWoven(st, g, ts)
  {
    if ts != [] {
      assert ts[0] in ts;
      PureTokensText(st, g, ts[1..], bound);
      PureTokenText(st, g, ts[0], bound);
      RenderConcat(PureToken(st, g, ts[0], bound), PureTokens(st, g, ts[1..], bound));
    }
  }

  /** The pure substitution as text, at every depth: the text of a leaf with each placeholder
      replaced by the text its key stands for, or by its default, or left as it is. A leaf
      that is one placeholder takes the value over as it is. */
  lemma PureIsTextual(st: Store, g: Graph, k: string)
    requires Ranked(st, g) && k in st && st[k].Str? && Pure(st, g, k).Some?
    ensures var ts, v := st[k].ts, Pure(st, g, k).value;
            if |ts| == 1 && ts[0].Ref?
            then
              var w := Pure(st, g, g.norm(ts[0].key));
              if w.Some? && w.value != Nil then v == w.value
              else
                match ts[0].def
                case Some(Plain(raw)) => v == Str(Chars(raw))
                case Some(Typed(_, kind, printed)) => v == Scalar(kind, printed)
                case None => v == Nil
            else v.Str? && Render(v.ts) == PureWoven(st, g, ts)
  {
    var ts := st[k].ts;
    if Placeholders(ts) == [] {
      LiteralWoven(st, g, ts);
    } else if |ts| > 1 {
      PureTokensText(st, g, ts, g.rank(k));
    } else {
      assert ts[0] in Placeholders(ts);
    }
  }

  lemma {:induction false} LiteralWoven(st: Store, g: Graph, ts: seq<Token>)
    requires Ranked(st, g) && Placeholders(ts) == []
    ensures Render(ts) == PureWoven(st, g, ts)
    ensures forall u | u in ts :: u.Ch?
  {
    if ts != [] {
      LiteralWoven(st, g, ts[1..]);
    }
  }
}
