/** The resolver on text does what the resolver on tokens does, wherever dollars and brackets
    are kept apart.
 */
module TextRefinement {
  import opened Collections
  import opened Text
  import opened Placeholder
  import opened Resolver
  import opened StringLevel
  import opened Resolution
  import opened TextResolver
  import Tree = ConfigTree

  /** The leaf of the tree that holds a value. */
  ghost predicate Shows(v: Value, n: Node) {
    match v
    case Nil => n == Tree.Null
    case Scalar(kind, text) => n == Tree.Leaf(Tree.Other(kind, text))
    case Str(ts) => n == Tree.Leaf(Tree.Text(Render(ts)))
    case Malformed => IsText(n) && Scan(n.value.text, 0, None).Nested?
  }

  ghost predicate ShowsResult(res: Result, t: TextResult) {
    match res
    case Ok(v) => t.TextOk? && Shows(v, t.value)
    case Circular => t.TextCircular?
    case BadSyntax => t.TextBadSyntax?
  }

  ghost predicate ShowsStore(st: Store, ls: Leaves) {
    st.Keys == ls.Keys && forall k | k in st :: Shows(st[k], ls[k])
  }

  ghost predicate ShowsOutcome(o: Outcome, t: TextOutcome) {
    ShowsStore(o.st, t.st) && ShowsResult(o.res, t.res)
  }

  ghost predicate ShowsEntry(e: Entry, te: TextEntry) {
    te.key == e.key && te.search == e.search && Shows(e.value, te.value)
  }

  ghost predicate ShowsEntries(es: seq<Entry>, tes: seq<TextEntry>) {
    |es| == |tes| && (es == [] || (ShowsEntry(es[0], tes[0]) && ShowsEntries(es[1..], tes[1..])))
  }

  ghost predicate ShowsProgress(p: Progress, t: TextProgress) {
    && ShowsStore(p.st, t.st)
    && (if p.Done? then t.TextDone? && ShowsEntries(p.es, t.es) else t.TextStop? && ShowsResult(p.why, t.why))
  }

  function KeysOf(es: seq<Entry>): (keys: seq<string>)
    ensures |keys| == |es|
  {
    seq(|es|, i requires 0 <= i < |es| => es[i].key)
  }

  /** The two runs agree on keys, defaults and iteration orders. */
  ghost predicate Alike(r: Run, style: Style, t: TextRun) {
    && Shuffles(r) && Mixing(t) && r.norm == t.norm && r.universe == t.universe && style.parse == t.parse
    && forall es :: r.shuffle(es) == Arranging(t, es)
  }

  ghost function Arranging(t: TextRun, es: seq<Entry>): seq<Entry>
    requires Mixing(t)
  {
    assert Arranged(KeysOf(es), t.mix(KeysOf(es)));
    Arrange(es, t.mix(KeysOf(es)))
  }

  /***************************** Entries *****************************/

  lemma {:induction false} ShowsAt(es: seq<Entry>, tes: seq<TextEntry>, i: nat)
    requires ShowsEntries(es, tes) && i < |es|
    ensures ShowsEntry(es[i], tes[i])
  {
    if i > 0 {
      ShowsAt(es[1..], tes[1..], i - 1);
    }
  }

  lemma {:induction false} ShowsIfEach(es: seq<Entry>, tes: seq<TextEntry>)
    requires |es| == |tes| && forall i | 0 <= i < |es| :: ShowsEntry(es[i], tes[i])
    ensures ShowsEntries(es, tes)
  {
    if es != [] {
      assert forall i | 0 <= i < |es[1..]| :: es[1..][i] == es[i + 1] && tes[1..][i] == tes[i + 1];
      ShowsIfEach(es[1..], tes[1..]);
    }
  }

  lemma ShowsCons(e: Entry, te: TextEntry, es: seq<Entry>, tes: seq<TextEntry>)
    requires ShowsEntry(e, te) && ShowsEntries(es, tes)
    ensures ShowsEntries([e] + es, [te] + tes)
  {
    ConsTail(e, es);
    ConsTail(te, tes);
  }

  lemma {:induction false} PutShows(es: seq<Entry>, tes: seq<TextEntry>, e: Entry, te: TextEntry)
    requires ShowsEntries(es, tes) && ShowsEntry(e, te)
    ensures ShowsEntries(PutEntry(es, e), PutText(tes, te))
  {
    if es == [] {
      assert [e][1..] == [] && [te][1..] == [];
    } else if es[0].key == e.key {
      ShowsCons(e, te, es[1..], tes[1..]);
    } else {
      PutShows(es[1..], tes[1..], e, te);
      ShowsCons(es[0], tes[0], PutEntry(es[1..], e), PutText(tes[1..], te));
    }
  }

  lemma {:induction false} TextForShows(es: seq<Entry>, tes: seq<TextEntry>, key: string)
    requires ShowsEntries(es, tes)
    ensures Shows(ValueFor(es, key), TextFor(tes, key))
  {
    if es != [] && es[0].key != key {
      TextForShows(es[1..], tes[1..], key);
    }
  }

  /** Iterating the two maps in the same order. */
  lemma MixedShows(t: TextRun, es: seq<Entry>, tes: seq<TextEntry>)
    requires Mixing(t) && ShowsEntries(es, tes)
    ensures ShowsEntries(Arranging(t, es), Mixed(t, tes))
  {
    forall i | 0 <= i < |es|
      ensures ShowsEntry(es[i], tes[i])
    {
      ShowsAt(es, tes, i);
    }
    assert KeysOf(es) == TextKeys(tes);
    assert Arranged(KeysOf(es), t.mix(KeysOf(es)));
    ShowsIfEach(Arranging(t, es), Mixed(t, tes));
  }

  lemma SprintsAlike(v: Value, n: Node)
    requires Shows(v, n) && !v.Malformed?
    ensures SprintNode(n) == Sprint(v)
  {
    if v.Scalar? {
      RenderChars(v.text);
    }
  }

  lemma {:induction false} ReplacesAlike(style: Style, s: string, es: seq<Entry>, tes: seq<TextEntry>)
    requires ShowsEntries(es, tes) && Searchable(tes)
    requires forall e | e in es :: GoodEntry(style, e) && e.search != ""
    ensures ReplaceEach(s, tes) == ReplaceTexts(s, es)
    decreases |es|
  {
    if es != [] {
      assert es[0] in es && tes[0] in tes;
      SprintsAlike(es[0].value, tes[0].value);
      ReplacesAlike(style, ReplaceAll(s, es[0].search, Sprint(es[0].value)), es[1..], tes[1..]);
    }
  }

  lemma GoodStaysWritten(style: Style, ts: seq<Token>, es: seq<Entry>)
    requires Sound(style, ts) && forall e | e in es :: GoodEntry(style, e)
    ensures StaysWritten(ts, es)
  {
    forall e | e in es
      ensures PlaceholderText(e.search) && Tame(style.dollars, Printed(e.value))
    {
      assert GoodEntry(style, e);
      PrintedIsSound(style, e.value);
    }
    TameStaysWritten(style.dollars, ts, es);
  }

  lemma MixedIsGood(r: Run, style: Style, t: TextRun, es: seq<Entry>)
    requires Alike(r, style, t) && forall e | e in es :: GoodEntry(style, e)
    ensures r.shuffle(es) == Arranging(t, es) && forall e | e in Arranging(t, es) :: GoodEntry(style, e)
  {
    ShuffleKeeps(r, es);
    assert r.shuffle(es) == Arranging(t, es);
  }

  /** Replacing text in the order a map is iterated renders replacing tokens in that order. */
  lemma MixedReplaces(r: Run, style: Style, t: TextRun, ts: seq<Token>, es: seq<Entry>, tes: seq<TextEntry>)
    requires Alike(r, style, t) && Sound(style, ts)
    requires ShowsEntries(es, tes) && Searchable(tes) && forall e | e in es :: GoodEntry(style, e)
    ensures ReplaceEach(Render(ts), Mixed(t, tes)) == Render(ReplaceEntries(ts, r.shuffle(es)))
  {
    var mixed := Arranging(t, es);
    MixedIsGood(r, style, t, es);
    MixedShows(t, es, tes);
    GoodStaysWritten(style, ts, mixed);
    TextsFollowTokens(ts, mixed);
    ReplacesAlike(style, Render(ts), mixed, Mixed(t, tes));
  }

  /** Assembling text renders what is assembled from tokens. */
  lemma AssembleShows(r: Run, style: Style, t: TextRun, ts: seq<Token>, es: seq<Entry>, tes: seq<TextEntry>)
    requires Alike(r, style, t) && Sound(style, ts) && Placeholders(ts) != []
    requires ShowsEntries(es, tes) && Searchable(tes) && forall e | e in es :: GoodEntry(style, e)
    ensures Shows(Assemble(r, ts, es), AssembleText(t, Render(ts), Placeholders(ts)[0].key, |ts| > 1, tes))
  {
    if |ts| > 1 {
      MixedReplaces(r, style, t, ts, es, tes);
    } else {
      LoneShows(r, t, ts, es, tes);
    }
  }

  lemma LoneShows(r: Run, t: TextRun, ts: seq<Token>, es: seq<Entry>, tes: seq<TextEntry>)
    requires Mixing(t) && |ts| == 1 && Placeholders(ts) != [] && ShowsEntries(es, tes) && Searchable(tes)
    ensures Shows(Assemble(r, ts, es), AssembleText(t, Render(ts), Placeholders(ts)[0].key, false, tes))
  {
    var lone := Placeholders(ts)[0];
    assert lone in ts && ts == [lone];
    TextForShows(es, tes, lone.key);
  }

  /***************************** One placeholder *****************************/

  lemma DefaultShows(d: Default)
    ensures Shows(DefaultValue(d), DefaultNode(d))
  {
    if d.Plain? {
      RenderChars(d.raw);
    }
  }

  /** What the scanner found is the placeholder. */
  ghost predicate IsFound(style: Style, ph: Token, f: Found) {
    RefOk(style, ph) && f == Found(ph.key, RawDefault(ph))
  }

  lemma ChosenAlike(style: Style, ph: Token, f: Found, res: Result, t: TextResult)
    requires IsFound(style, ph, f) && ShowsResult(res, t)
    ensures ShowsResult(Chosen(ph, res), TextChosen(style.parse, f, t))
  {
    if ph.def.Some? {
      DefaultShows(ph.def.value);
    }
  }

  lemma ExtendedShows(style: Style, es: seq<Entry>, tes: seq<TextEntry>, ph: Token, f: Found, v: Value, n: Node)
    requires IsFound(style, ph, f) && ShowsEntries(es, tes) && Shows(v, n)
    ensures ShowsEntries(Extended(es, ph, v), TextExtended(style.parse, tes, f, n))
  {
    if v != Nil {
      PutShows(es, tes, Entry(ph.key, SearchText(ph), v), TextEntry(f.key, TextSearch(style.parse, f), n));
    }
  }

  lemma FoundFirst(style: Style, phs: seq<Token>)
    requires phs != [] && RefsOk(style, phs) && forall ph | ph in phs :: ph.Ref?
    ensures var found := FoundEach(phs);
            && found != [] && IsFound(style, phs[0], found[0]) && found[1..] == FoundEach(phs[1..])
  {
    assert phs[0] in phs && phs == [phs[0]] + phs[1..];
    FoundEachCons(phs[0], phs[1..]);
  }

  lemma KeysFound(phs: seq<Token>, keys: set<string>, path: seq<string>)
    requires forall ph | ph in phs :: ph.Ref?
    ensures (exists f :: f in FoundEach(phs) && f.key in path) <==> exists ph :: ph in phs && ph.key in path
    ensures (exists f :: f in FoundEach(phs) && f.key !in keys) <==> exists ph :: ph in phs && ph.key !in keys
  {
    var found := FoundEach(phs);
    forall ph | ph in phs
      ensures Found(ph.key, RawDefault(ph)) in found
    {
      var i :| 0 <= i < |phs| && phs[i] == ph;
      assert found[i] == Found(ph.key, RawDefault(ph));
    }
    forall f | f in found
      ensures exists ph :: ph in phs && ph.key == f.key
    {
      var i :| 0 <= i < |found| && found[i] == f;
      assert phs[i] in phs;
    }
  }

  lemma WriteShows(st: Store, ls: Leaves, k: string, v: Value, n: Node)
    requires ShowsStore(st, ls) && Shows(v, n) && !v.Malformed?
    ensures ShowsStore(SetLeaf(st, k, v), PutLeaf(ls, k, n))
  {
  }

  /***************************** The run *****************************/

  lemma ScannedAs(style: Style, ts: seq<Token>)
    requires Sound(style, ts)
    ensures Scan(Render(ts), 0, None) == Parsed(FoundEach(Placeholders(ts)), Placeholders(ts) != [] && |ts| > 1)
  {
    TameIsWritten(style.dollars, ts);
    WrittenIsValid(ts);
    ScannerSeesTokens(ts);
  }

  lemma FinishFollows(r: Run, style: Style, t: TextRun, key: string, ts: seq<Token>, p: Progress, tp: TextProgress)
    requires Alike(r, style, t) && Sound(style, ts) && Placeholders(ts) != [] && TokensIn(ts, r.universe)
    requires Within(p.st, r.universe) && ShowsProgress(p, tp) && (tp.TextDone? ==> Searchable(tp.es))
    requires p.Done? ==> forall e | e in p.es :: RefsIn(e.value, r.universe) && GoodEntry(style, e)
    requires p.Stop? ==> !p.why.Ok?
    ensures ShowsOutcome(Finish(r, key, ts, p),
                         FinishText(t, key, Render(ts), Placeholders(ts)[0].key, |ts| > 1, tp))
  {
    if p.Done? {
      AssembleShows(r, style, t, ts, p.es, tp.es);
      AssembleIsGood(r, style, ts, p.es);
      WriteShows(p.st, tp.st, r.norm(key), Assemble(r, ts, p.es),
                 AssembleText(t, Render(ts), Placeholders(ts)[0].key, |ts| > 1, tp.es));
    }
  }

  /** Resolving a leaf on text shows what resolving it on tokens does. */
  lemma {:induction false} TextFollows(r: Run, style: Style, t: TextRun, st: Store, ls: Leaves, key: string,
                                       visited: seq<string>)
    requires Alike(r, style, t) && Within(st, r.universe) && GoodStore(style, st) && ShowsStore(st, ls)
    ensures ShowsOutcome(ResolveValue(r, st, key, visited), ResolveText(t, ls, key, visited))
    decreases |r.universe - SetOf(visited) - {key}|, 2, 0
  {
    var val := Lookup(st, r.norm(key));
    assert Shows(val, TextAt(ls, r.norm(key)));
    if val.Str? {
      ScannedAs(style, val.ts);
      if Placeholders(val.ts) != [] {
        StringFollows(r, style, t, st, ls, key, visited, val.ts);
      }
    }
  }

  lemma {:induction false} StringFollows(r: Run, style: Style, t: TextRun, st: Store, ls: Leaves, key: string,
                                         visited: seq<string>, ts: seq<Token>)
    requires Alike(r, style, t) && Within(st, r.universe) && GoodStore(style, st) && ShowsStore(st, ls)
    requires Lookup(st, r.norm(key)) == Str(ts) && Placeholders(ts) != [] && Sound(style, ts)
    requires Scan(Render(ts), 0, None) == Parsed(FoundEach(Placeholders(ts)), |ts| > 1)
    ensures ShowsOutcome(ResolveValue(r, st, key, visited), ResolveText(t, ls, key, visited))
    decreases |r.universe - SetOf(visited) - {key}|, 1, 0
  {
    var phs, path := Placeholders(ts), visited + [key];
    if exists ph :: ph in phs && ph.key in path {
      RepeatFollows(r, t, st, ls, key, visited, ts);
    } else {
      SameMeasure(r.universe, visited, key);
      AllKeepSound(r, style, st, phs, path, []);
      GatherFollows(r, style, t, st, ls, phs, path, [], []);
      ResolvedFollows(r, style, t, st, ls, key, visited, ts);
    }
  }

  lemma RepeatFollows(r: Run, t: TextRun, st: Store, ls: Leaves, key: string, visited: seq<string>, ts: seq<Token>)
    requires Shuffles(r) && Mixing(t) && r.norm == t.norm && Within(st, r.universe) && ShowsStore(st, ls)
    requires Lookup(st, r.norm(key)) == Str(ts)
    requires Scan(Render(ts), 0, None) == Parsed(FoundEach(Placeholders(ts)), |ts| > 1)
    requires exists ph :: ph in Placeholders(ts) && ph.key in visited + [key]
    ensures ShowsOutcome(ResolveValue(r, st, key, visited), ResolveText(t, ls, key, visited))
  {
    KeysFound(Placeholders(ts), t.universe, visited + [key]);
    assert Shows(Str(ts), TextAt(ls, t.norm(key)));
    TextRepeats(t, ls, key, visited, Render(ts), FoundEach(Placeholders(ts)), |ts| > 1);
    TokenRepeats(r, st, key, visited, ts);
  }

  lemma TokenRepeats(r: Run, st: Store, key: string, visited: seq<string>, ts: seq<Token>)
    requires Shuffles(r) && Within(st, r.universe) && Lookup(st, r.norm(key)) == Str(ts)
    requires exists ph :: ph in Placeholders(ts) && ph.key in visited + [key]
    ensures ResolveValue(r, st, key, visited) == Outcome(st, Circular)
  {
  }

  lemma ResolvedFollows(r: Run, style: Style, t: TextRun, st: Store, ls: Leaves, key: string, visited: seq<string>,
                        ts: seq<Token>)
    requires Alike(r, style, t) && Within(st, r.universe) && ShowsStore(st, ls)
    requires Lookup(st, r.norm(key)) == Str(ts) && Placeholders(ts) != [] && Sound(style, ts)
    requires Scan(Render(ts), 0, None) == Parsed(FoundEach(Placeholders(ts)), |ts| > 1)
    requires forall ph | ph in Placeholders(ts) :: ph.key !in visited + [key]
    requires FollowedApart(FoundEach(Placeholders(ts)), t.universe, visited + [key])
    requires var p := ResolveAll(r, st, Placeholders(ts), visited + [key], []);
             && ShowsProgress(p, GatherText(t, ls, FoundEach(Placeholders(ts)), visited + [key], []))
             && (p.Done? ==> forall e | e in p.es :: GoodEntry(style, e))
    ensures ShowsOutcome(ResolveValue(r, st, key, visited), ResolveText(t, ls, key, visited))
  {
    var phs, path := Placeholders(ts), visited + [key];
    var found := FoundEach(phs);
    ResolveUnfolds(r, st, key, visited);
    FoundFirst(style, phs);
    TextUnfolds(t, ls, key, visited, Render(ts), found, |ts| > 1);
    FinishFollows(r, style, t, key, ts, ResolveAll(r, st, phs, path, []), GatherText(t, ls, found, path, []));
  }

  lemma {:induction false} GatherFollows(r: Run, style: Style, t: TextRun, st: Store, ls: Leaves, phs: seq<Token>,
                                         path: seq<string>, es: seq<Entry>, tes: seq<TextEntry>)
    requires Alike(r, style, t) && Within(st, r.universe) && GoodStore(style, st) && ShowsStore(st, ls)
    requires RefsOk(style, phs) && ShowsEntries(es, tes) && Searchable(tes)
    requires forall ph | ph in phs :: ph.Ref? && ph.key in r.universe && ph.key !in path
    requires forall e | e in es :: RefsIn(e.value, r.universe)
    ensures FollowedApart(FoundEach(phs), t.universe, path)
    ensures ShowsProgress(ResolveAll(r, st, phs, path, es), GatherText(t, ls, FoundEach(phs), path, tes))
    decreases |r.universe - SetOf(path)|, 0, |phs|
  {
    KeysFound(phs, t.universe, path);
    if phs != [] {
      var ph, f := phs[0], FoundEach(phs)[0];
      FoundFirst(style, phs);
      FirstOne(r, st, phs, path, es);
      TextFollows(r, style, t, st, ls, ph.key, path);
      ResolveKeepsSound(r, style, st, ph.key, path);
      var o, to := ResolveValue(r, st, ph.key, path), ResolveText(t, ls, f.key, path);
      ChosenAlike(style, ph, f, o.res, to.res);
      var v := Chosen(ph, o.res);
      if v.Ok? {
        var n := TextChosen(t.parse, f, to.res);
        ExtendedShows(style, es, tes, ph, f, v.value, n.value);
        GatherFollows(r, style, t, o.st, to.st, phs[1..], path, Extended(es, ph, v.value),
                      TextExtended(t.parse, tes, f, n.value));
      }
    }
  }

  /** Whether a run went well, and what stopped it if it did not. */
  ghost predicate ShowsEnd(res: Result, t: TextResult) {
    if res.Ok? then t.TextOk? else ShowsResult(res, t)
  }

  /** Any series of visits on text shows the same series on tokens. */
  lemma {:induction false} VisitsFollow(r: Run, style: Style, t: TextRun, st: Store, ls: Leaves, order: seq<string>)
    requires Alike(r, style, t) && Within(st, r.universe) && GoodStore(style, st) && ShowsStore(st, ls)
    ensures var o, to := VisitAll(r, st, order), VisitTexts(t, ls, order);
            ShowsStore(o.st, to.st) && ShowsEnd(o.res, to.res)
    decreases |order|
  {
    if order != [] {
      TextFollows(r, style, t, st, ls, order[0], []);
      ResolveKeepsSound(r, style, st, order[0], []);
      var o := ResolveValue(r, st, order[0], []);
      if o.res.Ok? {
        VisitsFollow(r, style, t, o.st, ResolveText(t, ls, order[0], []).st, order[1..]);
      }
    }
  }
}
