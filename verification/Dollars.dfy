/** What happens when a literal dollar comes to stand before a literal bracket: the text is
    scanned again, shows a placeholder that nobody wrote, and the outcome depends on the
    order in which the leaves are visited.
 */
module Dollars {
  import opened Collections
  import opened Text
  import opened Placeholder
  import opened Resolver
  import opened StringLevel
  import opened TextResolver
  import Tree = ConfigTree

  function LeafText(s: string): Node {
    Tree.Leaf(Tree.Text(s))
  }

  function Mention(key: string): string {
    TokenText(Ref(key, None))
  }

  /***************************** Scanning *****************************/

  lemma PlainScan(s: string)
    requires Quiet(s)
    ensures Scan(s, 0, None) == Parsed([], false)
  {
    var ts := Chars(s);
    CharsKeepDollars(s);
    DollarsAreWritten(ts);
    WrittenIsValid(ts);
    NoPlaceholders(ts);
    ScannerSeesTokens(ts);
    RenderChars(s);
  }

  lemma ScanMention(key: string)
    requires ValidRef(Ref(key, None))
    ensures Scan(Mention(key), 0, None) == Parsed([Found(key, None)], false)
  {
    LoneScan(Ref(key, None));
  }

  lemma DollarTokens(key: string)
    requires ValidRef(Ref(key, None))
    ensures var ts := [Ch('$'), Ref(key, None)];
            && ValidTokens(ts) && Written(ts) && Render(ts) == "$" + Mention(key)
            && References(ts) == [Found(key, None)]
  {
    var ts, ref := [Ch('$'), Ref(key, None)], [Ref(key, None)];
    OneRef(Ref(key, None));
    MentionIsText(key);
    assert ts[1..] == ref && ref[1..] == [];
    assert ValidTokens(ref) && Written(ref);
    assert References(ts) == References(ref) by {
      EmptyLeft(References(ref));
    }
  }

  lemma ScanDollar(key: string)
    requires ValidRef(Ref(key, None))
    ensures Scan("$" + Mention(key), 0, None) == Parsed([Found(key, None)], true)
  {
    DollarTokens(key);
    ParseUndoesRender([Ch('$'), Ref(key, None)]);
  }

  lemma MentionIsText(key: string)
    requires ValidRef(Ref(key, None))
    ensures PlaceholderText(Mention(key))
  {
    assert Mention(key) == "${" + Body(key, None) + "}";
  }

  lemma DollarPlus(b: string)
    ensures TokenText(Ch('$')) + ("{" + b + "}") == Mention(b)
  {
  }

  /** Putting `{b}` behind the dollar makes the text of a placeholder for `b`. */
  lemma DollarReplaced(a: string, b: string)
    requires ValidRef(Ref(a, None))
    ensures ReplaceAll("$" + Mention(a), Mention(a), "{" + b + "}") == Mention(b)
  {
    var with := Chars("{" + b + "}");
    DollarTokens(a);
    MentionIsText(a);
    ReplaceIsTokenwise([Ch('$'), Ref(a, None)], Mention(a), with);
    BehindDollar(a, with);
    RenderCons(Ch('$'), with);
    RenderChars("{" + b + "}");
    DollarPlus(b);
  }

  lemma BehindDollar(a: string, with: seq<Token>)
    ensures ReplaceTokens([Ch('$'), Ref(a, None)], Mention(a), with) == [Ch('$')] + with
  {
    var ref := [Ref(a, None)];
    assert [Ch('$'), Ref(a, None)][1..] == ref;
    assert ReplaceTokens(ref, Mention(a), with) == with by {
      assert ReplaceTokens(ref[1..], Mention(a), with) == [];
      EmptyRight(with);
    }
  }

  /***************************** Steps *****************************/

  /** A leaf that is one placeholder takes over what its key resolves to. */
  lemma LoneText(t: TextRun, st: Leaves, key: string, visited: seq<string>, k: string)
    requires Mixing(t) && t.norm(key) == key && TextAt(st, key) == LeafText(Mention(k)) && ValidRef(Ref(k, None))
    requires k in t.universe && k !in visited + [key]
    requires ResolveText(t, st, k, visited + [key]).res.TextOk?
    ensures var o := ResolveText(t, st, k, visited + [key]);
            ResolveText(t, st, key, visited) == TextOutcome(PutLeaf(o.st, key, o.res.value), o.res)
  {
    var f, path := Found(k, None), visited + [key];
    ScanMention(k);
    TextUnfolds(t, st, key, visited, Mention(k), [f], false);
    assert [f][1..] == [];
    var o := ResolveText(t, st, k, path);
    assert GatherText(t, st, [f], path, []) == TextDone(o.st, TextExtended(t.parse, [], f, o.res.value));
  }

  /** A dollar before the placeholder of a key with the text `{b}`. */
  lemma DollarText(t: TextRun, st: Leaves, key: string, visited: seq<string>, a: string, b: string)
    requires Mixing(t) && t.norm(key) == key && key in st && st[key] == LeafText("$" + Mention(a))
    requires ValidRef(Ref(a, None)) && a in t.universe && a !in visited + [key]
    requires ResolveText(t, st, a, visited + [key]) == TextOutcome(st, TextOk(LeafText("{" + b + "}")))
    ensures ResolveText(t, st, key, visited) ==
            TextOutcome(st[key := LeafText(Mention(b))], TextOk(LeafText(Mention(b))))
  {
    var f, path, text := Found(a, None), visited + [key], "$" + Mention(a);
    var te := TextEntry(a, Mention(a), LeafText("{" + b + "}"));
    ScanDollar(a);
    TextUnfolds(t, st, key, visited, text, [f], true);
    assert [f][1..] == [];
    assert GatherText(t, st, [f], path, []) == TextDone(st, [te]);
    OneMixed(t, te);
    DollarReplaced(a, b);
    assert [te][1..] == [];
    assert ReplaceEach(text, [te]) == ReplaceEach(Mention(b), []) == Mention(b);
  }

  /***************************** Two runs *****************************/

  ghost predicate Usable(t: TextRun, key: string) {
    ValidRef(Ref(key, None)) && t.norm(key) == key && key in t.universe
  }

  /** `x` is "$${a}", `a` is "{b}", `b` is `v`, and `y` is "${x}". */
  ghost predicate Scene(t: TextRun, st: Leaves, a: string, b: string, x: string, y: string, v: string) {
    && Mixing(t) && Usable(t, a) && Usable(t, b) && Usable(t, x) && Usable(t, y) && Quiet(v)
    && a != b && a != x && a != y && b != x && b != y && x != y && st.Keys == {a, b, x, y}
    && st[a] == LeafText("{" + b + "}") && st[b] == LeafText(v)
  }

  lemma PlainLeaves(t: TextRun, st: Leaves, a: string, b: string, x: string, y: string, v: string, visited: seq<string>)
    requires Scene(t, st, a, b, x, y, v)
    ensures ResolveText(t, st, a, visited) == TextOutcome(st, TextOk(st[a]))
    ensures ResolveText(t, st, b, visited) == TextOutcome(st, TextOk(st[b]))
  {
    BodyIsQuiet(Body(b, None));
    PlainScan("{" + b + "}");
    PlainScan(v);
    TextPlain(t, st, a, visited);
    TextPlain(t, st, b, visited);
  }

  /** The last two visits change nothing. */
  lemma RestIsPlain(t: TextRun, st: Leaves, a: string, b: string, x: string, y: string, v: string)
    requires Scene(t, st, a, b, x, y, v)
    ensures VisitTexts(t, st, [a, b]) == TextOutcome(st, TextOk(Tree.Null))
  {
    PlainLeaves(t, st, a, b, x, y, v, []);
    assert [a, b][1..] == [b] && [b][1..] == [];
    assert VisitTexts(t, st, [b]) == VisitTexts(t, st, []);
  }

  /** Resolving `x` once it reads "${b}". */
  lemma SecondReading(t: TextRun, st: Leaves, a: string, b: string, x: string, y: string, v: string,
                      visited: seq<string>)
    requires Scene(t, st, a, b, x, y, v) && st[x] == LeafText(Mention(b)) && b !in visited + [x]
    ensures ResolveText(t, st, x, visited) == TextOutcome(st[x := LeafText(v)], TextOk(LeafText(v)))
  {
    PlainLeaves(t, st, a, b, x, y, v, visited + [x]);
    LoneText(t, st, x, visited, b);
  }

  /** Resolving `x` as it was written. */
  lemma FirstReading(t: TextRun, st: Leaves, a: string, b: string, x: string, y: string, v: string,
                     visited: seq<string>)
    requires Scene(t, st, a, b, x, y, v) && st[x] == LeafText("$" + Mention(a)) && a !in visited + [x]
    ensures ResolveText(t, st, x, visited) == TextOutcome(st[x := LeafText(Mention(b))], TextOk(LeafText(Mention(b))))
  {
    PlainLeaves(t, st, a, b, x, y, v, visited + [x]);
    DollarText(t, st, x, visited, a, b);
  }

  lemma TargetFirst(t: TextRun, st: Leaves, a: string, b: string, x: string, y: string, v: string)
    requires Scene(t, st, a, b, x, y, v) && st[x] == LeafText("$" + Mention(a)) && st[y] == LeafText(Mention(x))
    ensures VisitTexts(t, st, [x, y] + [a, b]) == TextOutcome(st[x := LeafText(v)][y := LeafText(v)], TextOk(Tree.Null))
  {
    var order := [x, y] + [a, b];
    FirstReading(t, st, a, b, x, y, v, []);
    var st1 := st[x := LeafText(Mention(b))];
    assert [] + [y] == [y];
    SecondReading(t, st1, a, b, x, y, v, [y]);
    LoneText(t, st1, y, [], x);
    var st2 := st1[x := LeafText(v)][y := LeafText(v)];
    assert st2 == st[x := LeafText(v)][y := LeafText(v)];
    RestIsPlain(t, st2, a, b, x, y, v);
    assert order[0] == x && order[1..][0] == y && order[1..][1..] == [a, b];
  }

  lemma ReferrerFirst(t: TextRun, st: Leaves, a: string, b: string, x: string, y: string, v: string)
    requires Scene(t, st, a, b, x, y, v) && st[x] == LeafText("$" + Mention(a)) && st[y] == LeafText(Mention(x))
    ensures VisitTexts(t, st, [y, x] + [a, b]) ==
            TextOutcome(st[x := LeafText(v)][y := LeafText(Mention(b))], TextOk(Tree.Null))
  {
    var order := [y, x] + [a, b];
    assert [] + [y] == [y];
    FirstReading(t, st, a, b, x, y, v, [y]);
    LoneText(t, st, y, [], x);
    var st1 := st[x := LeafText(Mention(b))][y := LeafText(Mention(b))];
    SecondReading(t, st1, a, b, x, y, v, []);
    var st2 := st1[x := LeafText(v)];
    assert st2 == st[x := LeafText(v)][y := LeafText(Mention(b))];
    RestIsPlain(t, st2, a, b, x, y, v);
    assert order[0] == y && order[1..][0] == x && order[1..][1..] == [a, b];
  }

  lemma AllFour(x: string, y: string, a: string, b: string)
    requires a != b && a != x && a != y && b != x && b != y && x != y
    ensures Distinct([x, y] + [a, b]) && SetOf([x, y] + [a, b]) == {a, b, x, y}
  {
    assert [x, y] + [a, b] == [x, y, a, b];
  }

  lemma DifferentText(b: string, v: string)
    requires Quiet(v)
    ensures v != Mention(b)
  {
    assert Mention(b)[0] == '$' && Mention(b)[1] == '{';
  }

  /** Two runs over all leaves that succeed and end with different texts in `y`: the value of
      a key that no leaf mentions, or the text of a placeholder that nobody wrote. */
  lemma DollarMeetsBracket(t: TextRun, st: Leaves, a: string, b: string, x: string, y: string, v: string)
    requires Scene(t, st, a, b, x, y, v) && st[x] == LeafText("$" + Mention(a)) && st[y] == LeafText(Mention(x))
    ensures var all, all' := [x, y] + [a, b], [y, x] + [a, b];
            Distinct(all) && Distinct(all') && SetOf(all) == SetOf(all') == st.Keys
    ensures var o, o' := VisitTexts(t, st, [x, y] + [a, b]), VisitTexts(t, st, [y, x] + [a, b]);
            && o.res.TextOk? && o'.res.TextOk?
            && o.st[y] == LeafText(v) && o'.st[y] == LeafText(Mention(b)) && o.st[y] != o'.st[y]
  {
    AllFour(x, y, a, b);
    AllFour(y, x, a, b);
    assert {a, b, x, y} == {a, b, y, x};
    TargetFirst(t, st, a, b, x, y, v);
    ReferrerFirst(t, st, a, b, x, y, v);
    DifferentText(b, v);
  }
}
