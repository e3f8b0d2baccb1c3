/** The resolver on what the program holds at its leaves: text, scanned each time it is read
    and rewritten by replacing text. It does what the resolver on tokens does as long as
    dollars and brackets are kept apart, and otherwise may find placeholders that nobody
    wrote.
 */
module TextResolver {
  import opened Collections
  import opened Text
  import opened Placeholder
  import opened Resolver
  import Tree = ConfigTree

  type Node = Tree.Node

  /** The leaves of a tree by flat key. */
  type Leaves = map<string, Node>

  datatype TextEntry = TextEntry(key: string, search: string, value: Node)

  /** `TextUnknown` stands for a placeholder whose key is outside the set of keys followed. */
  datatype TextResult = TextOk(value: Node) | TextCircular | TextBadSyntax | TextUnknown

  datatype TextOutcome = TextOutcome(st: Leaves, res: TextResult)
  datatype TextProgress = TextDone(st: Leaves, es: seq<TextEntry>) | TextStop(st: Leaves, why: TextResult)

  /** How defaults are parsed and keys normalised, the keys that are followed, and the order
      in which a map with the given keys is iterated. */
  datatype TextRun = TextRun(
    parse: string -> Default,
    norm: Norm,
    universe: set<string>,
    mix: seq<string> -> seq<nat>)

  predicate Arranged<T>(s: seq<T>, order: seq<nat>) {
    |order| == |s| && Distinct(order) && forall i | 0 <= i < |order| :: order[i] < |s|
  }

  function Arrange<T>(s: seq<T>, order: seq<nat>): (r: seq<T>)
    requires Arranged(s, order)
    ensures |r| == |s| && forall i | 0 <= i < |s| :: r[i] == s[order[i]]
  {
    seq(|order|, i requires 0 <= i < |order| => s[order[i]])
  }

  ghost predicate Mixing(t: TextRun) {
    forall keys :: Arranged(keys, t.mix(keys))
  }

  function TextAt(st: Leaves, k: string): Node {
    if k in st then st[k] else Tree.Null
  }

  function PutLeaf(st: Leaves, k: string, v: Node): Leaves {
    if v == Tree.Null || k !in st then st else st[k := v]
  }

  predicate IsText(n: Node) {
    n.Leaf? && n.value.Text?
  }

  /** The text a placeholder is searched by. */
  function TextSearch(parse: string -> Default, f: Found): (s: string)
    ensures s != ""
  {
    "${" + Body(f.key, if f.def.None? then None else Some(parse(f.def.value).Printed())) + "}"
  }

  function DefaultNode(d: Default): (n: Node)
    ensures n.Leaf?
  {
    match d
    case Plain(raw) => Tree.Leaf(Tree.Text(raw))
    case Typed(_, kind, printed) => Tree.Leaf(Tree.Other(kind, printed))
  }

  /** What is chosen for a placeholder. */
  function TextChosen(parse: string -> Default, f: Found, res: TextResult): TextResult {
    if res.TextUnknown? || (res.TextOk? && res.value != Tree.Null) then res
    else if f.def.Some? then TextOk(DefaultNode(parse(f.def.value)))
    else res
  }

  predicate Searchable(tes: seq<TextEntry>) {
    forall te | te in tes :: te.search != ""
  }

  function PutText(tes: seq<TextEntry>, te: TextEntry): (r: seq<TextEntry>)
    ensures forall x | x in r :: x in tes || x == te
  {
    if tes == [] then [te]
    else if tes[0].key == te.key then [te] + tes[1..]
    else [tes[0]] + PutText(tes[1..], te)
  }

  function TextExtended(parse: string -> Default, tes: seq<TextEntry>, f: Found, v: Node): (r: seq<TextEntry>)
    ensures Searchable(tes) ==> Searchable(r)
  {
    if v == Tree.Null then tes else PutText(tes, TextEntry(f.key, TextSearch(parse, f), v))
  }

  function TextFor(tes: seq<TextEntry>, key: string): Node {
    if tes == [] then Tree.Null
    else if tes[0].key == key then tes[0].value
    else TextFor(tes[1..], key)
  }

  /** How a leaf prints inside a longer string. */
  function SprintNode(n: Node): string {
    if n.Leaf? then n.value.text else ""
  }

  function ReplaceEach(s: string, tes: seq<TextEntry>): string
    requires Searchable(tes)
    decreases |tes|
  {
    if tes == [] then s
    else assert tes[0] in tes; ReplaceEach(ReplaceAll(s, tes[0].search, SprintNode(tes[0].value)), tes[1..])
  }

  function TextKeys(tes: seq<TextEntry>): (keys: seq<string>)
    ensures |keys| == |tes|
  {
    seq(|tes|, i requires 0 <= i < |tes| => tes[i].key)
  }

  function Mixed(t: TextRun, tes: seq<TextEntry>): (r: seq<TextEntry>)
    requires Mixing(t)
    ensures Searchable(tes) ==> Searchable(r)
  {
    assert Arranged(TextKeys(tes), t.mix(TextKeys(tes)));
    Arrange(tes, t.mix(TextKeys(tes)))
  }

  lemma OneMixed(t: TextRun, te: TextEntry)
    requires Mixing(t)
    ensures Mixed(t, [te]) == [te]
  {
    assert Arranged(TextKeys([te]), t.mix(TextKeys([te])));
  }

  /** The value of a string once its placeholders have theirs. */
  function AssembleText(t: TextRun, text: string, lone: string, embedded: bool, tes: seq<TextEntry>): Node
    requires Mixing(t) && Searchable(tes)
  {
    if embedded then Tree.Leaf(Tree.Text(ReplaceEach(text, Mixed(t, tes)))) else TextFor(tes, lone)
  }

  predicate FollowedApart(found: seq<Found>, universe: set<string>, path: seq<string>) {
    forall f | f in found :: f.key in universe && f.key !in path
  }

  /** Resolving the text found under `key`, with write-back. */
  function ResolveText(t: TextRun, st: Leaves, key: string, visited: seq<string>): (o: TextOutcome)
    requires Mixing(t)
    ensures o.st.Keys == st.Keys
    decreases |t.universe - SetOf(visited) - {key}|, 1, 0
  {
    var val := TextAt(st, t.norm(key));
    if !IsText(val) then TextOutcome(st, TextOk(val))
    else
      match Scan(val.value.text, 0, None)
      case Nested => TextOutcome(st, TextBadSyntax)
      case Parsed(found, embedded) =>
        var path := visited + [key];
        if found == [] then TextOutcome(st, TextOk(val))
        else if exists f :: f in found && f.key in path then TextOutcome(st, TextCircular)
        else if exists f :: f in found && f.key !in t.universe then TextOutcome(st, TextUnknown)
        else
          SameMeasure(t.universe, visited, key);
          FinishText(t, key, val.value.text, found[0].key, embedded, GatherText(t, st, found, path, []))
  }

  /** Resolving what the scanner found, one placeholder after the other. */
  function GatherText(t: TextRun, st: Leaves, found: seq<Found>, path: seq<string>,
                      acc: seq<TextEntry>): (p: TextProgress)
    requires Mixing(t) && Searchable(acc) && FollowedApart(found, t.universe, path)
    ensures p.st.Keys == st.Keys && (p.TextDone? ==> Searchable(p.es)) && (p.TextStop? ==> !p.why.TextOk?)
    decreases |t.universe - SetOf(path)|, 0, |found|
  {
    if found == [] then TextDone(st, acc)
    else
      var f := found[0];
      assert t.universe - SetOf(path) - {f.key} < t.universe - SetOf(path);
      SmallerSet(t.universe - SetOf(path) - {f.key}, t.universe - SetOf(path));
      var o := ResolveText(t, st, f.key, path);
      var chosen := TextChosen(t.parse, f, o.res);
      if chosen.TextOk? then GatherText(t, o.st, found[1..], path, TextExtended(t.parse, acc, f, chosen.value))
      else TextStop(o.st, chosen)
  }

  /** Writing the assembled value back. */
  function FinishText(t: TextRun, key: string, text: string, lone: string, embedded: bool,
                      p: TextProgress): (o: TextOutcome)
    requires Mixing(t) && (p.TextDone? ==> Searchable(p.es))
    ensures o.st.Keys == p.st.Keys
  {
    match p
    case TextStop(st, why) => TextOutcome(st, why)
    case TextDone(st, es) =>
      var v := AssembleText(t, text, lone, embedded, es);
      TextOutcome(PutLeaf(st, t.norm(key), v), TextOk(v))
  }

  /** Resolving one more of what the scanner found. */
  lemma TextOneMore(t: TextRun, st: Leaves, found: seq<Found>, n: nat, path: seq<string>, tes: seq<TextEntry>)
    requires Mixing(t) && Searchable(tes) && n < |found| && FollowedApart(found, t.universe, path)
    ensures |t.universe - SetOf(path) - {found[n].key}| < |t.universe - SetOf(path)|
    ensures FollowedApart(found[n..], t.universe, path) && FollowedApart(found[n + 1..], t.universe, path)
    ensures var o := ResolveText(t, st, found[n].key, path);
            var chosen := TextChosen(t.parse, found[n], o.res);
            GatherText(t, st, found[n..], path, tes) ==
            if chosen.TextOk?
            then GatherText(t, o.st, found[n + 1..], path, TextExtended(t.parse, tes, found[n], chosen.value))
            else TextStop(o.st, chosen)
  {
    var f := found[n];
    assert f in found && found[n..][0] == f && found[n..][1..] == found[n + 1..];
    assert forall x | x in found[n..] :: x in found;
    assert forall x | x in found[n + 1..] :: x in found;
    assert t.universe - SetOf(path) - {f.key} < t.universe - SetOf(path);
    SmallerSet(t.universe - SetOf(path) - {f.key}, t.universe - SetOf(path));
  }

  lemma TextUnfolds(t: TextRun, st: Leaves, key: string, visited: seq<string>, text: string, found: seq<Found>,
                    embedded: bool)
    requires Mixing(t) && TextAt(st, t.norm(key)) == Tree.Leaf(Tree.Text(text)) && found != []
    requires Scan(text, 0, None) == Parsed(found, embedded) && FollowedApart(found, t.universe, visited + [key])
    ensures ResolveText(t, st, key, visited) ==
            FinishText(t, key, text, found[0].key, embedded, GatherText(t, st, found, visited + [key], []))
  {
  }

  lemma TextRepeats(t: TextRun, st: Leaves, key: string, visited: seq<string>, text: string, found: seq<Found>,
                    embedded: bool)
    requires Mixing(t) && TextAt(st, t.norm(key)) == Tree.Leaf(Tree.Text(text))
    requires Scan(text, 0, None) == Parsed(found, embedded) && exists f :: f in found && f.key in visited + [key]
    ensures ResolveText(t, st, key, visited) == TextOutcome(st, TextCircular)
  {
  }

  lemma TextPlain(t: TextRun, st: Leaves, key: string, visited: seq<string>)
    requires Mixing(t)
    requires var n := TextAt(st, t.norm(key)); IsText(n) ==> Scan(n.value.text, 0, None) == Parsed([], false)
    ensures ResolveText(t, st, key, visited) == TextOutcome(st, TextOk(TextAt(st, t.norm(key))))
  {
  }

  /** Visiting leaves one after the other, stopping at the first error. */
  function VisitTexts(t: TextRun, st: Leaves, order: seq<string>): (o: TextOutcome)
    requires Mixing(t)
    ensures o.st.Keys == st.Keys
    decreases |order|
  {
    if order == [] then TextOutcome(st, TextOk(Tree.Null))
    else
      var o := ResolveText(t, st, order[0], []);
      if o.res.TextOk? then VisitTexts(t, o.st, order[1..]) else o
  }
}
