/** The resolver as the program runs it: on a nested tree, reading and writing by flat key,
    and scanning and replacing the text at its leaves. It does to the leaves what the
    resolver on text does.
 */
module TreeResolver {
  import opened Collections
  import opened Text
  import opened KeyFormat
  import opened Placeholder
  import opened Resolver
  import opened StringLevel
  import opened Substitution
  import opened Resolution
  import opened TextResolver
  import opened TextRefinement
  import Tree = ConfigTree

  /** A key leads to a leaf, or nowhere; never to an inner node. */
  ghost predicate LeadsToLeaf(norm: Norm, tree: Node, key: string)
    requires tree.Obj? && Tree.GoodTree(tree)
  {
    norm(key) in Tree.Flat(tree) || Tree.Nowhere(Tree.GetAt(tree, Tree.Parts(key)))
  }

  ghost predicate Normalises(norm: Norm) {
    forall k {:trigger NormalizeKey(k)} :: norm(k) == NormalizeKey(k)
  }

  /** Every leaf is nil or a scalar. */
  ghost predicate Scalars(st: Leaves) {
    forall k | k in st :: st[k] == Tree.Null || st[k].Leaf?
  }

  /** A tree with the leaves `st`, in which every key that is followed leads to a leaf. */
  ghost predicate Ready(t: TextRun, tree: Node, st: Leaves) {
    && Mixing(t) && Normalises(t.norm)
    && tree.Obj? && Tree.GoodTree(tree) && Tree.Flat(tree) == st
    && forall key | key in t.universe :: LeadsToLeaf(t.norm, tree, key)
  }

  /***************************** Reading and writing *****************************/

  /** Reading a key reads the leaf. */
  lemma ReadsLeaf(norm: Norm, tree: Node, key: string)
    requires Normalises(norm) && tree.Obj? && Tree.GoodTree(tree) && LeadsToLeaf(norm, tree, key)
    ensures Tree.Value(tree, key) == Some(TextAt(Tree.Flat(tree), norm(key)))
  {
    if norm(key) in Tree.Flat(tree) {
      ReadsThere(norm, tree, key);
    } else {
      ReadsNothing(tree, key);
    }
  }

  lemma ReadsThere(norm: Norm, tree: Node, key: string)
    requires Normalises(norm) && tree.Obj? && Tree.GoodTree(tree) && norm(key) in Tree.Flat(tree)
    ensures Tree.Value(tree, key) == Some(Tree.Flat(tree)[norm(key)])
  {
    SameParts(norm, key);
    FlatReads(tree, norm(key));
  }

  lemma ReadsNothing(tree: Node, key: string)
    requires Tree.Nowhere(Tree.GetAt(tree, Tree.Parts(key)))
    ensures Tree.Value(tree, key) == Some(Tree.Null)
  {
  }

  lemma SameParts(norm: Norm, key: string)
    requires Normalises(norm)
    ensures Tree.Parts(norm(key)) == Tree.Parts(key)
  {
    NormalizeIdempotent(key);
    assert norm(key) == NormalizeKey(key);
  }

  lemma FlatReads(tree: Node, k: string)
    requires tree.Obj? && Tree.GoodTree(tree) && k in Tree.Flat(tree)
    ensures Tree.Value(tree, k) == Some(Tree.Flat(tree)[k])
  {
    var p := (k, Tree.Flat(tree)[k]);
    assert p in Tree.VisitEach("", tree);
    Tree.WalkedLeavesReadBack(tree, p);
  }

  lemma PathTo(tree: Node, k: string) returns (segs: seq<Tree.Seg>)
    requires tree.Obj? && Tree.GoodTree(tree) && k in Tree.Flat(tree)
    ensures Tree.Spells(Tree.Parts(k), segs) && Tree.LeafAt(tree, segs, Tree.Flat(tree)[k])
  {
    var p := (k, Tree.Flat(tree)[k]);
    assert p in Tree.VisitEach("", tree);
    segs := Tree.WalkFollowsPaths("", tree, p);
    Tree.PartsOfFlatKey(segs);
  }

  /** Writing nil leaves the tree as it is. */
  lemma WritesNothing(norm: Norm, tree: Node, key: string)
    requires Normalises(norm) && tree.Obj? && Tree.GoodTree(tree) && norm(key) in Tree.Flat(tree)
    ensures Tree.SetValue(tree, key, Tree.Null, false) == Tree.Put(tree, true)
  {
    var k := norm(key);
    SameParts(norm, key);
    var segs := PathTo(tree, k);
    Tree.SetIsGraft(tree, Tree.Parts(k), segs, Tree.Flat(tree)[k], Tree.Null, false);
    Tree.GraftSame(tree, segs, Tree.Flat(tree)[k]);
  }

  /** Writing a scalar over a scalar updates that leaf. */
  lemma WritesScalar(norm: Norm, tree: Node, key: string, node: Node)
    requires Normalises(norm) && tree.Obj? && Tree.GoodTree(tree) && norm(key) in Tree.Flat(tree) && node.Leaf?
    ensures var p := Tree.SetValue(tree, key, node, false);
            && p.Put? && p.ok && p.node.Obj? && Tree.GoodTree(p.node)
            && Tree.Flat(p.node) == Tree.Flat(tree)[norm(key) := node]
  {
    SameParts(norm, key);
    Tree.ScalarUpdatesFlatMap(tree, norm(key), node, false);
  }

  /** Keys that led nowhere still do. */
  lemma StillNowhere(norm: Norm, tree: Node, key: string, node: Node, other: string)
    requires Normalises(norm) && tree.Obj? && Tree.GoodTree(tree) && norm(key) in Tree.Flat(tree)
    requires Tree.Flat(tree)[norm(key)].Leaf? && node.Leaf? && Tree.Nowhere(Tree.GetAt(tree, Tree.Parts(other)))
    ensures var p := Tree.SetValue(tree, key, node, false);
            p.Put? && Tree.Nowhere(Tree.GetAt(p.node, Tree.Parts(other)))
  {
    var k := norm(key);
    SameParts(norm, key);
    var segs := PathTo(tree, k);
    var was := Tree.Flat(tree)[k];
    Tree.SetIsGraft(tree, Tree.Parts(k), segs, was, node, false);
    Tree.NowhereStays(tree, segs, was, node, Tree.Parts(other));
  }

  /** Writing a key updates the leaf, and keys lead where they led. */
  lemma WritesLeaf(norm: Norm, tree: Node, key: string, node: Node)
    requires Normalises(norm) && tree.Obj? && Tree.GoodTree(tree) && norm(key) in Tree.Flat(tree)
    requires Tree.Flat(tree)[norm(key)].Leaf? && (node == Tree.Null || node.Leaf?)
    ensures var p := Tree.SetValue(tree, key, node, false);
            && p.Put? && p.ok && p.node.Obj? && Tree.GoodTree(p.node)
            && Tree.Flat(p.node) == PutLeaf(Tree.Flat(tree), norm(key), node)
            && forall other | LeadsToLeaf(norm, tree, other) :: LeadsToLeaf(norm, p.node, other)
  {
    if node == Tree.Null {
      WritesNothing(norm, tree, key);
    } else {
      WritesScalar(norm, tree, key, node);
      forall other | LeadsToLeaf(norm, tree, other)
        ensures LeadsToLeaf(norm, Tree.SetValue(tree, key, node, false).node, other)
      {
        if norm(other) !in Tree.Flat(tree) {
          StillNowhere(norm, tree, key, node, other);
        }
      }
    }
  }

  lemma ReadyScalars(t: TextRun, tree: Node, st: Leaves)
    requires Ready(t, tree, st)
    ensures Scalars(st)
  {
    forall k | k in st
      ensures st[k] == Tree.Null || st[k].Leaf?
    {
      LeavesAreScalars(tree, k);
    }
  }

  lemma LeavesAreScalars(tree: Node, k: string)
    requires tree.Obj? && Tree.GoodTree(tree) && k in Tree.Flat(tree)
    ensures Tree.Flat(tree)[k] == Tree.Null || Tree.Flat(tree)[k].Leaf?
  {
    var segs := PathTo(tree, k);
    EndIsLeaf(tree, segs, Tree.Flat(tree)[k]);
  }

  lemma {:induction false} EndIsLeaf(tree: Node, segs: seq<Tree.Seg>, v: Node)
    requires Tree.LeafAt(tree, segs, v)
    ensures v == Tree.Null || v.Leaf?
    decreases |segs|
  {
    if |segs| > 1 {
      var x := tree.fields[segs[0].name];
      EndIsLeaf(if segs[0].index < 0 then x else x.items[segs[0].index], segs[1..], v);
    }
  }

  lemma WriteKeepsReady(t: TextRun, tree: Node, st: Leaves, key: string, node: Node)
    requires Ready(t, tree, st) && t.norm(key) in st && st[t.norm(key)].Leaf? && (node == Tree.Null || node.Leaf?)
    ensures var p := Tree.SetValue(tree, key, node, false);
            p.Put? && p.ok && Ready(t, p.node, PutLeaf(st, t.norm(key), node))
  {
    WritesLeaf(t.norm, tree, key, node);
  }

  /***************************** Leaves stay leaves *****************************/

  ghost predicate KeepsScalars(st: Leaves, st': Leaves) {
    Scalars(st') && st'.Keys == st.Keys && forall k | k in st && st[k].Leaf? :: st'[k].Leaf?
  }

  ghost predicate IsScalar(n: Node) {
    n == Tree.Null || n.Leaf?
  }

  ghost predicate ScalarEntries(tes: seq<TextEntry>) {
    forall te | te in tes :: IsScalar(te.value)
  }

  lemma {:induction false} TextForIsScalar(tes: seq<TextEntry>, key: string)
    requires ScalarEntries(tes)
    ensures IsScalar(TextFor(tes, key))
  {
    if tes != [] {
      assert tes[0] in tes;
      TextForIsScalar(tes[1..], key);
    }
  }

  lemma AssembledIsScalar(t: TextRun, text: string, lone: string, embedded: bool, tes: seq<TextEntry>)
    requires Mixing(t) && Searchable(tes) && ScalarEntries(tes)
    ensures IsScalar(AssembleText(t, text, lone, embedded, tes))
  {
    TextForIsScalar(tes, lone);
  }

  lemma {:induction false} ResolveKeepsScalars(t: TextRun, st: Leaves, key: string, visited: seq<string>)
    requires Mixing(t) && Scalars(st)
    ensures var o := ResolveText(t, st, key, visited);
            KeepsScalars(st, o.st) && (o.res.TextOk? ==> IsScalar(o.res.value))
    decreases |t.universe - SetOf(visited) - {key}|, 1, 0
  {
    var val := TextAt(st, t.norm(key));
    if IsText(val) && Scan(val.value.text, 0, None).Parsed? {
      var found, path := Scan(val.value.text, 0, None).found, visited + [key];
      if found != [] && FollowedApart(found, t.universe, path) {
        var embedded := Scan(val.value.text, 0, None).embedded;
        SameMeasure(t.universe, visited, key);
        GatherKeepsScalars(t, st, found, path, []);
        TextUnfolds(t, st, key, visited, val.value.text, found, embedded);
        var p := GatherText(t, st, found, path, []);
        if p.TextDone? {
          AssembledIsScalar(t, val.value.text, found[0].key, embedded, p.es);
        }
      }
    }
  }

  lemma {:induction false} GatherKeepsScalars(t: TextRun, st: Leaves, found: seq<Found>, path: seq<string>,
                                              acc: seq<TextEntry>)
    requires Mixing(t) && Scalars(st) && Searchable(acc) && ScalarEntries(acc)
    requires FollowedApart(found, t.universe, path)
    ensures var p := GatherText(t, st, found, path, acc);
            KeepsScalars(st, p.st) && (p.TextDone? ==> ScalarEntries(p.es))
    decreases |t.universe - SetOf(path)|, 0, |found|
  {
    if found != [] {
      var f := found[0];
      TextOneMore(t, st, found, 0, path, acc);
      assert found[0..] == found;
      ResolveKeepsScalars(t, st, f.key, path);
      var o := ResolveText(t, st, f.key, path);
      var chosen := TextChosen(t.parse, f, o.res);
      if chosen.TextOk? {
        GatherKeepsScalars(t, o.st, found[1..], path, TextExtended(t.parse, acc, f, chosen.value));
      }
    }
  }

  /***************************** The loops *****************************/

  /** Replacing text, one entry after the other, in the order given. */
  method ReplaceInText(s: string, tes: seq<TextEntry>, order: seq<nat>) returns (result: string)
    requires Searchable(tes) && Arranged(tes, order)
    ensures Searchable(Arrange(tes, order)) && result == ReplaceEach(s, Arrange(tes, order))
  {
    result := s;
    ghost var mixed := Arrange(tes, order);
    assert Searchable(mixed);
    var i := 0;
    while i < |order|
      invariant 0 <= i <= |order| && Searchable(mixed[i..])
      invariant ReplaceEach(s, mixed) == ReplaceEach(result, mixed[i..])
    {
      var te := tes[order[i]];
      assert mixed[i..][0] == te && mixed[i..][1..] == mixed[i + 1..] && te in tes;
      result := ReplaceAll(result, te.search, SprintNode(te.value));
      i := i + 1;
    }
  }

  /** The value of a string once its placeholders have theirs. */
  method Assembled(t: TextRun, text: string, lone: string, embedded: bool, tes: seq<TextEntry>) returns (node: Node)
    requires Mixing(t) && Searchable(tes)
    ensures node == AssembleText(t, text, lone, embedded, tes)
  {
    if embedded {
      var keys := TextKeys(tes);
      assert Arranged(keys, t.mix(keys));
      var replaced := ReplaceInText(text, tes, t.mix(keys));
      node := Tree.Leaf(Tree.Text(replaced));
    } else {
      node := TextFor(tes, lone);
    }
  }

  /** One placeholder: read its key, resolve it, and record what is chosen. */
  method GatherOne(t: TextRun, tree: Node, f: Found, path: seq<string>, tes: seq<TextEntry>, ghost st: Leaves)
    returns (tree': Node, tes': seq<TextEntry>, failed: bool, why: TextResult)
    requires Ready(t, tree, st) && f.key in t.universe
    ensures var o := ResolveText(t, st, f.key, path);
            && Ready(t, tree', o.st) && why == TextChosen(t.parse, f, o.res) && failed == !why.TextOk?
            && tes' == if failed then tes else TextExtended(t.parse, tes, f, why.value)
    decreases |t.universe - SetOf(path) - {f.key}|, 4
  {
    ReadsLeaf(t.norm, tree, f.key);
    var v := Tree.Value(tree, f.key);
    var resolved;
    tree', resolved := ResolveInTree(t, tree, f.key, v.value, path, st);
    why := TextChosen(t.parse, f, resolved);
    failed, tes' := !why.TextOk?, tes;
    if !failed {
      tes' := TextExtended(t.parse, tes, f, why.value);
    }
  }

  /** The loop over the placeholders of one string. */
  method Gather(t: TextRun, tree: Node, found: seq<Found>, path: seq<string>, ghost st: Leaves)
    returns (tree': Node, tes: seq<TextEntry>, failed: bool, why: TextResult)
    requires Ready(t, tree, st) && FollowedApart(found, t.universe, path)
    ensures var p := GatherText(t, st, found, path, []);
            && Ready(t, tree', p.st)
            && if p.TextDone? then !failed && tes == p.es else failed && why == p.why
    decreases |t.universe - SetOf(path)|, 1
  {
    tree', tes, failed, why := tree, [], false, TextOk(Tree.Null);
    ghost var cur := st;
    assert found[0..] == found;
    var n := 0;
    while n < |found|
      invariant n <= |found| && !failed && Ready(t, tree', cur) && Searchable(tes)
      invariant FollowedApart(found[n..], t.universe, path)
      invariant GatherText(t, st, found, path, []) == GatherText(t, cur, found[n..], path, tes)
    {
      TextOneMore(t, cur, found, n, path, tes);
      assert found[n] in found;
      tree', tes, failed, why := GatherOne(t, tree', found[n], path, tes, cur);
      cur := ResolveText(t, cur, found[n].key, path).st;
      if failed {
        return;
      }
      n := n + 1;
    }
    assert found[n..] == [];
  }

  /** Resolving the value `val` found under `key` in the tree. */
  method ResolveInTree(t: TextRun, tree: Node, key: string, val: Node, visited: seq<string>, ghost st: Leaves)
    returns (tree': Node, res: TextResult)
    requires Ready(t, tree, st) && val == TextAt(st, t.norm(key))
    ensures var o := ResolveText(t, st, key, visited); Ready(t, tree', o.st) && res == o.res
    decreases |t.universe - SetOf(visited) - {key}|, 3
  {
    tree', res := tree, TextOk(val);
    if !val.Leaf? || !val.value.Text? {
      return;
    }
    var found, embedded, nested := ParsePlaceHolder(val.value.text);
    if nested {
      return tree, TextBadSyntax;
    }
    if found == [] {
      return;
    }
    var path := visited + [key];
    var keys := seq(|found|, i requires 0 <= i < |found| => found[i].key);
    var repeated := Repeats(keys, path);
    if repeated {
      KeysAmong(found, keys, path);
      return tree, TextCircular;
    }
    KeysAmong(found, keys, path);
    if exists f :: f in found && f.key !in t.universe {
      return tree, TextUnknown;
    }
    tree', res := Followed(t, tree, key, val.value.text, found, embedded, visited, st);
  }

  lemma KeysAmong(found: seq<Found>, keys: seq<string>, path: seq<string>)
    requires |keys| == |found| && forall i | 0 <= i < |found| :: keys[i] == found[i].key
    ensures (exists k :: k in keys && k in path) <==> exists f :: f in found && f.key in path
  {
    if f :| f in found && f.key in path {
      var i :| 0 <= i < |found| && found[i] == f;
      assert keys[i] in keys;
    }
    if k :| k in keys && k in path {
      var i :| 0 <= i < |keys| && keys[i] == k;
      assert found[i] in found;
    }
  }

  /** Resolving a string with placeholders, and writing it back. */
  method Followed(t: TextRun, tree: Node, key: string, text: string, found: seq<Found>, embedded: bool,
                  visited: seq<string>, ghost st: Leaves)
    returns (tree': Node, res: TextResult)
    requires Ready(t, tree, st) && TextAt(st, t.norm(key)) == Tree.Leaf(Tree.Text(text)) && found != []
    requires Scan(text, 0, None) == Parsed(found, embedded) && FollowedApart(found, t.universe, visited + [key])
    ensures var o := ResolveText(t, st, key, visited); Ready(t, tree', o.st) && res == o.res
    decreases |t.universe - SetOf(visited) - {key}|, 2
  {
    TextUnfolds(t, st, key, visited, text, found, embedded);
    SameMeasure(t.universe, visited, key);
    var tes, failed;
    tree', tes, failed, res := Gather(t, tree, found, visited + [key], st);
    if !failed {
      ghost var p := GatherText(t, st, found, visited + [key], []);
      var node := Assembled(t, text, found[0].key, embedded, tes);
      StillScalar(t, tree, st, found, visited + [key], t.norm(key));
      AssembledIsScalar(t, text, found[0].key, embedded, tes);
      WriteKeepsReady(t, tree', p.st, key, node);
      var put := Tree.SetValue(tree', key, node, false);
      tree', res := put.node, TextOk(node);
    }
  }

  lemma StillScalar(t: TextRun, tree: Node, st: Leaves, found: seq<Found>, path: seq<string>, k: string)
    requires Ready(t, tree, st) && FollowedApart(found, t.universe, path) && k in st && st[k].Leaf?
    ensures var p := GatherText(t, st, found, path, []);
            k in p.st && p.st[k].Leaf? && (p.TextDone? ==> ScalarEntries(p.es))
  {
    ReadyScalars(t, tree, st);
    GatherKeepsScalars(t, st, found, path, []);
  }

  /***************************** Whole runs *****************************/

  lemma {:induction false} VisitTextsOneMore(t: TextRun, st: Leaves, order: seq<string>, k: string)
    requires Mixing(t) && VisitTexts(t, st, order).res.TextOk?
    ensures var one := ResolveText(t, VisitTexts(t, st, order).st, k, []);
            VisitTexts(t, st, order + [k]) ==
            TextOutcome(one.st, if one.res.TextOk? then TextOk(Tree.Null) else one.res)
    decreases |order|
  {
    if order == [] {
      assert [k][1..] == [];
    } else {
      var o := ResolveText(t, st, order[0], []);
      VisitTextsOneMore(t, o.st, order[1..], k);
      assert (order + [k])[1..] == order[1..] + [k];
    }
  }

  /** Visits the leaves with these keys in whatever order, and stops at the first error. */
  method VisitLeaves(t: TextRun, tree: Node, keys: set<string>, ghost st: Leaves)
    returns (tree': Node, res: TextResult, ghost order: seq<string>)
    requires Ready(t, tree, st) && keys == st.Keys && forall k | k in st :: t.norm(k) == k
    ensures var o := VisitTexts(t, st, order); Ready(t, tree', o.st) && res == o.res
    ensures Distinct(order) && SetOf(order) <= st.Keys && (res.TextOk? ==> SetOf(order) == st.Keys)
  {
    tree', res, order := tree, TextOk(Tree.Null), [];
    ghost var cur := st;
    var remaining := keys;
    while remaining != {}
      invariant VisitTexts(t, st, order) == TextOutcome(cur, TextOk(Tree.Null)) && cur.Keys == st.Keys
      invariant res == TextOk(Tree.Null) && Ready(t, tree', cur) && Visited(order, st.Keys, remaining)
      decreases |remaining|
    {
      var k :| k in remaining;
      VisitedOneMore(order, st.Keys, remaining, k);
      VisitTextsOneMore(t, st, order, k);
      var one;
      tree', one := VisitLeaf(t, tree', k, cur);
      cur := ResolveText(t, cur, k, []).st;
      order, remaining := order + [k], remaining - {k};
      if !one.TextOk? {
        VisitedKeys(order, st.Keys, remaining);
        res := one;
        return;
      }
    }
    VisitedKeys(order, st.Keys, remaining);
  }

  lemma VisitedKeys(order: seq<string>, keys: set<string>, remaining: set<string>)
    requires Visited(order, keys, remaining)
    ensures Distinct(order) && SetOf(order) <= keys && (remaining == {} ==> SetOf(order) == keys)
  {
  }

  method VisitLeaf(t: TextRun, tree: Node, k: string, ghost st: Leaves) returns (tree': Node, res: TextResult)
    requires Ready(t, tree, st) && k in st && t.norm(k) == k
    ensures var o := ResolveText(t, st, k, []); Ready(t, tree', o.st) && res == o.res
  {
    FlatReads(tree, k);
    var v := Tree.Value(tree, k);
    tree', res := ResolveInTree(t, tree, k, v.value, [], st);
  }

  /** The leaves of the tree hold the values of the store, and text and tokens agree. */
  ghost predicate Depicts(r: Run, style: Style, t: TextRun, tree: Node, st: Store) {
    && Alike(r, style, t) && Within(st, r.universe) && GoodStore(style, st)
    && tree.Obj? && Tree.GoodTree(tree) && ShowsStore(st, Tree.Flat(tree))
  }

  /** The configuration tree, resolved in place. */
  class TreeConfig {
    var tree: Node

    constructor (nested: Node)
      ensures tree == nested
    {
      tree := nested;
    }

    /** Resolves every leaf; `keys` are the flat keys the walk hands out. */
    method Resolve(t: TextRun, keys: set<string>) returns (res: TextResult, ghost order: seq<string>)
      requires tree.Obj? && Tree.GoodTree(tree) && Ready(t, tree, Tree.Flat(tree))
      requires keys == Tree.Flat(tree).Keys && forall k | k in keys :: t.norm(k) == k
      modifies this
      ensures tree.Obj? && Tree.GoodTree(tree) && Ready(t, tree, Tree.Flat(tree))
      ensures TextOutcome(Tree.Flat(tree), res) == VisitTexts(t, old(Tree.Flat(tree)), order)
      ensures Distinct(order) && SetOf(order) <= keys && (res.TextOk? ==> SetOf(order) == keys)
    {
      tree, res, order := VisitLeaves(t, tree, keys, Tree.Flat(tree));
    }

    /** For a configuration without cycles in which no leaf refers to one that collapses,
        the leaves of the resolved tree show the pure substitutions of the initial ones. */
    method ResolveCleanly(t: TextRun, keys: set<string>, ghost r: Run, ghost style: Style, ghost st: Store,
                          ghost g: Graph)
      returns (res: TextResult)
      requires tree.Obj? && Tree.GoodTree(tree) && Ready(t, tree, Tree.Flat(tree)) && Depicts(r, style, t, tree, st)
      requires keys == st.Keys && Loadable(r, st) && r.norm == g.norm && Ranked(st, g) && WellFormed(st, g)
      requires Clean(st, g, PureValues(st, g))
      modifies this
      ensures res.TextOk? <==> forall k | k in st :: Pure(st, g, k).Some?
      ensures tree.Obj? && Tree.GoodTree(tree) && (res.TextOk? ==> ShowsStore(Finals(st, g), Tree.Flat(tree)))
    {
      ghost var ls := Tree.Flat(tree);
      ghost var order;
      res, order := Resolve(t, keys);
      CleanlyFollows(r, style, t, st, ls, g, order);
    }
  }

  lemma CleanlyFollows(r: Run, style: Style, t: TextRun, st: Store, ls: Leaves, g: Graph, order: seq<string>)
    requires Alike(r, style, t) && GoodStore(style, st) && ShowsStore(st, ls)
    requires Loadable(r, st) && r.norm == g.norm && Ranked(st, g) && WellFormed(st, g)
    requires Clean(st, g, PureValues(st, g))
    requires SetOf(order) <= st.Keys && (VisitTexts(t, ls, order).res.TextOk? ==> SetOf(order) == st.Keys)
    ensures var o := VisitTexts(t, ls, order);
            && (o.res.TextOk? <==> forall k | k in st :: Pure(st, g, k).Some?)
            && (o.res.TextOk? ==> ShowsStore(Finals(st, g), o.st))
  {
    VisitsFollow(r, style, t, st, ls, order);
    assert forall k | k in order :: k in SetOf(order);
    CleanEnd(r, st, g, order);
  }
}
