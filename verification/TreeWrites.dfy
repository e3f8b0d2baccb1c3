/** Writing by flat key where nothing need be there yet: when a write goes through, what it
    creates on the way, and which leaves the tree has afterwards.
 */
module TreeWrites {
  import opened Collections
  import opened Text
  import opened ConfigTree

  /***************************** When a write goes through *****************************/

  /** What is read for a key; null where there is nothing. */
  function Read(n: Node, segs: seq<Seg>): Node
    requires segs != []
  {
    match Value(n, FlatKey(segs))
    case Some(v) => v
    case None => Null
  }

  /** The path to the list that segment `k` has an index into. */
  function ListPath(segs: seq<Seg>, k: nat): (path: seq<Seg>)
    requires k < |segs|
    ensures path != []
  {
    segs[..k] + [Seg(segs[k].name, -1)]
  }

  /** Segment `k` starts from a map, and its list is long enough. With `create` both may be
      missing, except that no list can be made for the largest index. */
  ghost predicate LetsThrough(n: Node, segs: seq<Seg>, create: bool, k: nat)
    requires k < |segs|
  {
    && (k > 0 ==> var m := Read(n, segs[..k]); m.Obj? || (create && m.Null?))
    && (segs[k].index >= 0 ==>
          var x := Read(n, ListPath(segs, k));
          (x.Arr? && segs[k].index < |x.items|) || (create && x.Null? && segs[k].index < MAX_INT))
  }

  ghost predicate CanWrite(n: Node, segs: seq<Seg>, create: bool) {
    forall k: nat | k < |segs| :: LetsThrough(n, segs, create, k)
  }

  /** Where one segment leads to. */
  function Step(n: Node, g: Seg): Node
    requires n.Obj?
  {
    var x := Field(n, g.name);
    if g.index < 0 then x
    else if x.Arr? && g.index < |x.items| then x.items[g.index]
    else Null
  }

  function At(n: Node, segs: seq<Seg>): Node
    decreases |segs|
  {
    if segs == [] then n
    else if !n.Obj? then Null
    else At(Step(n, segs[0]), segs[1..])
  }

  lemma {:induction false} GetIsAt(n: Node, parts: seq<string>, segs: seq<Seg>)
    requires Spells(parts, segs)
    ensures !GetAt(n, parts).Panics? && At(n, segs) == match GetAt(n, parts) case Found(v) => v case _ => Null
    decreases |segs|
  {
    if n.Obj? {
      if |segs| > 1 {
        SpellsTail(parts, segs);
        GetIsAt(Step(n, segs[0]), parts[1..], segs[1..]);
      } else {
        assert segs[1..] == [];
      }
    }
  }

  lemma ReadIsAt(n: Node, segs: seq<Seg>)
    requires GoodPath(segs)
    ensures Read(n, segs) == At(n, segs)
  {
    PartsOfFlatKey(segs);
    GetIsAt(n, Parts(FlatKey(segs)), segs);
  }

  ghost predicate Passes(n: Node, segs: seq<Seg>, create: bool, k: nat)
    requires k < |segs|
  {
    && (k > 0 ==> var m := At(n, segs[..k]); m.Obj? || (create && m.Null?))
    && (segs[k].index >= 0 ==>
          var x := At(n, ListPath(segs, k));
          (x.Arr? && segs[k].index < |x.items|) || (create && x.Null? && segs[k].index < MAX_INT))
  }

  lemma PassesIsThrough(n: Node, segs: seq<Seg>, create: bool, k: nat)
    requires GoodPath(segs) && k < |segs|
    ensures LetsThrough(n, segs, create, k) <==> Passes(n, segs, create, k)
  {
    if k > 0 {
      ReadIsAt(n, segs[..k]);
    }
    assert segs[k] in segs;
    ReadIsAt(n, ListPath(segs, k));
  }

  /** The node a write goes on with: created when missing and asked for. */
  function Made(x: Node, create: bool): Node {
    if x.Null? && create then Obj(map[]) else x
  }

  lemma {:induction false} AtNothing(segs: seq<Seg>)
    requires segs != []
    ensures At(Obj(map[]), segs) == At(Null, segs) == Null
  {
    if |segs| > 1 {
      AtNothing(segs[1..]);
    }
  }

  lemma AtMade(x: Node, create: bool, segs: seq<Seg>)
    ensures At(Made(x, create), segs) == (if segs == [] then Made(x, create) else At(x, segs))
  {
    if segs != [] {
      AtNothing(segs);
    }
  }

  lemma PassesTail(n: Node, segs: seq<Seg>, create: bool, k: nat)
    requires n.Obj? && 0 < k < |segs|
    ensures var y := Made(Step(n, segs[0]), create);
            Passes(n, segs, create, k) <==> Passes(y, segs[1..], create, k - 1) && (k == 1 ==> y.Obj?)
  {
    var x, rest := Step(n, segs[0]), segs[1..];
    assert segs[..k][1..] == rest[..k - 1];
    assert ListPath(segs, k)[1..] == ListPath(rest, k - 1);
    AtMade(x, create, rest[..k - 1]);
    AtMade(x, create, ListPath(rest, k - 1));
  }

  lemma AtList(n: Node, segs: seq<Seg>)
    requires n.Obj? && segs != []
    ensures At(n, ListPath(segs, 0)) == Field(n, segs[0].name)
  {
    assert ListPath(segs, 0)[1..] == [];
  }

  ghost predicate AllPass(n: Node, segs: seq<Seg>, create: bool) {
    forall k: nat | k < |segs| :: Passes(n, segs, create, k)
  }

  lemma AllPassTail(n: Node, segs: seq<Seg>, create: bool)
    requires n.Obj? && segs != []
    ensures var y := Made(Step(n, segs[0]), create);
            AllPass(n, segs, create) <==>
            Passes(n, segs, create, 0) && (|segs| > 1 ==> y.Obj? && AllPass(y, segs[1..], create))
  {
    var y, rest := Made(Step(n, segs[0]), create), segs[1..];
    forall k: nat | 0 < k < |segs|
      ensures Passes(n, segs, create, k) <==> Passes(y, rest, create, k - 1) && (k == 1 ==> y.Obj?)
    {
      PassesTail(n, segs, create, k);
    }
    if |segs| > 1 && y.Obj? && AllPass(y, rest, create) && Passes(n, segs, create, 0) {
      forall k: nat | k < |segs|
        ensures Passes(n, segs, create, k)
      {
        assert k > 0 ==> Passes(y, rest, create, k - 1);
      }
    }
    if AllPass(n, segs, create) {
      forall k: nat | k < |rest|
        ensures Passes(y, rest, create, k)
      {
        assert Passes(n, segs, create, k + 1);
      }
      assert |segs| > 1 ==> Passes(n, segs, create, 1);
    }
  }

  /** The list an index leads into, if it is there or can be made. */
  lemma ListMade(x: Node, index: nat, create: bool)
    requires index <= MAX_INT
    ensures var list := Intermediate(x, create, ExpectedLength(index));
            list.Arr? && index < |list.items| <==>
            (x.Arr? && index < |x.items|) || (create && x.Null? && index < MAX_INT)
    ensures var list := Intermediate(x, create, ExpectedLength(index));
            list.Arr? && index < |list.items| && !x.Arr? ==> |list.items| == index + 1 && list.items[index] == Obj(map[])
  {
  }

  /** The rest of a write, past the first segment. */
  lemma RestMade(x: Node, parts: seq<string>, val: Node, create: bool, length: int)
    requires |parts| > 1 && length <= 0
    ensures SetRest(x, parts, val, create, length) == SetAt(Made(x, create), parts[1..], val, create)
  {
  }

  lemma RestOk(x: Node, parts: seq<string>, segs: seq<Seg>, val: Node, create: bool, length: int)
    requires Spells(parts, segs) && length <= 0
    requires |segs| > 1 && Made(x, create).Obj? ==>
               var p := SetAt(Made(x, create), parts[1..], val, create);
               p.Put? && (p.ok <==> AllPass(Made(x, create), segs[1..], create))
    ensures var p := SetRest(x, parts, val, create, length);
            p.Put? && (p.ok <==> (|segs| > 1 ==> Made(x, create).Obj? && AllPass(Made(x, create), segs[1..], create)))
  {
    if |segs| > 1 {
      RestMade(x, parts, val, create, length);
      assert ParseSegment(parts[1..][0]) == Some(segs[1]);
    }
  }

  lemma ByName(n: Node, parts: seq<string>, g: Seg, val: Node, create: bool)
    requires n.Obj? && parts != [] && ParseSegment(parts[0]) == Some(g) && g.index == -1
    ensures SetAt(n, parts, val, create) == InField(n, g.name, SetRest(Field(n, g.name), parts, val, create, 0))
  {
  }

  lemma ByIndex(n: Node, parts: seq<string>, g: Seg, val: Node, create: bool)
    requires n.Obj? && parts != [] && ParseSegment(parts[0]) == Some(g) && 0 <= g.index <= MAX_INT
    ensures var x, p := Field(n, g.name), SetAt(n, parts, val, create);
            if (x.Arr? && g.index < |x.items|) || (create && x.Null? && g.index < MAX_INT)
            then
              var list := Intermediate(x, create, g.index + 1);
              && list.Arr? && g.index < |list.items|
              && p == InField(n, g.name, InItem(list, g.index, SetRest(list.items[g.index], parts, val, create, -1)))
            else
              p == Put(WithField(n, g.name, Intermediate(x, create, ExpectedLength(g.index))), false)
  {
    ListMade(Field(n, g.name), g.index, create);
  }

  /** The node the write goes on from, if it gets past the first segment. */
  function Entered(n: Node, g: Seg): Node
    requires n.Obj?
  {
    var x := Field(n, g.name);
    if g.index < 0 then x else if x.Arr? && g.index < |x.items| then x.items[g.index] else Obj(map[])
  }

  lemma SetOnce(n: Node, parts: seq<string>, segs: seq<Seg>, val: Node, create: bool)
    requires n.Obj? && Spells(parts, segs) && -1 <= segs[0].index <= MAX_INT
    requires var y := Made(Entered(n, segs[0]), create);
             |segs| > 1 && y.Obj? ==>
               var p := SetAt(y, parts[1..], val, create); p.Put? && (p.ok <==> AllPass(y, segs[1..], create))
    ensures var p, y := SetAt(n, parts, val, create), Made(Entered(n, segs[0]), create);
            && p.Put?
            && (p.ok <==> Passes(n, segs, create, 0) && (|segs| > 1 ==> y.Obj? && AllPass(y, segs[1..], create)))
  {
    var g := segs[0];
    assert ParseSegment(parts[0]) == Some(g);
    AtList(n, segs);
    if g.index < 0 {
      ByName(n, parts, g, val, create);
      RestOk(Field(n, g.name), parts, segs, val, create, 0);
    } else {
      ByIndex(n, parts, g, val, create);
      RestOk(Entered(n, g), parts, segs, val, create, -1);
    }
  }

  lemma {:induction false} SetPasses(n: Node, parts: seq<string>, segs: seq<Seg>, val: Node, create: bool)
    requires n.Obj? && Spells(parts, segs) && (forall g | g in segs :: -1 <= g.index <= MAX_INT)
    ensures var p := SetAt(n, parts, val, create); p.Put? && (p.ok <==> AllPass(n, segs, create))
    decreases |segs|
  {
    assert segs[0] in segs;
    AllPassTail(n, segs, create);
    AtList(n, segs);
    var y := Made(Entered(n, segs[0]), create);
    if |segs| > 1 && y.Obj? {
      SpellsTail(parts, segs);
      SetPasses(y, parts[1..], segs[1..], val, create);
    }
    SetOnce(n, parts, segs, val, create);
  }

  /***************************** Which leaves there are afterwards *****************************/

  /** The key `b` is `a` or leads on from it. */
  predicate Below(a: string, b: string) {
    a <= b && (|a| == |b| || b[|a|] == '.' || b[|a|] == '[')
  }

  /** Neither key leads to the other. */
  predicate Apart(a: string, b: string) {
    !Below(a, b) && !Below(b, a)
  }

  lemma BelowTransitive(a: string, b: string, c: string)
    requires Below(a, b) && Below(b, c)
    ensures Below(a, c)
  {
    assert |a| < |b| ==> c[|a|] == b[|a|];
  }

  predicate Plain(s: string) {
    '.' !in s && '[' !in s
  }

  /** A key that leads to another went the same way. */
  lemma SameWay(pre: string, a: string, b: string, u: string, v: string)
    requires Plain(a) && Plain(b) && Below(pre + a, u) && Below(pre + b, v) && Below(u, v)
    ensures a == b
  {
    assert forall j | 0 <= j < |a| :: u[|pre| + j] == (pre + a)[|pre| + j] == a[j] && a[j] in a;
    assert forall j | 0 <= j < |b| :: v[|pre| + j] == (pre + b)[|pre| + j] == b[j] && b[j] in b;
    assert pre + a == v[..|pre + a|] && pre + b == v[..|pre + b|];
    assert a == (pre + a)[|pre|..] && b == (pre + b)[|pre|..];
  }

  /** Keys that went different ways are apart. */
  lemma Forked(pre: string, a: string, b: string, u: string, v: string)
    requires Plain(a) && Plain(b) && a != b && Below(pre + a, u) && Below(pre + b, v)
    ensures Apart(u, v)
  {
    if Below(u, v) {
      SameWay(pre, a, b, u, v);
    }
    if Below(v, u) {
      SameWay(pre, b, a, v, u);
    }
  }

  /** What comes before the name in the key of a child. */
  function Prefix(key: string): string {
    if key == "" then "" else key + "."
  }

  lemma ChildBelow(key: string, name: string)
    ensures ChildKey(key, name) == Prefix(key) + name
    ensures key != "" ==> Below(key, ChildKey(key, name))
  {
  }

  lemma ItemBelow(key: string, i: nat)
    ensures Below(key, ItemKey(key, i)) && ItemKey(key, i) == key + "[" + (Itoa(i) + "]") && Plain(Itoa(i) + "]")
    ensures ItemKey(key, i) != ""
  {
    AtoiItoa(i);
    assert ItemKey(key, i) == key + "[" + (Itoa(i) + "]");
  }

  /** Every key the walk hands out leads on from where it started. */
  lemma {:induction false} WalkedBelow(key: string, x: Node, q: (string, Node))
    requires key != "" && q in VisitEach(key, x)
    ensures Below(key, q.0)
    decreases x
  {
    match x
    case Obj(m) =>
      var k :| k in m && q in VisitEach(ChildKey(key, k), m[k]);
      ChildBelow(key, k);
      WalkedBelow(ChildKey(key, k), m[k], q);
      BelowTransitive(key, ChildKey(key, k), q.0);
    case Arr(items) =>
      var i :| 0 <= i < |items| && q in VisitEach(ItemKey(key, i), items[i]);
      ItemBelow(key, i);
      WalkedBelow(ItemKey(key, i), items[i], q);
      BelowTransitive(key, ItemKey(key, i), q.0);
    case _ =>
  }

  ghost predicate FromField(key: string, n: Node, name: string, q: (string, Node))
    requires n.Obj?
  {
    name in n.fields && q in VisitEach(ChildKey(key, name), n.fields[name])
  }

  ghost predicate FromOthers(key: string, n: Node, name: string, q: (string, Node))
    requires n.Obj?
  {
    exists k :: k in n.fields && k != name && q in VisitEach(ChildKey(key, k), n.fields[k])
  }

  lemma FieldsSplit(key: string, n: Node, name: string, q: (string, Node))
    requires n.Obj?
    ensures q in VisitEach(key, n) <==> FromField(key, n, name, q) || FromOthers(key, n, name, q)
  {
    assert q in VisitEach(key, n) <==> exists k :: k in n.fields && q in VisitEach(ChildKey(key, k), n.fields[k]);
  }

  /** Leaves of other fields are apart from whatever is below this one. */
  lemma OthersApart(key: string, n: Node, name: string, q: (string, Node), at: string)
    requires n.Obj? && GoodTree(n) && GoodName(name) && FromOthers(key, n, name, q) && Below(ChildKey(key, name), at)
    ensures Apart(at, q.0)
  {
    var k :| k in n.fields && k != name && q in VisitEach(ChildKey(key, k), n.fields[k]);
    ChildBelow(key, k);
    ChildBelow(key, name);
    WalkedBelow(ChildKey(key, k), n.fields[k], q);
    Forked(Prefix(key), name, k, at, q.0);
  }

  /** What was written into one field: the leaves at `at`, and those that were there and are
      apart from it. */
  ghost predicate Rewalked(under: string, x: Node, x': Node, at: string, val: Node, q: (string, Node)) {
    q in VisitEach(under, x') <==> q in VisitEach(at, val) || (q in VisitEach(under, x) && Apart(at, q.0))
  }

  lemma FieldRewalked(key: string, n: Node, name: string, x': Node, at: string, val: Node, q: (string, Node))
    requires n.Obj? && GoodTree(n) && GoodName(name) && x' != Null && Below(ChildKey(key, name), at)
    requires if name in n.fields then Rewalked(ChildKey(key, name), n.fields[name], x', at, val, q)
             else q in VisitEach(ChildKey(key, name), x') <==> q in VisitEach(at, val)
    ensures Rewalked(key, n, WithField(n, name, x'), at, val, q)
  {
    var n' := WithField(n, name, x');
    FieldsSplit(key, n, name, q);
    FieldsSplit(key, n', name, q);
    assert FromOthers(key, n', name, q) <==> FromOthers(key, n, name, q);
    if FromOthers(key, n, name, q) {
      OthersApart(key, n, name, q, at);
    }
  }

  lemma ItemsApart(key: string, i: nat, j: nat, u: string, v: string)
    requires i != j && i <= MAX_INT && j <= MAX_INT && Below(ItemKey(key, i), u) && Below(ItemKey(key, j), v)
    ensures Apart(u, v)
  {
    ItemBelow(key, i);
    ItemBelow(key, j);
    AtoiItoa(i);
    AtoiItoa(j);
    var a, b := Itoa(i) + "]", Itoa(j) + "]";
    assert a[..|a| - 1] == Itoa(i) && b[..|b| - 1] == Itoa(j);
    Forked(key + "[", a, b, u, v);
  }

  lemma ItemRewalked(key: string, list: Node, index: nat, x': Node, at: string, val: Node, q: (string, Node))
    requires list.Arr? && |list.items| <= MAX_INT && index < |list.items| && Below(ItemKey(key, index), at)
    requires Rewalked(ItemKey(key, index), list.items[index], x', at, val, q)
    ensures Rewalked(key, list, Arr(list.items[index := x']), at, val, q)
  {
    var list' := Arr(list.items[index := x']);
    ListSplits(key, list, index, q);
    ListSplits(key, list', index, q);
    if i :| 0 <= i < |list.items| && i != index && q in VisitEach(ItemKey(key, i), list.items[i]) {
      assert list'.items[i] == list.items[i];
      ItemBelow(key, i);
      WalkedBelow(ItemKey(key, i), list.items[i], q);
      ItemsApart(key, index, i, at, q.0);
    }
    if i :| 0 <= i < |list'.items| && i != index && q in VisitEach(ItemKey(key, i), list'.items[i]) {
      assert list'.items[i] == list.items[i];
    }
  }

  /** A null on the way, or an empty list made there, has no leaf apart from what is below. */
  lemma NothingLost(under: string, x: Node, y: Node, x': Node, at: string, val: Node, q: (string, Node))
    requires x == Null && VisitEach(under, y) == {} && Below(under, at) && Rewalked(under, y, x', at, val, q)
    ensures Rewalked(under, x, x', at, val, q) && (q in VisitEach(under, x') <==> q in VisitEach(at, val))
  {
  }

  lemma EmptyItems(key: string, length: nat)
    ensures VisitEach(key, Arr(seq(length, _ => Obj(map[])))) == {} == VisitEach(key, Obj(map[]))
  {
  }

  lemma {:induction false} RestWalk(key: string, x: Node, parts: seq<string>, segs: seq<Seg>, val: Node, create: bool,
                                    length: int, q: (string, Node))
    requires Spells(parts, segs) && GoodPath(segs) && GoodTree(x) && val != Null && length <= 0
    requires SetRest(x, parts, val, create, length).Put? && SetRest(x, parts, val, create, length).ok
    ensures var x' := SetRest(x, parts, val, create, length).node;
            var under, at := ChildKey(key, SegText(segs[0])), ChildKey(key, FlatKey(segs));
            x' != Null && Below(under, at) && Rewalked(under, x, x', at, val, q)
    decreases |segs|, 0
  {
    var g := segs[0];
    assert g in segs;
    SegTextNotEmpty(g);
    var under, at := ChildKey(key, SegText(g)), ChildKey(key, FlatKey(segs));
    if |segs| == 1 {
      LoneKey(segs);
      if q in VisitEach(under, x) {
        WalkedBelow(under, x, q);
      }
    } else {
      var y, rest := Made(x, create), segs[1..];
      RestMade(x, parts, val, create, length);
      SpellsTail(parts, segs);
      assert segs == [g] + rest && parts[1..] != [];
      FlatKeyCons(g, rest);
      ChildKeyAssoc(key, SegText(g), FlatKey(rest));
      ChildBelow(under, FlatKey(rest));
      WriteWalk(under, y, parts[1..], rest, val, create, q);
      if x.Null? {
        EmptyItems(under, 0);
        NothingLost(under, x, y, SetAt(y, parts[1..], val, create).node, at, val, q);
      }
    }
  }

  lemma {:induction false} WriteWalk(key: string, n: Node, parts: seq<string>, segs: seq<Seg>, val: Node, create: bool,
                                     q: (string, Node))
    requires Spells(parts, segs) && GoodPath(segs) && GoodTree(n) && val != Null
    requires SetAt(n, parts, val, create).Put? && SetAt(n, parts, val, create).ok
    ensures var n' := SetAt(n, parts, val, create).node;
            n.Obj? && n'.Obj? && Rewalked(key, n, n', ChildKey(key, FlatKey(segs)), val, q)
    decreases |segs|, 1
  {
    var g := segs[0];
    assert g in segs && ParseSegment(parts[0]) == Some(g);
    if g.index < 0 {
      RestWalk(key, Field(n, g.name), parts, segs, val, create, 0, q);
      NameWalk(key, n, parts, segs, val, create, q);
    } else {
      ByIndex(n, parts, g, val, create);
      RestWalk(key, Intermediate(Field(n, g.name), create, g.index + 1).items[g.index], parts, segs, val, create, -1, q);
      IndexWalk(key, n, parts, segs, val, create, q);
    }
  }

  lemma NameWalk(key: string, n: Node, parts: seq<string>, segs: seq<Seg>, val: Node, create: bool, q: (string, Node))
    requires Spells(parts, segs) && GoodPath(segs) && n.Obj? && GoodTree(n) && segs[0].index == -1
    requires SetRest(Field(n, segs[0].name), parts, val, create, 0).Put?
    requires var x' := SetRest(Field(n, segs[0].name), parts, val, create, 0).node;
             var under, at := ChildKey(key, segs[0].name), ChildKey(key, FlatKey(segs));
             x' != Null && Below(under, at) && Rewalked(under, Field(n, segs[0].name), x', at, val, q)
    ensures SetAt(n, parts, val, create).Put? && SetAt(n, parts, val, create).node.Obj?
    ensures Rewalked(key, n, SetAt(n, parts, val, create).node, ChildKey(key, FlatKey(segs)), val, q)
  {
    var g, x := segs[0], Field(n, segs[0].name);
    assert g in segs && ParseSegment(parts[0]) == Some(g);
    ByName(n, parts, g, val, create);
    FieldRewalked(key, n, g.name, SetRest(x, parts, val, create, 0).node, ChildKey(key, FlatKey(segs)), val, q);
  }

  lemma IndexWalk(key: string, n: Node, parts: seq<string>, segs: seq<Seg>, val: Node, create: bool, q: (string, Node))
    requires Spells(parts, segs) && GoodPath(segs) && n.Obj? && GoodTree(n) && segs[0].index >= 0
    requires var x := Field(n, segs[0].name);
             (x.Arr? && segs[0].index < |x.items|) || (create && x.Null? && segs[0].index < MAX_INT)
    requires var list := Intermediate(Field(n, segs[0].name), create, segs[0].index + 1);
             && list.Arr? && segs[0].index < |list.items|
             && var p := SetRest(list.items[segs[0].index], parts, val, create, -1);
                var under, at := ChildKey(key, SegText(segs[0])), ChildKey(key, FlatKey(segs));
                p.Put? && Below(under, at) && Rewalked(under, list.items[segs[0].index], p.node, at, val, q)
    ensures SetAt(n, parts, val, create).Put? && SetAt(n, parts, val, create).node.Obj?
    ensures Rewalked(key, n, SetAt(n, parts, val, create).node, ChildKey(key, FlatKey(segs)), val, q)
  {
    var g, x := segs[0], Field(n, segs[0].name);
    assert g in segs && ParseSegment(parts[0]) == Some(g);
    var under, at := ChildKey(key, g.name), ChildKey(key, FlatKey(segs));
    var list := Intermediate(x, create, g.index + 1);
    ByIndex(n, parts, g, val, create);
    ItemOfChild(key, g.name, g.index);
    ItemBelow(under, g.index);
    BelowTransitive(under, ItemKey(under, g.index), at);
    var y := SetRest(list.items[g.index], parts, val, create, -1).node;
    var list' := Arr(list.items[g.index := y]);
    ItemRewalked(under, list, g.index, y, at, val, q);
    if x.Null? {
      EmptyItems(under, g.index + 1);
      NothingLost(under, x, list, list', at, val, q);
    }
    FieldRewalked(key, n, g.name, list', at, val, q);
  }

  /***************************** What is made on the way *****************************/

  lemma {:induction false} WriteKeepsGood(n: Node, parts: seq<string>, segs: seq<Seg>, val: Node, create: bool)
    requires Spells(parts, segs) && GoodPath(segs) && n.Obj? && GoodTree(n) && FitsAt(segs, val) && val != Null
    requires SetAt(n, parts, val, create).Put? && SetAt(n, parts, val, create).ok
    ensures SetAt(n, parts, val, create).node.Obj? && GoodTree(SetAt(n, parts, val, create).node)
    decreases |segs|
  {
    var g, x := segs[0], Field(n, segs[0].name);
    assert g in segs && ParseSegment(parts[0]) == Some(g);
    if g.index < 0 {
      ByName(n, parts, g, val, create);
      if |segs| > 1 {
        GoodBelow(x, parts, segs, val, create, 0);
        WriteKeepsGood(Made(x, create), parts[1..], segs[1..], val, create);
      }
      WithGoodField(n, g.name, SetRest(x, parts, val, create, 0).node);
    } else {
      ByIndex(n, parts, g, val, create);
      var list := Intermediate(x, create, g.index + 1);
      GoodList(x, create, g.index);
      if |segs| > 1 {
        GoodBelow(list.items[g.index], parts, segs, val, create, -1);
        WriteKeepsGood(Made(list.items[g.index], create), parts[1..], segs[1..], val, create);
      }
      WithGoodItem(n, g.name, list, g.index, SetRest(list.items[g.index], parts, val, create, -1).node);
    }
  }

  lemma GoodList(x: Node, create: bool, index: nat)
    requires GoodTree(x) && ((x.Arr? && index < |x.items|) || (create && x.Null? && index < MAX_INT))
    ensures GoodTree(Intermediate(x, create, index + 1))
  {
  }

  lemma GoodBelow(x: Node, parts: seq<string>, segs: seq<Seg>, val: Node, create: bool, length: int)
    requires Spells(parts, segs) && GoodPath(segs) && |segs| > 1 && GoodTree(x) && FitsAt(segs, val) && length <= 0
    requires SetRest(x, parts, val, create, length).Put? && SetRest(x, parts, val, create, length).ok
    ensures SetRest(x, parts, val, create, length) == SetAt(Made(x, create), parts[1..], val, create)
    ensures Spells(parts[1..], segs[1..]) && GoodPath(segs[1..]) && FitsAt(segs[1..], val)
    ensures Made(x, create).Obj? && GoodTree(Made(x, create))
  {
    RestMade(x, parts, val, create, length);
    SpellsTail(parts, segs);
    assert ParseSegment(parts[1..][0]) == Some(segs[1]);
  }

  lemma WithGoodField(n: Node, name: string, x: Node)
    requires n.Obj? && GoodTree(n) && GoodName(name) && GoodTree(x)
    ensures GoodTree(WithField(n, name, x))
  {
  }

  lemma WithGoodItem(n: Node, name: string, list: Node, index: nat, x: Node)
    requires n.Obj? && GoodTree(n) && GoodName(name) && list.Arr? && GoodTree(list) && index < |list.items|
    requires GoodTree(x) && !x.Arr?
    ensures GoodTree(WithField(n, name, Arr(list.items[index := x])))
  {
    WithGoodField(n, name, Arr(list.items[index := x]));
  }

  /** A write goes through exactly if what is read along its path lets it, whatever is
      written. */
  lemma WritesExactly(n: Node, segs: seq<Seg>, val: Node, create: bool)
    requires n.Obj? && GoodPath(segs)
    ensures var p := SetValue(n, FlatKey(segs), val, create); p.Put? && (p.ok <==> CanWrite(n, segs, create))
  {
    PartsOfFlatKey(segs);
    SetPasses(n, Parts(FlatKey(segs)), segs, val, create);
    forall k: nat | k < |segs|
      ensures LetsThrough(n, segs, create, k) <==> Passes(n, segs, create, k)
    {
      PassesIsThrough(n, segs, create, k);
    }
  }

  /** After a write of anything but null that goes through, created nodes or not, the value is
      read back, the walk hands out its leaves below its key, and every other leaf that
      neither leads to the key nor lies below it stays as it was. */
  lemma WrittenLeaves(n: Node, segs: seq<Seg>, val: Node, create: bool, q: (string, Node))
    requires n.Obj? && GoodTree(n) && GoodPath(segs) && val != Null && CanWrite(n, segs, create)
    ensures var p, at := SetValue(n, FlatKey(segs), val, create), FlatKey(segs);
            && p.Put? && p.ok && Value(p.node, at) == Some(val)
            && (q in VisitEach("", p.node) <==>
                q in VisitEach(at, val) || (q in VisitEach("", n) && !Below(at, q.0) && !Below(q.0, at)))
  {
    WritesExactly(n, segs, val, create);
    ReadBack(n, FlatKey(segs), val, create);
    PartsOfFlatKey(segs);
    WriteWalk("", n, Parts(FlatKey(segs)), segs, val, create, q);
  }

  /** The tree stays good. */
  lemma WrittenGood(n: Node, segs: seq<Seg>, val: Node, create: bool)
    requires n.Obj? && GoodTree(n) && GoodPath(segs) && val != Null && CanWrite(n, segs, create) && FitsAt(segs, val)
    ensures var p := SetValue(n, FlatKey(segs), val, create); p.Put? && p.node.Obj? && GoodTree(p.node)
  {
    WritesExactly(n, segs, val, create);
    PartsOfFlatKey(segs);
    WriteKeepsGood(n, Parts(FlatKey(segs)), segs, val, create);
  }

  /** The list that is there or has been made: one that was there keeps its length, and a new
      one is as long as the index needs. */
  predicate ListAfter(was: Node, now: Node, index: nat) {
    now.Arr? && |now.items| == if was.Arr? then |was.items| else index + 1
  }

  lemma ListAtFirst(n: Node, parts: seq<string>, segs: seq<Seg>, val: Node, create: bool)
    requires n.Obj? && Spells(parts, segs) && 0 <= segs[0].index <= MAX_INT
    requires SetAt(n, parts, val, create).Put? && SetAt(n, parts, val, create).ok
    ensures ListAfter(At(n, ListPath(segs, 0)), At(SetAt(n, parts, val, create).node, ListPath(segs, 0)), segs[0].index)
  {
    assert ParseSegment(parts[0]) == Some(segs[0]);
    ByIndex(n, parts, segs[0], val, create);
    AtList(n, segs);
    AtList(SetAt(n, parts, val, create).node, segs);
  }

  /** Past the first segment a write that goes through is a write into the node it enters. */
  lemma WriteEnters(n: Node, parts: seq<string>, segs: seq<Seg>, val: Node, create: bool)
    requires n.Obj? && Spells(parts, segs) && |segs| > 1 && -1 <= segs[0].index <= MAX_INT
    requires SetAt(n, parts, val, create).Put? && SetAt(n, parts, val, create).ok
    ensures var y, n' := Made(Entered(n, segs[0]), create), SetAt(n, parts, val, create).node;
            var p := SetAt(y, parts[1..], val, create);
            y.Obj? && p.Put? && p.ok && n'.Obj? && Step(n', segs[0]) == p.node
  {
    var g := segs[0];
    assert ParseSegment(parts[0]) == Some(g) && ParseSegment(parts[1..][0]) == Some(segs[1]);
    if g.index < 0 {
      ByName(n, parts, g, val, create);
      RestMade(Field(n, g.name), parts, val, create, 0);
    } else {
      ByIndex(n, parts, g, val, create);
      RestMade(Entered(n, g), parts, val, create, -1);
    }
  }

  lemma AtEntered(n: Node, g: Seg, create: bool, path: seq<Seg>)
    requires n.Obj? && path != []
    ensures At(n, [g] + path) == At(Made(Entered(n, g), create), path)
  {
    ConsTail(g, path);
    AtMade(Entered(n, g), create, path);
    AtNothing(path);
  }

  lemma AtStepped(n: Node, g: Seg, path: seq<Seg>)
    requires n.Obj? && path != []
    ensures At(n, [g] + path) == At(Step(n, g), path)
  {
    ConsTail(g, path);
  }

  lemma {:induction false} ListsAfter(n: Node, parts: seq<string>, segs: seq<Seg>, val: Node, create: bool, k: nat)
    requires n.Obj? && Spells(parts, segs) && (forall g | g in segs :: -1 <= g.index <= MAX_INT)
    requires SetAt(n, parts, val, create).Put? && SetAt(n, parts, val, create).ok && k < |segs| && segs[k].index >= 0
    ensures ListAfter(At(n, ListPath(segs, k)), At(SetAt(n, parts, val, create).node, ListPath(segs, k)), segs[k].index)
    decreases |segs|
  {
    assert segs[0] in segs;
    if k == 0 {
      ListAtFirst(n, parts, segs, val, create);
    } else {
      var y := Made(Entered(n, segs[0]), create);
      WriteEnters(n, parts, segs, val, create);
      SpellsTail(parts, segs);
      ListsAfter(y, parts[1..], segs[1..], val, create, k - 1);
      var n', y' := SetAt(n, parts, val, create).node, SetAt(y, parts[1..], val, create).node;
      ListsBehind(n, n', y, y', segs, create, k);
    }
  }

  lemma ListsBehind(n: Node, n': Node, y: Node, y': Node, segs: seq<Seg>, create: bool, k: nat)
    requires n.Obj? && n'.Obj? && 0 < k < |segs| && y == Made(Entered(n, segs[0]), create) && y' == Step(n', segs[0])
    ensures At(n, ListPath(segs, k)) == At(y, ListPath(segs[1..], k - 1))
    ensures At(n', ListPath(segs, k)) == At(y', ListPath(segs[1..], k - 1))
  {
    var path := ListPath(segs[1..], k - 1);
    assert ListPath(segs, k) == [segs[0]] + path;
    AtEntered(n, segs[0], create, path);
    AtStepped(n', segs[0], path);
  }

  lemma ReadList(n: Node, segs: seq<Seg>, k: nat)
    requires GoodPath(segs) && k < |segs|
    ensures Read(n, ListPath(segs, k)) == At(n, ListPath(segs, k))
  {
    assert segs[k] in segs;
    ReadIsAt(n, ListPath(segs, k));
  }

  /** The lists along a path after a write that went through. */
  lemma WrittenLists(n: Node, segs: seq<Seg>, val: Node, create: bool, k: nat)
    requires n.Obj? && GoodPath(segs) && CanWrite(n, segs, create) && k < |segs| && segs[k].index >= 0
    ensures var p := SetValue(n, FlatKey(segs), val, create);
            p.Put? && ListAfter(Read(n, ListPath(segs, k)), Read(p.node, ListPath(segs, k)), segs[k].index)
  {
    WritesExactly(n, segs, val, create);
    PartsOfFlatKey(segs);
    ListsAfter(n, Parts(FlatKey(segs)), segs, val, create, k);
    ReadList(n, segs, k);
    ReadList(SetValue(n, FlatKey(segs), val, create).node, segs, k);
  }

  /***************************** Writes that write nothing *****************************/

  /** The walks hand out the same leaves other than null. */
  ghost predicate SameLeaf(key: string, a: Node, b: Node, q: (string, Node)) {
    q in VisitEach(key, a) <==> q in VisitEach(key, b)
  }

  lemma FieldSame(key: string, n: Node, name: string, x: Node, q: (string, Node))
    requires n.Obj? && q.1 != Null && SameLeaf(ChildKey(key, name), Field(n, name), x, q)
    ensures SameLeaf(key, n, WithField(n, name, x), q)
  {
    var n' := WithField(n, name, x);
    FieldsSplit(key, n, name, q);
    FieldsSplit(key, n', name, q);
    assert FromOthers(key, n', name, q) <==> FromOthers(key, n, name, q);
  }

  lemma ItemSame(key: string, list: Node, index: nat, x: Node, q: (string, Node))
    requires list.Arr? && index < |list.items| && SameLeaf(ItemKey(key, index), list.items[index], x, q)
    ensures SameLeaf(key, list, Arr(list.items[index := x]), q)
  {
    var list' := Arr(list.items[index := x]);
    ListSplits(key, list, index, q);
    ListSplits(key, list', index, q);
    assert forall i | 0 <= i < |list.items| && i != index :: list'.items[i] == list.items[i];
  }

  lemma ListSame(key: string, x: Node, create: bool, length: int, q: (string, Node))
    requires q.1 != Null
    ensures SameLeaf(key, x, Intermediate(x, create, length), q)
  {
    EmptyItems(key, if length > 0 then length else 0);
  }

  lemma {:induction false} FailWalk(key: string, n: Node, parts: seq<string>, segs: seq<Seg>, val: Node, create: bool,
                                    q: (string, Node))
    requires Spells(parts, segs) && (forall g | g in segs :: -1 <= g.index <= MAX_INT) && q.1 != Null
    requires SetAt(n, parts, val, create).Put? && (SetAt(n, parts, val, create).ok ==> val == Null)
    ensures SameLeaf(key, n, SetAt(n, parts, val, create).node, q)
    decreases |segs|, 1
  {
    var g := segs[0];
    assert g in segs && ParseSegment(parts[0]) == Some(g);
    if n.Obj? {
      var x, under := Field(n, g.name), ChildKey(key, g.name);
      if g.index < 0 {
        ByName(n, parts, g, val, create);
        FailRest(under, x, parts, segs, val, create, 0, q);
        FieldSame(key, n, g.name, SetRest(x, parts, val, create, 0).node, q);
      } else {
        ByIndex(n, parts, g, val, create);
        ListSame(under, x, create, ExpectedLength(g.index), q);
        var list := Intermediate(x, create, ExpectedLength(g.index));
        if list.Arr? && g.index < |list.items| {
          FailRest(ItemKey(under, g.index), list.items[g.index], parts, segs, val, create, -1, q);
          var y := SetRest(list.items[g.index], parts, val, create, -1).node;
          ItemSame(under, list, g.index, y, q);
          FieldSame(key, n, g.name, Arr(list.items[g.index := y]), q);
        } else {
          FieldSame(key, n, g.name, list, q);
        }
      }
    }
  }

  lemma {:induction false} FailRest(under: string, x: Node, parts: seq<string>, segs: seq<Seg>, val: Node,
                                    create: bool, length: int, q: (string, Node))
    requires Spells(parts, segs) && (forall g | g in segs :: -1 <= g.index <= MAX_INT) && q.1 != Null && length <= 0
    requires SetRest(x, parts, val, create, length).Put? && (SetRest(x, parts, val, create, length).ok ==> val == Null)
    ensures SameLeaf(under, x, SetRest(x, parts, val, create, length).node, q)
    decreases |segs|, 0
  {
    if |segs| > 1 {
      RestMade(x, parts, val, create, length);
      SpellsTail(parts, segs);
      FailWalk(under, Made(x, create), parts[1..], segs[1..], val, create, q);
      EmptyItems(under, 0);
    }
  }

  lemma {:induction false} FailKeeps(n: Node, parts: seq<string>, val: Node)
    requires parts != [] && SetAt(n, parts, val, false).Put? && (SetAt(n, parts, val, false).ok ==> val == Null)
    ensures SetAt(n, parts, val, false).node == n
    decreases |parts|
  {
    var g := ParseSegment(parts[0]).value;
    if n.Obj? {
      var x := Field(n, g.name);
      if g.index < 0 {
        if |parts| > 1 {
          FailKeeps(x, parts[1..], val);
        }
      } else if x.Arr? && g.index < |x.items| {
        if |parts| > 1 {
          FailKeeps(x.items[g.index], parts[1..], val);
        }
        assert x.items[g.index := x.items[g.index]] == x.items;
      }
      SameField(n, g.name);
    }
  }

  lemma SameField(n: Node, name: string)
    requires n.Obj?
    ensures WithField(n, name, Field(n, name)) == n
  {
    if name in n.fields {
      assert n.fields[name := n.fields[name]] == n.fields;
    }
  }

  /** A write that fails, and a write of null, changes no leaf other than null, and without
      `create` nothing. */
  lemma NothingWritten(n: Node, segs: seq<Seg>, val: Node, create: bool, q: (string, Node))
    requires n.Obj? && GoodPath(segs) && (CanWrite(n, segs, create) ==> val == Null)
    ensures var p := SetValue(n, FlatKey(segs), val, create);
            && p.Put? && (p.ok <==> CanWrite(n, segs, create)) && (!create ==> p.node == n)
            && (q.1 != Null ==> (q in VisitEach("", p.node) <==> q in VisitEach("", n)))
  {
    WritesExactly(n, segs, val, create);
    PartsOfFlatKey(segs);
    if q.1 != Null {
      FailWalk("", n, Parts(FlatKey(segs)), segs, val, create, q);
    }
    if !create {
      FailKeeps(n, Parts(FlatKey(segs)), val);
    }
  }
}
