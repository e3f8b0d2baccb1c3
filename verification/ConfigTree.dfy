/** The nested configuration: maps and lists reached by flat keys such as `a.b[0].c`.
    Reading and writing by flat key agree with walking the tree.
 */
module ConfigTree {
  import opened Text
  import opened KeyFormat

  /** A string, or another scalar with what it prints as. */
  datatype Scalar = Text(text: string) | Other(kind: nat, text: string)

  datatype Node = Null | Leaf(value: Scalar) | Arr(items: seq<Node>) | Obj(fields: map<string, Node>)

  /** One dotted part of a flat key: a name, and an index or -1. */
  datatype Seg = Seg(name: string, index: int)

  /** `None` where slicing between misplaced brackets panics. A text between brackets that
      is no number counts as zero, and a negative number as no index. */
  function ParseSegment(s: string): Option<Seg> {
    var start, end := IndexOf(s, '['), IndexOf(s, ']');
    if start < 0 || end < 0 then Some(Seg(s, -1))
    else if end < start + 1 then None
    else Some(Seg(s[..start], AtoiLenient(s[start + 1..end])))
  }

  function Field(n: Node, name: string): Node
    requires n.Obj?
  {
    if name in n.fields then n.fields[name] else Null
  }

  /** Putting a field back; a missing field is not created by putting null. */
  function WithField(n: Node, name: string, v: Node): (r: Node)
    requires n.Obj?
    ensures r.Obj? && Field(r, name) == v
    ensures forall k | k != name :: k in r.fields <==> k in n.fields
    ensures forall k | k != name && k in n.fields :: r.fields[k] == n.fields[k]
    ensures name in r.fields <==> name in n.fields || v != Null
  {
    if name !in n.fields && v == Null then n else Obj(n.fields[name := v])
  }

  /***************************** Reading *****************************/

  datatype Got = Panics | Fails | Found(node: Node)

  /** Walking down the dotted parts of a key. */
  function GetAt(n: Node, parts: seq<string>): Got
    requires parts != []
    decreases |parts|, 1
  {
    match ParseSegment(parts[0])
    case None => Panics
    case Some(Seg(name, index)) =>
      if !n.Obj? then Fails
      else
        var x := Field(n, name);
        if index < 0 then Rest(x, parts)
        else if !x.Arr? || |x.items| <= index then Fails
        else Rest(x.items[index], parts)
  }

  function Rest(n: Node, parts: seq<string>): Got
    requires parts != []
    decreases |parts|, 0
  {
    if |parts| == 1 then Found(n) else GetAt(n, parts[1..])
  }

  function Parts(flatKey: string): (parts: seq<string>)
    ensures parts != []
  {
    Split(NormalizeKey(flatKey), '.')
  }

  /** `value`: null for a path that does not exist; `None` for a key that panics. */
  function Value(n: Node, flatKey: string): Option<Node> {
    match GetAt(n, Parts(flatKey))
    case Panics => None
    case Fails => Some(Null)
    case Found(v) => Some(v)
  }

  /** Descends one dotted part at a time. */
  method ReadValue(nested: Node, flatKey: string) returns (got: Got)
    ensures got == GetAt(nested, Parts(flatKey))
  {
    var key := NormalizeSegments(flatKey);
    var parts := Split(key, '.');
    var tmp := nested;
    var i := 0;
    while i < |parts|
      invariant 0 <= i <= |parts|
      invariant i < |parts| ==> GetAt(nested, parts) == GetAt(tmp, parts[i..])
      invariant i == |parts| ==> GetAt(nested, parts) == Found(tmp)
    {
      assert parts[i..][1..] == parts[i + 1..];
      match ParseSegment(parts[i]) {
        case None => return Panics;
        case Some(Seg(name, index)) =>
          if !tmp.Obj? {
            return Fails;
          }
          tmp := Field(tmp, name);
          if index >= 0 {
            if !tmp.Arr? || |tmp.items| <= index {
              return Fails;
            }
            tmp := tmp.items[index];
          }
      }
      i := i + 1;
    }
    return Found(tmp);
  }

  /***************************** Writing *****************************/

  /** The tree after a write, and whether the write went through. Nodes created on the way
      stay when it did not. */
  datatype Put = PutPanics | Put(node: Node, ok: bool)

  /** The length a list must have for an index; the largest index wraps around. */
  function ExpectedLength(index: int): int {
    if index == MAX_INT then MIN_INT else index + 1
  }

  /** A node on the way: created when missing and asked for. */
  function Intermediate(x: Node, create: bool, length: int): Node {
    if x != Null || !create then x
    else if length > 0 then Arr(seq(length, _ => Obj(map[])))
    else Obj(map[])
  }

  function Target(x: Node, val: Node): Node {
    if val == Null then x else val
  }

  function SetAt(n: Node, parts: seq<string>, val: Node, create: bool): Put
    requires parts != []
    decreases |parts|, 1
  {
    match ParseSegment(parts[0])
    case None => PutPanics
    case Some(Seg(name, index)) =>
      if !n.Obj? then Put(n, false)
      else
        var x := Field(n, name);
        if index < 0 then InField(n, name, SetRest(x, parts, val, create, ExpectedLength(index)))
        else
          var list := Intermediate(x, create, ExpectedLength(index));
          if !list.Arr? || |list.items| <= index then Put(WithField(n, name, list), false)
          else InField(n, name, InItem(list, index, SetRest(list.items[index], parts, val, create, -1)))
  }

  function SetRest(x: Node, parts: seq<string>, val: Node, create: bool, length: int): Put
    requires parts != []
    decreases |parts|, 0
  {
    if |parts| == 1 then Put(Target(x, val), true)
    else SetAt(Intermediate(x, create, length), parts[1..], val, create)
  }

  function InField(n: Node, name: string, p: Put): Put
    requires n.Obj?
  {
    match p
    case PutPanics => PutPanics
    case Put(x, ok) => Put(WithField(n, name, x), ok)
  }

  function InItem(n: Node, index: nat, p: Put): Put
    requires n.Arr? && index < |n.items|
  {
    match p
    case PutPanics => PutPanics
    case Put(x, ok) => Put(Arr(n.items[index := x]), ok)
  }

  function SetValue(n: Node, flatKey: string, val: Node, create: bool): Put {
    SetAt(n, Parts(flatKey), val, create)
  }

  lemma {:induction false} GetAfterSet(n: Node, parts: seq<string>, val: Node, create: bool)
    requires parts != [] && val != Null
    requires SetAt(n, parts, val, create).Put? && SetAt(n, parts, val, create).ok
    ensures GetAt(SetAt(n, parts, val, create).node, parts) == Found(val)
    decreases |parts|
  {
    var Seg(name, index) := ParseSegment(parts[0]).value;
    var x := Field(n, name);
    if |parts| > 1 {
      if index < 0 {
        GetAfterSet(Intermediate(x, create, ExpectedLength(index)), parts[1..], val, create);
      } else {
        var list := Intermediate(x, create, ExpectedLength(index));
        GetAfterSet(Intermediate(list.items[index], create, -1), parts[1..], val, create);
      }
    }
  }

  /** For every tree, every key and both ways of treating missing nodes: a write of a
      non-null value that goes through is read back. */
  lemma ReadBack(n: Node, flatKey: string, val: Node, create: bool)
    requires val != Null
    requires SetValue(n, flatKey, val, create).Put? && SetValue(n, flatKey, val, create).ok
    ensures Value(SetValue(n, flatKey, val, create).node, flatKey) == Some(val)
  {
    GetAfterSet(n, Parts(flatKey), val, create);
  }

  /***************************** Walking *****************************/

  predicate IsLeaf(n: Node) {
    n.Null? || n.Leaf?
  }

  function ChildKey(key: string, name: string): string {
    if key == "" then name else key + "." + name
  }

  function ItemKey(key: string, i: nat): string {
    key + "[" + Itoa(i) + "]"
  }

  /** What the walk hands out: the flat key and the value of every leaf. Maps are walked in
      no particular order, hence a set. */
  ghost function VisitEach(key: string, n: Node): set<(string, Node)>
    decreases n
  {
    match n
    case Obj(m) => set k, p | k in m && p in VisitEach(ChildKey(key, k), m[k]) :: p
    case Arr(s) => set i, p | 0 <= i < |s| && p in VisitEach(ItemKey(key, i), s[i]) :: p
    case _ => {(key, n)}
  }

  predicate GoodName(name: string) {
    name != "" && '.' !in name && '[' !in name && ']' !in name && NoUpper(name)
  }

  /** Normalised names without dots and brackets, no list directly inside a list. */
  ghost predicate GoodTree(n: Node)
    decreases n
  {
    match n
    case Obj(m) => forall k | k in m :: GoodName(k) && GoodTree(m[k])
    case Arr(s) => |s| <= MAX_INT && forall i | 0 <= i < |s| :: !s[i].Arr? && GoodTree(s[i])
    case _ => true
  }

  /** The leaf `v` sits at the end of path `segs`. */
  ghost predicate LeafAt(n: Node, segs: seq<Seg>, v: Node)
    decreases |segs|, 1
  {
    && segs != [] && n.Obj? && segs[0].name in n.fields
    && var x := n.fields[segs[0].name];
       if segs[0].index < 0 then LeafRest(x, segs, v)
       else x.Arr? && segs[0].index < |x.items| && LeafRest(x.items[segs[0].index], segs, v)
  }

  ghost predicate LeafRest(x: Node, segs: seq<Seg>, v: Node)
    requires segs != []
    decreases |segs|, 0
  {
    if |segs| == 1 then x == v && IsLeaf(v) else LeafAt(x, segs[1..], v)
  }

  predicate GoodSeg(g: Seg) {
    GoodName(g.name) && -1 <= g.index <= MAX_INT
  }

  ghost predicate GoodPath(segs: seq<Seg>) {
    segs != [] && forall g | g in segs :: GoodSeg(g)
  }

  function SegText(g: Seg): string {
    if g.index < 0 then g.name else ItemKey(g.name, g.index)
  }

  function SegTexts(segs: seq<Seg>): (ts: seq<string>)
    ensures |ts| == |segs| && forall i | 0 <= i < |segs| :: ts[i] == SegText(segs[i])
  {
    seq(|segs|, i requires 0 <= i < |segs| => SegText(segs[i]))
  }

  function FlatKey(segs: seq<Seg>): string
    requires segs != []
  {
    Join(SegTexts(segs), '.')
  }

  lemma FlatKeyCons(g: Seg, segs: seq<Seg>)
    requires segs != []
    ensures FlatKey([g] + segs) == SegText(g) + "." + FlatKey(segs)
  {
    assert SegTexts([g] + segs)[1..] == SegTexts(segs);
  }

  lemma ChildKeyAssoc(key: string, text: string, rest: string)
    requires text != ""
    ensures ChildKey(ChildKey(key, text), rest) == ChildKey(key, text + "." + rest)
  {
    if key != "" {
      assert key + "." + text + "." + rest == key + "." + (text + "." + rest);
    }
  }

  lemma ItemOfChild(key: string, name: string, i: nat)
    requires name != ""
    ensures ItemKey(ChildKey(key, name), i) == ChildKey(key, SegText(Seg(name, i)))
    ensures SegText(Seg(name, i)) != ""
  {
    if key != "" {
      assert key + "." + name + "[" + Itoa(i) + "]" == key + "." + (name + "[" + Itoa(i) + "]");
    }
  }

  /** Every pair the walk hands out is a leaf on a good path, under that path's flat key. */
  lemma {:induction false} WalkFollowsPaths(key: string, n: Node, p: (string, Node)) returns (segs: seq<Seg>)
    requires n.Obj? && GoodTree(n) && p in VisitEach(key, n)
    ensures GoodPath(segs) && LeafAt(n, segs, p.1) && p.0 == ChildKey(key, FlatKey(segs))
    decreases n, 0
  {
    var k :| k in n.fields && p in VisitEach(ChildKey(key, k), n.fields[k]);
    var x := n.fields[k];
    if x.Arr? {
      var i :| 0 <= i < |x.items| && p in VisitEach(ItemKey(ChildKey(key, k), i), x.items[i]);
      ItemOfChild(key, k, i);
      segs := ThroughSegment(key, Seg(k, i), x.items[i], p);
    } else {
      segs := ThroughSegment(key, Seg(k, -1), x, p);
    }
  }

  lemma {:induction false} ThroughSegment(key: string, g: Seg, x: Node, p: (string, Node)) returns (segs: seq<Seg>)
    requires GoodSeg(g) && SegText(g) != "" && !x.Arr? && GoodTree(x)
    requires p in VisitEach(ChildKey(key, SegText(g)), x)
    ensures GoodPath(segs) && segs[0] == g && LeafRest(x, segs, p.1) && p.0 == ChildKey(key, FlatKey(segs))
    decreases x, 1
  {
    if x.Obj? {
      var rest := WalkFollowsPaths(ChildKey(key, SegText(g)), x, p);
      segs := [g] + rest;
      FlatKeyCons(g, rest);
      ChildKeyAssoc(key, SegText(g), FlatKey(rest));
      assert segs[1..] == rest;
    } else {
      segs := [g];
    }
  }

  /** Every leaf is handed out under the flat key of its path. */
  lemma {:induction false} PathsAreWalked(key: string, n: Node, segs: seq<Seg>, v: Node)
    requires GoodPath(segs) && LeafAt(n, segs, v)
    ensures (ChildKey(key, FlatKey(segs)), v) in VisitEach(key, n)
    decreases |segs|
  {
    var g := segs[0];
    assert g in segs;
    var x := n.fields[g.name];
    var p := (ChildKey(key, FlatKey(segs)), v);
    if g.index < 0 {
      RestIsWalked(key, g, x, segs, v);
      assert p in VisitEach(ChildKey(key, g.name), x);
    } else {
      ItemOfChild(key, g.name, g.index);
      RestIsWalked(key, g, x.items[g.index], segs, v);
      assert p in VisitEach(ItemKey(ChildKey(key, g.name), g.index), x.items[g.index]);
      assert p in VisitEach(ChildKey(key, g.name), x);
    }
  }

  lemma {:induction false} RestIsWalked(key: string, g: Seg, x: Node, segs: seq<Seg>, v: Node)
    requires GoodPath(segs) && g == segs[0] && SegText(g) != "" && LeafRest(x, segs, v)
    ensures (ChildKey(key, FlatKey(segs)), v) in VisitEach(ChildKey(key, SegText(g)), x)
    decreases |segs|, 0
  {
    if |segs| > 1 {
      PathsAreWalked(ChildKey(key, SegText(g)), x, segs[1..], v);
      assert segs == [g] + segs[1..];
      FlatKeyCons(g, segs[1..]);
      ChildKeyAssoc(key, SegText(g), FlatKey(segs[1..]));
    }
  }

  /***************************** Keys of good paths *****************************/

  lemma Brackets(name: string, digits: string)
    requires '[' !in name && ']' !in name && '[' !in digits && ']' !in digits
    ensures var s := name + "[" + digits + "]";
            && IndexOf(s, '[') == |name| && IndexOf(s, ']') == |name| + 1 + |digits|
            && s[..|name|] == name && s[|name| + 1..|name| + 1 + |digits|] == digits
  {
    var s := name + "[" + digits + "]";
    FirstIndex(s, '[', |name|);
    assert s[..|name| + 1 + |digits|] == name + "[" + digits;
    FirstIndex(s, ']', |name| + 1 + |digits|);
  }

  lemma ParseSegText(g: Seg)
    requires GoodSeg(g)
    ensures ParseSegment(SegText(g)) == Some(g)
    ensures '.' !in SegText(g) && NoUpper(SegText(g))
  {
    if g.index >= 0 {
      ParseItem(g.name, g.index);
    } else {
      ParseName(g.name);
    }
  }

  lemma ParseName(name: string)
    requires GoodName(name)
    ensures ParseSegment(name) == Some(Seg(name, -1))
  {
  }

  /** A text between brackets that is no number counts as zero, minus one as no index;
      brackets the wrong way round panic, and the length for the largest index overflows. */
  lemma OddSegments(name: string, text: string)
    requires '[' !in name && ']' !in name && '[' !in text && ']' !in text && Decimal(text).None?
    ensures ParseSegment(name + "[" + text + "]") == Some(Seg(name, 0))
    ensures ParseSegment(name + "[" + "-1" + "]") == Some(Seg(name, -1)) == ParseSegment(name)
    ensures ParseSegment(name + "]" + "[").None?
    ensures ExpectedLength(MAX_INT) < 0
  {
    Brackets(name, text);
    Brackets(name, "-1");
    assert "-1"[1..] == "1" && DigitsValue("1") == 1 && Decimal("-1") == Some(-1);
    var s := name + "]" + "[";
    FirstIndex(s, ']', |name|);
    FirstIndex(s, '[', |name| + 1);
    assert IndexOf(name, '[') < 0 && IndexOf(name, ']') < 0;
  }

  lemma ParseItem(name: string, index: nat)
    requires GoodName(name) && index <= MAX_INT
    ensures ParseSegment(ItemKey(name, index)) == Some(Seg(name, index))
    ensures '.' !in ItemKey(name, index) && NoUpper(ItemKey(name, index))
  {
    AtoiItoa(index);
    Brackets(name, Itoa(index));
  }

  lemma FirstIndex(s: string, c: char, i: nat)
    requires i < |s| && s[i] == c && c !in s[..i]
    ensures IndexOf(s, c) == i
  {
    var j := IndexOf(s, c);
    var low := if j < i then j else i;
    assert low >= 0 ==> s[low] == s[..low + 1][low];
  }

  lemma {:induction false} FlatKeyIsLower(segs: seq<Seg>)
    requires GoodPath(segs)
    ensures NoUpper(FlatKey(segs))
  {
    assert segs[0] in segs;
    ParseSegText(segs[0]);
    if |segs| > 1 {
      FlatKeyIsLower(segs[1..]);
      assert segs == [segs[0]] + segs[1..];
      FlatKeyCons(segs[0], segs[1..]);
    }
  }

  /** The dotted parts of a good path's flat key are its segments. */
  lemma PartsOfFlatKey(segs: seq<Seg>)
    requires GoodPath(segs)
    ensures Parts(FlatKey(segs)) == SegTexts(segs)
    ensures forall i | 0 <= i < |segs| :: ParseSegment(SegTexts(segs)[i]) == Some(segs[i])
  {
    FlatKeyIsLower(segs);
    NormalizeIdempotent(FlatKey(segs));
    forall i | 0 <= i < |segs|
      ensures ParseSegment(SegText(segs[i])) == Some(segs[i]) && '.' !in SegText(segs[i])
    {
      ParseSegText(segs[i]);
    }
    SplitJoin(SegTexts(segs), '.');
  }

  /** Different paths have different flat keys. */
  lemma FlatKeyInjective(a: seq<Seg>, b: seq<Seg>)
    requires GoodPath(a) && GoodPath(b) && FlatKey(a) == FlatKey(b)
    ensures a == b
  {
    PartsOfFlatKey(a);
    PartsOfFlatKey(b);
    forall i | 0 <= i < |a|
      ensures a[i] == b[i]
    {
      assert SegTexts(a)[i] == SegTexts(b)[i];
    }
  }

  ghost predicate Spells(parts: seq<string>, segs: seq<Seg>) {
    && |parts| == |segs| && segs != []
    && forall i | 0 <= i < |segs| :: ParseSegment(parts[i]) == Some(segs[i])
  }

  lemma SpellsTail(parts: seq<string>, segs: seq<Seg>)
    requires Spells(parts, segs) && |segs| > 1
    ensures Spells(parts[1..], segs[1..])
  {
  }

  lemma {:induction false} GetLeaf(n: Node, parts: seq<string>, segs: seq<Seg>, v: Node)
    requires Spells(parts, segs) && LeafAt(n, segs, v)
    ensures GetAt(n, parts) == Found(v)
    decreases |segs|
  {
    if |segs| > 1 {
      SpellsTail(parts, segs);
      var x := n.fields[segs[0].name];
      GetLeaf(if segs[0].index < 0 then x else x.items[segs[0].index], parts[1..], segs[1..], v);
    }
  }

  /** Every pair the walk hands out is read back by its key. */
  lemma WalkedLeavesReadBack(n: Node, p: (string, Node))
    requires n.Obj? && GoodTree(n) && p in VisitEach("", n)
    ensures Value(n, p.0) == Some(p.1)
  {
    var segs := WalkFollowsPaths("", n, p);
    PartsOfFlatKey(segs);
    GetLeaf(n, Parts(FlatKey(segs)), segs, p.1);
  }

  /***************************** Writing over a leaf *****************************/

  /** The node a segment leads to, and the tree with that node replaced. */
  ghost predicate Leads(n: Node, g: Seg) {
    n.Obj? && g.name in n.fields && (g.index >= 0 ==> n.fields[g.name].Arr? && g.index < |n.fields[g.name].items|)
  }

  function Child(n: Node, g: Seg): Node
    requires Leads(n, g)
  {
    if g.index < 0 then n.fields[g.name] else n.fields[g.name].items[g.index]
  }

  function WithChild(n: Node, g: Seg, y: Node): Node
    requires Leads(n, g)
  {
    if g.index < 0 then Obj(n.fields[g.name := y])
    else Obj(n.fields[g.name := Arr(n.fields[g.name].items[g.index := y])])
  }

  /** The tree with the leaf at the end of `segs` replaced by `val`, which may be a tree. */
  ghost function Graft(n: Node, segs: seq<Seg>, was: Node, val: Node): (r: Node)
    requires LeafAt(n, segs, was)
    ensures r.Obj?
    decreases |segs|, 1
  {
    WithChild(n, segs[0], GraftRest(Child(n, segs[0]), segs, was, val))
  }

  ghost function GraftRest(x: Node, segs: seq<Seg>, was: Node, val: Node): Node
    requires segs != [] && LeafRest(x, segs, was)
    decreases |segs|, 0
  {
    if |segs| == 1 then val else Graft(x, segs[1..], was, val)
  }

  /** Writing over a leaf goes through, whatever is written; null is never written. */
  lemma {:induction false} SetIsGraft(n: Node, parts: seq<string>, segs: seq<Seg>, was: Node, val: Node, create: bool)
    requires Spells(parts, segs) && LeafAt(n, segs, was)
    ensures SetAt(n, parts, val, create) == Put(Graft(n, segs, was, Target(was, val)), true)
    decreases |segs|
  {
    var g := segs[0];
    assert ParseSegment(parts[0]) == Some(g);
    var x := Child(n, g);
    if |segs| > 1 {
      SpellsTail(parts, segs);
      SetIsGraft(x, parts[1..], segs[1..], was, val, create);
    }
    SetStep(n, parts, g, val, create, GraftRest(x, segs, was, Target(was, val)));
  }

  /** One step of a write that goes through. */
  lemma SetStep(n: Node, parts: seq<string>, g: Seg, val: Node, create: bool, y: Node)
    requires parts != [] && ParseSegment(parts[0]) == Some(g) && Leads(n, g)
    requires if |parts| == 1 then y == Target(Child(n, g), val)
             else Child(n, g).Obj? && SetAt(Child(n, g), parts[1..], val, create) == Put(y, true) && y.Obj?
    ensures SetAt(n, parts, val, create) == Put(WithChild(n, g, y), true)
  {
    assert SetRest(Child(n, g), parts, val, create, if g.index < 0 then ExpectedLength(g.index) else -1) == Put(y, true);
  }

  lemma {:induction false} GraftSame(n: Node, segs: seq<Seg>, was: Node)
    requires LeafAt(n, segs, was)
    ensures Graft(n, segs, was, was) == n
    decreases |segs|
  {
    var g := segs[0];
    var x := Child(n, g);
    if |segs| > 1 {
      GraftSame(x, segs[1..], was);
    }
    assert GraftRest(x, segs, was, was) == x;
    if g.index >= 0 {
      assert n.fields[g.name].items[g.index := x] == n.fields[g.name].items;
    }
    assert n.fields[g.name := n.fields[g.name]] == n.fields;
  }

  predicate SameStep(g: Seg, h: Seg) {
    g.name == h.name && (g.index == h.index || (g.index < 0 && h.index < 0))
  }

  predicate Nowhere(got: Got) {
    got == Fails || got == Found(Null)
  }

  /** A path that leads nowhere still leads nowhere when a scalar replaces a scalar. */
  lemma {:induction false} NowhereStays(n: Node, segs: seq<Seg>, was: Node, val: Node, parts: seq<string>)
    requires LeafAt(n, segs, was) && was.Leaf? && val.Leaf? && parts != [] && Nowhere(GetAt(n, parts))
    ensures GetAt(Graft(n, segs, was, val), parts) == GetAt(n, parts)
    decreases |segs|
  {
    var g, h := segs[0], ParseSegment(parts[0]).value;
    var x := Child(n, g);
    var y := GraftRest(x, segs, was, val);
    if |segs| > 1 {
      assert LeafAt(x, segs[1..], was);
      if SameStep(g, h) && |parts| > 1 {
        StepInto(n, g, parts);
        NowhereStays(x, segs[1..], was, val, parts[1..]);
      }
    }
    if SameStep(g, h) {
      SameChild(n, g, y, parts);
    } else {
      OtherChild(n, g, y, parts);
    }
  }

  ghost predicate Alike(x: Node, y: Node) {
    (x.Leaf? && y.Leaf?) || (x.Obj? && y.Obj?)
  }

  lemma SameChild(n: Node, g: Seg, y: Node, parts: seq<string>)
    requires Leads(n, g) && Alike(Child(n, g), y) && parts != [] && Nowhere(GetAt(n, parts))
    requires ParseSegment(parts[0]).Some? && SameStep(g, ParseSegment(parts[0]).value)
    requires |parts| > 1 && y.Obj? ==> GetAt(y, parts[1..]) == GetAt(Child(n, g), parts[1..])
    ensures GetAt(WithChild(n, g, y), parts) == GetAt(n, parts)
  {
    StepInto(n, g, parts);
    WithChildLeads(n, g, y);
    StepInto(WithChild(n, g, y), g, parts);
    RestAlike(Child(n, g), y, parts);
  }

  lemma StepInto(n: Node, g: Seg, parts: seq<string>)
    requires Leads(n, g) && parts != []
    requires ParseSegment(parts[0]).Some? && SameStep(g, ParseSegment(parts[0]).value)
    ensures GetAt(n, parts) == Rest(Child(n, g), parts)
  {
  }

  lemma WithChildLeads(n: Node, g: Seg, y: Node)
    requires Leads(n, g)
    ensures Leads(WithChild(n, g, y), g) && Child(WithChild(n, g, y), g) == y
  {
  }

  lemma RestAlike(x: Node, y: Node, parts: seq<string>)
    requires Alike(x, y) && parts != [] && Nowhere(Rest(x, parts))
    requires |parts| > 1 && y.Obj? ==> GetAt(y, parts[1..]) == GetAt(x, parts[1..])
    ensures Rest(y, parts) == Rest(x, parts)
  {
  }

  lemma OtherChild(n: Node, g: Seg, y: Node, parts: seq<string>)
    requires Leads(n, g) && Alike(Child(n, g), y) && parts != [] && Nowhere(GetAt(n, parts))
    requires ParseSegment(parts[0]).Some? && !SameStep(g, ParseSegment(parts[0]).value)
    ensures GetAt(WithChild(n, g, y), parts) == GetAt(n, parts)
  {
    var h := ParseSegment(parts[0]).value;
    if h.name == g.name && g.index >= 0 {
      var list := n.fields[g.name];
      if h.index < 0 {
        InsideList(list, Arr(list.items[g.index := y]), parts);
      }
    }
  }

  lemma InsideList(a: Node, b: Node, parts: seq<string>)
    requires a.Arr? && b.Arr? && parts != [] && Nowhere(Rest(a, parts))
    ensures Rest(b, parts) == Rest(a, parts)
  {
  }

  /** `q` comes from another child than the one `g` leads to. */
  ghost predicate Elsewhere(key: string, n: Node, g: Seg, q: (string, Node))
    requires Leads(n, g)
  {
    || (exists k :: k in n.fields && k != g.name && q in VisitEach(ChildKey(key, k), n.fields[k]))
    || (g.index >= 0 && exists i :: 0 <= i < |n.fields[g.name].items| && i != g.index &&
                                    q in VisitEach(ItemKey(ChildKey(key, g.name), i), n.fields[g.name].items[i]))
  }

  /** The walk hands out what comes from one child and what comes from the others. */
  lemma WalkSplits(key: string, n: Node, g: Seg, q: (string, Node))
    requires Leads(n, g) && g.name != ""
    ensures q in VisitEach(key, n) <==> q in VisitEach(ChildKey(key, SegText(g)), Child(n, g)) || Elsewhere(key, n, g, q)
  {
    if g.index >= 0 {
      ItemOfChild(key, g.name, g.index);
      ListSplits(ChildKey(key, g.name), n.fields[g.name], g.index, q);
    }
    assert q in VisitEach(key, n) <==> exists k :: k in n.fields && q in VisitEach(ChildKey(key, k), n.fields[k]);
  }

  lemma ListSplits(key: string, x: Node, index: nat, q: (string, Node))
    requires x.Arr? && index < |x.items|
    ensures q in VisitEach(key, x) <==>
            q in VisitEach(ItemKey(key, index), x.items[index]) ||
            exists i :: 0 <= i < |x.items| && i != index && q in VisitEach(ItemKey(key, i), x.items[i])
  {
    assert q in VisitEach(key, x) <==> exists i :: 0 <= i < |x.items| && q in VisitEach(ItemKey(key, i), x.items[i]);
  }

  lemma SameElsewhere(key: string, n: Node, g: Seg, y: Node, q: (string, Node))
    requires Leads(n, g)
    ensures Leads(WithChild(n, g, y), g)
    ensures Elsewhere(key, WithChild(n, g, y), g, q) <==> Elsewhere(key, n, g, q)
  {
    var n' := WithChild(n, g, y);
    assert forall k | k in n.fields && k != g.name :: n'.fields[k] == n.fields[k];
  }

  lemma ChildKeyInjective(key: string, a: string, b: string)
    requires ChildKey(key, a) == ChildKey(key, b)
    ensures a == b
  {
    if key != "" {
      var s := key + "." + a;
      assert s[|key| + 1..] == a && s == key + "." + b;
    }
  }

  /** Keys from other children differ from those below `g`. */
  lemma OtherKey(key: string, n: Node, segs: seq<Seg>, q: (string, Node))
    requires n.Obj? && GoodTree(n) && GoodPath(segs) && Leads(n, segs[0]) && Elsewhere(key, n, segs[0], q)
    requires segs[0].index < 0 ==> !n.fields[segs[0].name].Arr?
    ensures q.0 != ChildKey(key, FlatKey(segs))
  {
    var g := segs[0];
    var other: seq<Seg>;
    if k :| k in n.fields && k != g.name && q in VisitEach(ChildKey(key, k), n.fields[k]) {
      other := PathThroughField(key, n, k, q);
    } else {
      var i :| 0 <= i < |n.fields[g.name].items| && i != g.index &&
               q in VisitEach(ItemKey(ChildKey(key, g.name), i), n.fields[g.name].items[i]);
      ItemOfChild(key, g.name, i);
      other := ThroughSegment(key, Seg(g.name, i), n.fields[g.name].items[i], q);
    }
    if q.0 == ChildKey(key, FlatKey(segs)) {
      ChildKeyInjective(key, FlatKey(other), FlatKey(segs));
      FlatKeyInjective(other, segs);
    }
  }

  lemma PathThroughField(key: string, n: Node, k: string, q: (string, Node)) returns (segs: seq<Seg>)
    requires n.Obj? && GoodTree(n) && k in n.fields && q in VisitEach(ChildKey(key, k), n.fields[k])
    ensures GoodPath(segs) && segs[0].name == k && q.0 == ChildKey(key, FlatKey(segs))
  {
    var x := n.fields[k];
    if x.Arr? {
      var i :| 0 <= i < |x.items| && q in VisitEach(ItemKey(ChildKey(key, k), i), x.items[i]);
      ItemOfChild(key, k, i);
      segs := ThroughSegment(key, Seg(k, i), x.items[i], q);
    } else {
      segs := ThroughSegment(key, Seg(k, -1), x, q);
    }
  }

  /** Walking the new tree hands out the leaves of what was put in, and all the others. */
  lemma {:induction false} GraftWalk(key: string, n: Node, segs: seq<Seg>, was: Node, val: Node, q: (string, Node))
    requires n.Obj? && GoodTree(n) && GoodPath(segs) && LeafAt(n, segs, was)
    ensures var at := ChildKey(key, FlatKey(segs));
            q in VisitEach(key, Graft(n, segs, was, val)) <==>
            q in VisitEach(at, val) || (q in VisitEach(key, n) && q.0 != at)
    decreases |segs|, 1
  {
    var g := segs[0];
    assert g in segs;
    var y := GraftRest(Child(n, g), segs, was, val);
    GraftBelow(key, Child(n, g), segs, was, val, q);
    WalkSplits(key, n, g, q);
    SameElsewhere(key, n, g, y, q);
    WithChildLeads(n, g, y);
    WalkSplits(key, WithChild(n, g, y), g, q);
    if Elsewhere(key, n, g, q) {
      NotAList(n, segs, was);
      OtherKey(key, n, segs, q);
    }
  }

  lemma NotAList(n: Node, segs: seq<Seg>, was: Node)
    requires LeafAt(n, segs, was)
    ensures segs[0].index < 0 ==> !n.fields[segs[0].name].Arr?
  {
    if |segs| > 1 {
      assert LeafAt(Child(n, segs[0]), segs[1..], was);
    }
  }

  lemma {:induction false} GraftBelow(key: string, x: Node, segs: seq<Seg>, was: Node, val: Node, q: (string, Node))
    requires GoodTree(x) && GoodPath(segs) && LeafRest(x, segs, was)
    ensures var at, under := ChildKey(key, FlatKey(segs)), ChildKey(key, SegText(segs[0]));
            q in VisitEach(under, GraftRest(x, segs, was, val)) <==>
            q in VisitEach(at, val) || (q in VisitEach(under, x) && q.0 != at)
    decreases |segs|, 0
  {
    var g := segs[0];
    assert g in segs;
    if |segs| > 1 {
      assert segs == [g] + segs[1..];
      FlatKeyCons(g, segs[1..]);
      SegTextNotEmpty(g);
      ChildKeyAssoc(key, SegText(g), FlatKey(segs[1..]));
      GraftWalk(ChildKey(key, SegText(g)), x, segs[1..], was, val, q);
    } else {
      LoneKey(segs);
    }
  }

  lemma LoneKey(segs: seq<Seg>)
    requires |segs| == 1
    ensures FlatKey(segs) == SegText(segs[0])
  {
  }

  lemma SegTextNotEmpty(g: Seg)
    requires GoodSeg(g)
    ensures SegText(g) != ""
  {
  }

  ghost predicate FitsAt(segs: seq<Seg>, val: Node)
    requires segs != []
  {
    GoodTree(val) && (val.Arr? ==> segs[|segs| - 1].index < 0)
  }

  lemma {:induction false} GraftKeepsGood(n: Node, segs: seq<Seg>, was: Node, val: Node)
    requires LeafAt(n, segs, was) && GoodTree(n) && FitsAt(segs, val)
    ensures GoodTree(Graft(n, segs, was, val))
    decreases |segs|
  {
    var g := segs[0];
    var x := Child(n, g);
    if |segs| > 1 {
      GraftKeepsGood(x, segs[1..], was, val);
    }
    var y := GraftRest(x, segs, was, val);
    if g.index >= 0 {
      var list := Arr(n.fields[g.name].items[g.index := y]);
      assert GoodTree(list);
    }
  }

  /** The leaves of a tree by flat key. */
  ghost function Flat(n: Node): (leaves: map<string, Node>)
    requires n.Obj? && GoodTree(n)
    ensures forall p :: p in VisitEach("", n) <==> p.0 in leaves && leaves[p.0] == p.1
  {
    KeysAreUnique(n);
    map p | p in VisitEach("", n) :: p.0 := p.1
  }

  lemma KeysAreUnique(n: Node)
    requires n.Obj? && GoodTree(n)
    ensures forall p, q | p in VisitEach("", n) && q in VisitEach("", n) && p.0 == q.0 :: p == q
  {
    forall p, q | p in VisitEach("", n) && q in VisitEach("", n) && p.0 == q.0
      ensures p == q
    {
      WalkedLeavesReadBack(n, p);
      WalkedLeavesReadBack(n, q);
    }
  }

  /** Writing anything but null over a leaf goes through. The walk then hands out the leaves
      of what was written, and every other leaf as before. */
  lemma WriteOneLeaf(n: Node, segs: seq<Seg>, was: Node, val: Node, create: bool)
    requires n.Obj? && GoodTree(n) && GoodPath(segs) && LeafAt(n, segs, was) && val != Null
    ensures var p := SetValue(n, FlatKey(segs), val, create);
            && p.Put? && p.ok && p.node.Obj? && (FitsAt(segs, val) ==> GoodTree(p.node))
            && forall q: (string, Node) :: q in VisitEach("", p.node) <==>
                 q in VisitEach(FlatKey(segs), val) || (q in VisitEach("", n) && q.0 != FlatKey(segs))
  {
    PartsOfFlatKey(segs);
    SetIsGraft(n, Parts(FlatKey(segs)), segs, was, val, create);
    if FitsAt(segs, val) {
      GraftKeepsGood(n, segs, was, val);
    }
    forall q: (string, Node)
      ensures q in VisitEach("", Graft(n, segs, was, val)) <==>
              q in VisitEach(FlatKey(segs), val) || (q in VisitEach("", n) && q.0 != FlatKey(segs))
    {
      GraftWalk("", n, segs, was, val, q);
    }
  }

  ghost predicate MapsTo(m: map<string, Node>, k: string, v: Node) {
    k in m && m[k] == v
  }

  /** Reading and writing a leaf by its flat key is reading and updating the flat map of
      leaves: the write goes through, changes that leaf and no other. */
  lemma TreeIsItsFlatMap(n: Node, key: string, val: Node, create: bool)
    requires n.Obj? && GoodTree(n) && key in Flat(n) && val != Null
    ensures Value(n, key) == Some(Flat(n)[key])
    ensures var p := SetValue(n, key, val, create);
            && p.Put? && p.ok && p.node.Obj? && (val.Leaf? ==> GoodTree(p.node))
            && (GoodTree(p.node) ==> forall k, v :: MapsTo(Flat(p.node), k, v) <==>
                  (k, v) in VisitEach(key, val) || (k != key && MapsTo(Flat(n), k, v)))
  {
    var was := (key, Flat(n)[key]);
    assert was in VisitEach("", n);
    WalkedLeavesReadBack(n, was);
    var segs := WalkFollowsPaths("", n, was);
    WriteOneLeaf(n, segs, was.1, val, create);
    var n' := SetValue(n, key, val, create).node;
    if GoodTree(n') {
      forall k, v
        ensures MapsTo(Flat(n'), k, v) <==> (k, v) in VisitEach(key, val) || (k != key && MapsTo(Flat(n), k, v))
      {
        FlatHolds(n', k, v);
        FlatHolds(n, k, v);
      }
    }
  }

  lemma FlatHolds(n: Node, k: string, v: Node)
    requires n.Obj? && GoodTree(n)
    ensures MapsTo(Flat(n), k, v) <==> (k, v) in VisitEach("", n)
  {
    assert (k, v) in VisitEach("", n) <==> (k, v).0 in Flat(n) && Flat(n)[(k, v).0] == (k, v).1;
  }

  /** Writing a scalar over a leaf updates the flat map at its key. */
  lemma ScalarUpdatesFlatMap(n: Node, key: string, val: Node, create: bool)
    requires n.Obj? && GoodTree(n) && key in Flat(n) && val.Leaf?
    ensures var p := SetValue(n, key, val, create);
            && p.Put? && p.ok && p.node.Obj? && GoodTree(p.node)
            && Flat(p.node) == Flat(n)[key := val]
  {
    TreeIsItsFlatMap(n, key, val, create);
    Updated(Flat(n), Flat(SetValue(n, key, val, create).node), key, val);
  }

  lemma Updated(a: map<string, Node>, b: map<string, Node>, key: string, val: Node)
    requires val.Leaf? && forall k, v :: MapsTo(b, k, v) <==> (k, v) in VisitEach(key, val) || (k != key && MapsTo(a, k, v))
    ensures b == a[key := val]
  {
    forall k, v
      ensures MapsTo(b, k, v) <==> MapsTo(a[key := val], k, v)
    {
      assert (k, v) in VisitEach(key, val) <==> (k, v) == (key, val);
    }
    SameMap(b, a[key := val]);
  }

  lemma SameMap(a: map<string, Node>, b: map<string, Node>)
    requires forall k, v :: MapsTo(a, k, v) <==> MapsTo(b, k, v)
    ensures a == b
  {
    forall k
      ensures k in a <==> k in b
      ensures k in a ==> a[k] == b[k]
    {
      assert k in a ==> MapsTo(a, k, a[k]);
      assert k in b ==> MapsTo(b, k, b[k]);
    }
  }
}
