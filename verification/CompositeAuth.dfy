/** Composite authenticators: nested composites are flattened level by level with a stable
    sort at every level, and candidates are offered to the flattened list in order.
 */
module CompositeAuth {
  import opened Collections
  import opened Ordering
  import opened Text

  /** A plain authenticator with its order, or a composite. Composites have no order. */
  datatype Auth = Plain(id: nat, key: Key) | Composite(id: nat, children: seq<Auth>)

  function KeyOf(a: Auth): Key {
    if a.Plain? then a.key else Unordered
  }

  predicate AuthLe(a: Auth, b: Auth) {
    !Less(KeyOf(b), KeyOf(a))
  }

  lemma AuthLeIsPreorder()
    ensures TotalPreorder(AuthLe)
  {
    forall a: Auth, b: Auth
      ensures AuthLe(a, b) || AuthLe(b, a)
    {
      LessIsTotal(KeyOf(a), KeyOf(b), KeyOf(a));
    }
    forall a: Auth, b: Auth, c: Auth | AuthLe(a, b) && AuthLe(b, c)
      ensures AuthLe(a, c)
    {
      LessIsTotal(KeyOf(c), KeyOf(a), KeyOf(b));
      LessIsTotal(KeyOf(b), KeyOf(c), KeyOf(a));
      LessIsTotal(KeyOf(a), KeyOf(b), KeyOf(c));
    }
  }

  /***************************** Flattening *****************************/

  /** `Authenticators`: composites among the children are flattened first, then the whole
      list is sorted. */
  function Flatten(a: Auth): seq<Auth>
    decreases a, 1, 0
  {
    if a.Plain? then [a] else StableSort(FlattenEach(a, a.children), AuthLe)
  }

  function FlattenEach(a: Auth, children: seq<Auth>): seq<Auth>
    requires a.Composite? && forall c | c in children :: c in a.children
    decreases a, 0, |children|
  {
    if children == [] then []
    else
      assert children[0] in a.children;
      Flatten(children[0]) + FlattenEach(a, children[1..])
  }

  /** The plain authenticators of a tree from left to right. */
  function Leaves(a: Auth): seq<Auth>
    decreases a, 1, 0
  {
    if a.Plain? then [a] else LeavesOfEach(a, a.children)
  }

  function LeavesOfEach(a: Auth, children: seq<Auth>): seq<Auth>
    requires a.Composite? && forall c | c in children :: c in a.children
    decreases a, 0, |children|
  {
    if children == [] then []
    else
      assert children[0] in a.children;
      Leaves(children[0]) + LeavesOfEach(a, children[1..])
  }

  /** The sorts at inner levels are harmless: flattening level by level gives one stable
      sort of the leaves in tree order. */
  lemma {:induction false} FlattenIsOneSort(a: Auth)
    ensures Flatten(a) == StableSort(Leaves(a), AuthLe)
    decreases a, 1
  {
    AuthLeIsPreorder();
    if a.Plain? {
      assert [a][1..] == [];
    } else {
      EachIsOneSort(a, a.children, []);
      assert [] + FlattenEach(a, a.children) == FlattenEach(a, a.children);
      assert [] + LeavesOfEach(a, a.children) == LeavesOfEach(a, a.children);
    }
  }

  lemma {:induction false} EachIsOneSort(a: Auth, children: seq<Auth>, before: seq<Auth>)
    requires a.Composite? && forall c | c in children :: c in a.children
    ensures StableSort(before + FlattenEach(a, children), AuthLe) == StableSort(before + LeavesOfEach(a, children), AuthLe)
    decreases a, 0, |children|
  {
    if children != [] {
      var c := children[0];
      assert c in a.children;
      var rest, leaves := FlattenEach(a, children[1..]), LeavesOfEach(a, children[1..]);
      AuthLeIsPreorder();
      calc {
        StableSort(before + FlattenEach(a, children), AuthLe);
        { Regroup(before, Flatten(c), rest); }
        StableSort(before + Flatten(c) + rest, AuthLe);
        { FlattenIsOneSort(c); }
        StableSort(before + StableSort(Leaves(c), AuthLe) + rest, AuthLe);
        { SortPartFirst(before, Leaves(c), rest, AuthLe); }
        StableSort(before + Leaves(c) + rest, AuthLe);
        { EachIsOneSort(a, children[1..], before + Leaves(c)); }
        StableSort(before + Leaves(c) + leaves, AuthLe);
        { Regroup(before, Leaves(c), leaves); }
        StableSort(before + LeavesOfEach(a, children), AuthLe);
      }
    }
  }

  /** Flattening loses and duplicates nothing, and leaves no composite. */
  lemma {:induction false} FlattenKeepsLeaves(a: Auth)
    ensures multiset(Flatten(a)) == multiset(Leaves(a)) && Sorted(Flatten(a), AuthLe)
    ensures forall x | x in Flatten(a) :: x.Plain?
  {
    AuthLeIsPreorder();
    FlattenIsOneSort(a);
    StableSortSorts(Leaves(a), AuthLe);
    LeavesArePlain(a);
  }

  lemma {:induction false} LeavesArePlain(a: Auth)
    ensures forall x | x in Leaves(a) :: x.Plain?
    decreases a, 1
  {
    if a.Composite? {
      LeavesOfEachArePlain(a, a.children);
    }
  }

  lemma {:induction false} LeavesOfEachArePlain(a: Auth, children: seq<Auth>)
    requires a.Composite? && forall c | c in children :: c in a.children
    ensures forall x | x in LeavesOfEach(a, children) :: x.Plain?
    decreases a, 0, |children|
  {
    if children != [] {
      assert children[0] in a.children;
      LeavesArePlain(children[0]);
      LeavesOfEachArePlain(a, children[1..]);
    }
  }

  /** The leaves of a composite are those of its children, in their order. */
  lemma {:induction false} LeavesInTreeOrder(id: nat, a: seq<Auth>, b: seq<Auth>)
    ensures Leaves(Composite(id, a + b)) == Leaves(Composite(id, a)) + Leaves(Composite(id, b))
    ensures |b| == 1 ==> Leaves(Composite(id, b)) == Leaves(b[0])
    ensures Leaves(Composite(id, [])) == []
  {
    EachConcat(Composite(id, a + b), a, b);
    EachAnywhere(Composite(id, a + b), Composite(id, a), a);
    EachAnywhere(Composite(id, a + b), Composite(id, b), b);
    if |b| == 1 {
      EmptyRight(Leaves(b[0]));
    }
  }

  lemma {:induction false} EachConcat(c: Auth, a: seq<Auth>, b: seq<Auth>)
    requires c.Composite? && forall x | x in a + b :: x in c.children
    ensures forall x | x in a || x in b :: x in a + b
    ensures LeavesOfEach(c, a + b) == LeavesOfEach(c, a) + LeavesOfEach(c, b)
    decreases |a|
  {
    if a == [] {
      EmptyLeft(b);
    } else {
      HeadOfConcat(a, b);
      EachConcat(c, a[1..], b);
      Regroup(Leaves(a[0]), LeavesOfEach(c, a[1..]), LeavesOfEach(c, b));
    }
  }

  /** Whose children they are makes no difference. */
  lemma {:induction false} EachAnywhere(c: Auth, d: Auth, children: seq<Auth>)
    requires c.Composite? && d.Composite? && forall x | x in children :: x in c.children && x in d.children
    ensures LeavesOfEach(c, children) == LeavesOfEach(d, children)
    decreases |children|
  {
    if children != [] {
      EachAnywhere(c, d, children[1..]);
    }
  }

  /** The first `p` are priority ordered and the next ones up to `o` are ordered, both by
      number; the rest has no order, as composites have none. */
  ghost predicate RankedAt(list: seq<Auth>, p: nat, o: nat) {
    && p <= o <= |list|
    && (forall i | 0 <= i < |list| :: i < p <==> list[i].Plain? && list[i].key.Priority?)
    && (forall i | 0 <= i < |list| :: o <= i <==> list[i].Composite? || list[i].key.Unordered?)
    && (forall i, j | 0 <= i < j < p :: list[i].key.n <= list[j].key.n)
    && (forall i, j | p <= i < j < o :: list[i].key.n <= list[j].key.n)
  }

  ghost predicate Ranked(list: seq<Auth>) {
    exists p, o :: RankedAt(list, p, o)
  }

  lemma SortedIsRanked(list: seq<Auth>)
    requires Sorted(list, AuthLe)
    ensures Ranked(list)
  {
    assert InOrder(list, KeyOf);
    InOrderIsByClass(list, KeyOf);
    var p, o :| ClassesAt(list, KeyOf, p, o);
    assert RankedAt(list, p, o);
  }

  /** The authenticators with a given order, from left to right. */
  function Having(list: seq<Auth>, key: Key): seq<Auth> {
    if list == [] then []
    else (if list[0].Plain? && list[0].key == key then [list[0]] else []) + Having(list[1..], key)
  }

  lemma {:induction false} HavingIsOfKey(list: seq<Auth>, key: Key)
    requires forall x | x in list :: x.Plain?
    ensures Having(list, key) == OfKey(list, KeyOf, key)
  {
    if list != [] {
      assert list[0] in list;
      HavingIsOfKey(list[1..], key);
    }
  }

  /** Flattening puts priority ordered authenticators first and those without order last,
      the others by number, and leaves those with the same order in tree order. */
  lemma FlattenByClass(a: Auth, key: Key)
    ensures Ranked(Flatten(a)) && Having(Flatten(a), key) == Having(Leaves(a), key)
  {
    AuthLeIsPreorder();
    FlattenKeepsLeaves(a);
    SortedIsRanked(Flatten(a));
    LeavesArePlain(a);
    FlattenIsOneSort(a);
    forall x: Auth, y: Auth
      ensures Same(x, y, AuthLe) <==> KeyOf(x) == KeyOf(y)
    {
      LessIsTotal(KeyOf(x), KeyOf(y), KeyOf(x));
    }
    SortKeepsOfKey(Leaves(a), KeyOf, AuthLe, key);
    HavingIsOfKey(Leaves(a), key);
    HavingIsOfKey(Flatten(a), key);
  }

  /***************************** Answers *****************************/

  /** No opinion, an authentication, or a rejection. */
  datatype Answer = Nothing | Accepted(who: string) | Rejected(why: string)

  /** The first answer that is something, if any. */
  ghost predicate IsFirstAnswer(list: seq<Auth>, ask: Auth -> Answer, r: Option<Answer>) {
    match r
    case None => forall i | 0 <= i < |list| :: ask(list[i]) == Nothing
    case Some(ans) =>
      exists i :: 0 <= i < |list| && ask(list[i]) == ans && ans != Nothing &&
                  forall j | 0 <= j < i :: ask(list[j]) == Nothing
  }

  /** The answer is that of a leaf, and every other leaf that has one comes no earlier: it is
      in a later class, or in the same class with a number that is not smaller. */
  ghost predicate IsBestAnswer(leaves: seq<Auth>, ask: Auth -> Answer, r: Option<Answer>) {
    match r
    case None => forall x | x in leaves :: ask(x) == Nothing
    case Some(ans) => exists x :: x in leaves && ask(x) == ans && IsBest(leaves, ask, x)
  }

  ghost predicate IsBest(leaves: seq<Auth>, ask: Auth -> Answer, x: Auth) {
    && x.Plain? && ask(x) != Nothing
    && forall y | y in leaves && ask(y) != Nothing ::
         && y.Plain?
         && (y.key.Priority? ==> x.key.Priority? && x.key.n <= y.key.n)
         && (y.key.Ordered? ==> x.key.Priority? || (x.key.Ordered? && x.key.n <= y.key.n))
  }

  lemma FirstIsBest(list: seq<Auth>, ask: Auth -> Answer, r: Option<Answer>)
    requires Ranked(list) && (forall x | x in list :: x.Plain?) && IsFirstAnswer(list, ask, r)
    ensures IsBestAnswer(list, ask, r)
  {
    if r.Some? {
      var p, o :| RankedAt(list, p, o);
      var i :| 0 <= i < |list| && ask(list[i]) == r.value && r.value != Nothing &&
               forall j | 0 <= j < i :: ask(list[j]) == Nothing;
      assert IsBest(list, ask, list[i]);
    }
  }

  predicate IsSelf(a: Auth, self: nat) {
    a.Composite? && a.id == self
  }

  /** Everything but the composite `self`, in order. */
  function Without(items: seq<Auth>, self: nat): (r: seq<Auth>)
    ensures |r| <= |items|
  {
    if items == [] then []
    else
      var n := |items| - 1;
      Without(items[..n], self) + (if IsSelf(items[n], self) then [] else [items[n]])
  }

  lemma {:induction false} WithoutKeepsOthers(items: seq<Auth>, self: nat, x: Auth)
    ensures x in Without(items, self) <==> x in items && !(x.Composite? && x.id == self)
  {
    if items != [] {
      var n := |items| - 1;
      assert items == items[..n] + [items[n]];
      WithoutKeepsOthers(items[..n], self, x);
    }
  }

  lemma WithoutSnoc(items: seq<Auth>, x: Auth, self: nat)
    ensures Without(items + [x], self) == Without(items, self) + (if x.Composite? && x.id == self then [] else [x])
  {
    assert (items + [x])[..|items|] == items;
  }

  /** Nothing else is left out, and nothing changes places. */
  lemma {:induction false} WithoutConcat(a: seq<Auth>, b: seq<Auth>, self: nat)
    ensures Without(a + b, self) == Without(a, self) + Without(b, self)
    decreases |b|
  {
    if b == [] {
      EmptyRight(a);
    } else {
      var init, last := b[..|b| - 1], b[|b| - 1];
      var kept := if last.Composite? && last.id == self then [] else [last];
      assert b == init + [last];
      calc {
        Without(a + b, self);
        { Regroup(a, init, [last]); WithoutSnoc(a + init, last, self); }
        Without(a + init, self) + kept;
        { WithoutConcat(a, init, self); Regroup(Without(a, self), Without(init, self), kept); }
        Without(a, self) + (Without(init, self) + kept);
        { WithoutSnoc(init, last, self); }
        Without(a, self) + Without(b, self);
      }
    }
  }

  function Slots(items: seq<Auth>): (r: seq<Option<Auth>>)
    ensures |r| == |items| && forall i | 0 <= i < |items| :: r[i] == Some(items[i])
  {
    seq(|items|, i requires 0 <= i < |items| => Some(items[i]))
  }

  lemma WithoutStep(given: seq<Auth>, n: nat, self: nat)
    requires n < |given|
    ensures Without(given[..n + 1], self) ==
            Without(given[..n], self) + (if IsSelf(given[n], self) then [] else [given[n]])
  {
    assert given[..n + 1][..n] == given[..n];
  }

  /** `removeSelf`: moves everything but the composite `self` to the front, in place, and
      clears the rest. */
  method RemoveSelf(items: array<Option<Auth>>, self: nat, ghost given: seq<Auth>) returns (count: nat)
    requires items[..] == Slots(given)
    modifies items
    ensures count == |Without(given, self)| <= items.Length
    ensures items[..count] == Slots(Without(given, self))
    ensures forall i | count <= i < items.Length :: items[i] == None
  {
    count := Compact(items, self, given);
    ClearFrom(items, count);
  }

  /** `a` holds the items of `s` from its start. */
  ghost predicate Holds(a: array<Option<Auth>>, s: seq<Auth>)
    reads a
  {
    |s| <= a.Length && forall i | 0 <= i < |s| :: a[i] == Some(s[i])
  }

  method Compact(items: array<Option<Auth>>, self: nat, ghost given: seq<Auth>) returns (count: nat)
    requires items.Length == |given| && Holds(items, given)
    modifies items
    ensures count == |Without(given, self)| && Holds(items, Without(given, self))
  {
    count := 0;
    ghost var kept: seq<Auth> := [];
    for n := 0 to items.Length
      invariant kept == Without(given[..n], self) && count == |kept| <= n && Holds(items, kept)
      invariant forall i | n <= i < items.Length :: items[i] == Some(given[i])
    {
      var item := items[n];
      WithoutStep(given, n, self);
      if !IsSelf(item.value, self) {
        items[count] := item;
        count := count + 1;
        kept := kept + [given[n]];
      }
    }
    assert given[..items.Length] == given;
  }

  method ClearFrom(items: array<Option<Auth>>, count: nat)
    requires count <= items.Length
    modifies items
    ensures forall i | 0 <= i < count :: items[i] == old(items[i])
    ensures forall i | count <= i < items.Length :: items[i] == None
  {
    for j := count to items.Length
      invariant forall i | 0 <= i < count :: items[i] == old(items[i])
      invariant forall i | count <= i < j :: items[i] == None
    {
      items[j] := None;
    }
  }

  /** What the children of composite `self` look like: in order, and without itself. */
  ghost predicate GoodChildren(children: seq<Auth>, self: nat) {
    Sorted(children, AuthLe) && forall c | c in children :: !IsSelf(c, self)
  }

  /** What a flattened list looks like: in order, and without composites. */
  ghost predicate GoodList(list: seq<Auth>) {
    Sorted(list, AuthLe) && forall x | x in list :: x.Plain?
  }

  lemma ArrangedChildren(items: seq<Auth>, self: nat)
    ensures GoodChildren(StableSort(Without(items, self), AuthLe), self)
  {
    AuthLeIsPreorder();
    StableSortSorts(Without(items, self), AuthLe);
    forall c | c in StableSort(Without(items, self), AuthLe)
      ensures !IsSelf(c, self)
    {
      WithoutKeepsOthers(items, self, c);
    }
  }

  lemma SortedAgain(children: seq<Auth>)
    requires Sorted(children, AuthLe)
    ensures StableSort(children, AuthLe) == children
  {
    AuthLeIsPreorder();
    SortOfSorted(children, AuthLe);
  }

  /** `processAuthenticators`: a fresh list without the composite itself, sorted. */
  method Process(items: seq<Auth>, self: nat) returns (r: seq<Auth>)
    ensures r == StableSort(Without(items, self), AuthLe) && GoodChildren(r, self)
  {
    ArrangedChildren(items, self);
    var slots := new Option<Auth>[|items|](i requires 0 <= i < |items| => Some(items[i]));
    assert slots[..] == Slots(items);
    var count := RemoveSelf(slots, self, items);
    var kept := Unwrap(slots[..count], Without(items, self));
    r := StableSort(kept, AuthLe);
  }

  method Unwrap(slots: seq<Option<Auth>>, ghost items: seq<Auth>) returns (r: seq<Auth>)
    requires slots == Slots(items)
    ensures r == items
  {
    r := seq(|slots|, i requires 0 <= i < |slots| => slots[i].value);
  }

  class CompositeAuthenticator {
    const id: nat
    var children: seq<Auth>
    var initialised: bool
    var flattened: seq<Auth>

    ghost predicate Valid()
      reads this
    {
      && GoodChildren(children, id)
      && (initialised ==> GoodList(flattened))
    }

    constructor (self: nat, given: seq<Auth>)
      ensures Valid() && id == self && !initialised
      ensures children == StableSort(Without(given, self), AuthLe)
    {
      id := self;
      var processed := Process(given, self);
      children := processed;
      initialised, flattened := false, [];
    }

    method Add(a: Auth)
      requires Valid()
      modifies this`children
      ensures Valid() && children == StableSort(Without(old(children) + [a], id), AuthLe)
    {
      var processed := Process(children + [a], id);
      SortedAgain(processed);
      children := StableSort(processed, AuthLe);
    }

    method Merge(others: seq<Auth>)
      requires Valid()
      modifies this`children
      ensures Valid() && children == StableSort(Without(old(children) + others, id), AuthLe)
    {
      children := Process(children + others, id);
    }

    /** The list is flattened on first use and kept; later additions are not seen. */
    method Authenticate(ask: Auth -> Answer) returns (r: Option<Answer>)
      requires Valid()
      modifies this`initialised, this`flattened
      ensures Valid() && initialised
      ensures flattened == if old(initialised) then old(flattened)
                           else StableSort(Leaves(Composite(id, children)), AuthLe)
      ensures IsFirstAnswer(flattened, ask, r)
      ensures IsBestAnswer(if old(initialised) then old(flattened) else Leaves(Composite(id, children)), ask, r)
    {
      if !initialised {
        flattened := Flatten(Composite(id, children));
        initialised := true;
        FlattenIsOneSort(Composite(id, children));
        FlattenKeepsLeaves(Composite(id, children));
      }
      r := FirstAnswer(flattened, ask);
      SortedIsRanked(flattened);
      FirstIsBest(flattened, ask, r);
    }
  }

  method FirstAnswer(list: seq<Auth>, ask: Auth -> Answer) returns (r: Option<Answer>)
    ensures IsFirstAnswer(list, ask, r)
  {
    for i := 0 to |list|
      invariant forall j | 0 <= j < i :: ask(list[j]) == Nothing
    {
      var ans := ask(list[i]);
      if ans != Nothing {
        return Some(ans);
      }
    }
    return None;
  }
}
