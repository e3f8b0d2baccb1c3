/** The tenant hierarchy over the relation index: parents, children, ancestors, the
    level-order search for descendants, the path from the root, and the operations that
    add and remove tenants.
 */
module TenantHierarchy {
  import opened Collections
  import opened Text
  import opened TenantIndex

  datatype Result<+T> = Ok(value: T) | NotLoaded | Failed

  /***************************** The sorted set *****************************/

  lemma {:induction false} LexAntisymmetric(a: string, b: string)
    requires LexLe(a, b) && LexLe(b, a)
    ensures a == b
  {
    if a != "" {
      LexAntisymmetric(a[1..], b[1..]);
      assert a == [a[0]] + a[1..] && b == [b[0]] + b[1..];
    }
  }

  lemma {:induction false} LexTransitive(a: string, b: string, c: string)
    requires LexLe(a, b) && LexLe(b, c)
    ensures LexLe(a, c)
  {
    if a != "" && a[0] == b[0] == c[0] {
      LexTransitive(a[1..], b[1..], c[1..]);
    }
  }

  lemma {:induction false} LexTotal(a: string, b: string)
    ensures LexLe(a, b) || LexLe(b, a)
  {
    if a != "" && b != "" {
      LexTotal(a[1..], b[1..]);
    }
  }

  predicate Sorted(zs: seq<string>) {
    forall i, j | 0 <= i < j < |zs| :: LexLt(zs[i], zs[j])
  }

  /** The members between two texts, in order. */
  function ZRangeByLex(zs: seq<string>, lo: string, hi: string): (r: seq<string>)
    ensures forall x :: x in r <==> x in zs && InRange(x, lo, hi)
    ensures Sorted(zs) ==> Sorted(r)
  {
    if zs == [] then []
    else
      var rest := ZRangeByLex(zs[1..], lo, hi);
      assert Sorted(zs) ==> forall x | x in zs[1..] :: LexLt(zs[0], x);
      if InRange(zs[0], lo, hi) then [zs[0]] + rest else rest
  }

  function ZAdd(zs: seq<string>, x: string): (r: seq<string>)
    ensures forall y :: y in r <==> y in zs || y == x
  {
    if zs == [] then [x]
    else if x == zs[0] then zs
    else if LexLe(x, zs[0]) then [x] + zs
    else [zs[0]] + ZAdd(zs[1..], x)
  }

  lemma {:induction false} ZAddSorted(zs: seq<string>, x: string)
    requires Sorted(zs)
    ensures Sorted(ZAdd(zs, x))
  {
    if zs != [] && x != zs[0] {
      if LexLe(x, zs[0]) {
        forall j | 0 <= j < |zs|
          ensures LexLt(x, zs[j])
        {
          if j > 0 {
            LexTransitive(x, zs[0], zs[j]);
            if x == zs[j] {
              LexAntisymmetric(zs[0], x);
            }
          }
        }
      } else {
        LexTotal(zs[0], x);
        ZAddSorted(zs[1..], x);
        assert forall y | y in ZAdd(zs[1..], x) :: LexLt(zs[0], y);
      }
    }
  }

  function ZRem(zs: seq<string>, x: string): (r: seq<string>)
    ensures forall y :: y in r <==> y in zs && y != x
    ensures Sorted(zs) ==> Sorted(r)
  {
    if zs == [] then []
    else
      assert Sorted(zs) ==> forall y | y in zs[1..] :: LexLt(zs[0], y);
      if zs[0] == x then ZRem(zs[1..], x) else [zs[0]] + ZRem(zs[1..], x)
  }

  /***************************** The relation it stores *****************************/

  /** Each tenant's parent. */
  type Parents = map<string, string>

  ghost predicate Codes(parent: Parents, c: string, x: string) {
    c in parent && (x == Triple(c, IS_CHILDREN_OF, parent[c]) || x == Triple(parent[c], IS_PARENT_OF, c))
  }

  ghost predicate Coded(parent: Parents, x: string) {
    exists c :: Codes(parent, c, x)
  }

  ghost predicate Stored(zs: seq<string>, c: string, p: string) {
    && ValidId(c) && ValidId(p)
    && Triple(c, IS_CHILDREN_OF, p) in zs && Triple(p, IS_PARENT_OF, c) in zs
  }

  /** The set holds both directions of the relation and nothing else. */
  ghost predicate Encodes(zs: seq<string>, parent: Parents) {
    && (forall c {:trigger Stored(zs, c, parent[c])} | c in parent :: Stored(zs, c, parent[c]))
    && (forall x {:trigger Coded(parent, x)} | x in zs :: Coded(parent, x))
  }

  /** No tenant is its own ancestor. */
  ghost predicate Acyclic(parent: Parents, depth: string -> nat) {
    forall c | c in parent :: depth(parent[c]) < depth(c)
  }

  function Relations(zs: seq<string>, id: string, p: string): (r: seq<string>)
    ensures Sorted(zs) ==> Sorted(r)
  {
    ZRangeByLex(zs, Query(id, p), Triple(id, p, [MAX_CHAR]))
  }

  /** Of the texts for tenant `c`, a parent query finds the one that names its parent. */
  lemma ParentQuery(zs: seq<string>, parent: Parents, c: string, x: string, id: string)
    requires c in parent && Stored(zs, c, parent[c]) && Codes(parent, c, x) && ':' !in id
    ensures InRange(x, Query(id, IS_CHILDREN_OF), Triple(id, IS_CHILDREN_OF, [MAX_CHAR])) <==>
            id == c && x == Triple(c, IS_CHILDREN_OF, parent[c])
  {
    var p := parent[c];
    RangeIsExact(id, IS_CHILDREN_OF, c, IS_CHILDREN_OF, p);
    if x != Triple(c, IS_CHILDREN_OF, p) {
      RangeIsExact(id, IS_CHILDREN_OF, p, IS_PARENT_OF, c);
    }
  }

  lemma ChildQuery(zs: seq<string>, parent: Parents, c: string, x: string, id: string)
    requires c in parent && Stored(zs, c, parent[c]) && Codes(parent, c, x) && ':' !in id
    ensures InRange(x, Query(id, IS_PARENT_OF), Triple(id, IS_PARENT_OF, [MAX_CHAR])) <==>
            id == parent[c] && x == Triple(parent[c], IS_PARENT_OF, c)
  {
    var p := parent[c];
    RangeIsExact(id, IS_PARENT_OF, p, IS_PARENT_OF, c);
    if x != Triple(p, IS_PARENT_OF, c) {
      RangeIsExact(id, IS_PARENT_OF, c, IS_CHILDREN_OF, p);
    }
  }

  lemma ParentRelations(zs: seq<string>, parent: Parents, id: string, x: string)
    requires Encodes(zs, parent) && ':' !in id
    ensures x in Relations(zs, id, IS_CHILDREN_OF) <==>
            id in parent && x == Triple(id, IS_CHILDREN_OF, parent[id])
  {
    if x in Relations(zs, id, IS_CHILDREN_OF) {
      assert Coded(parent, x);
      var c :| Codes(parent, c, x);
      assert Stored(zs, c, parent[c]);
      ParentQuery(zs, parent, c, x, id);
    }
    if id in parent {
      var y := Triple(id, IS_CHILDREN_OF, parent[id]);
      assert Stored(zs, id, parent[id]);
      ParentQuery(zs, parent, id, y, id);
    }
  }

  lemma ChildRelation(zs: seq<string>, parent: Parents, id: string, x: string) returns (c: string)
    requires Encodes(zs, parent) && ':' !in id && x in Relations(zs, id, IS_PARENT_OF)
    ensures c in parent && parent[c] == id && x == Triple(id, IS_PARENT_OF, c) && ObjectOf(x) == Some(c)
  {
    assert Coded(parent, x);
    c :| Codes(parent, c, x);
    assert Stored(zs, c, parent[c]);
    ChildQuery(zs, parent, c, x, id);
    ObjectOfTriple(id, IS_PARENT_OF, c);
  }

  lemma RelationOfChild(zs: seq<string>, parent: Parents, c: string)
    requires Encodes(zs, parent) && c in parent
    ensures Triple(parent[c], IS_PARENT_OF, c) in Relations(zs, parent[c], IS_PARENT_OF)
    ensures ObjectOf(Triple(parent[c], IS_PARENT_OF, c)) == Some(c)
  {
    assert Stored(zs, c, parent[c]);
    ChildQuery(zs, parent, c, Triple(parent[c], IS_PARENT_OF, c), parent[c]);
    ObjectOfTriple(parent[c], IS_PARENT_OF, c);
  }

  /***************************** Parents and children *****************************/

  function ParentIn(zs: seq<string>, id: string): Result<string> {
    var relations := Relations(zs, id, IS_CHILDREN_OF);
    if |relations| == 0 then Ok("")
    else if |relations| > 1 then Failed
    else
      match ObjectOf(relations[0])
      case Some(p) => Ok(p)
      case None => Failed
  }

  function Objects(relations: seq<string>): (r: Result<seq<string>>)
    ensures r.Ok? ==> |r.value| == |relations|
    ensures r.Ok? ==> forall i | 0 <= i < |relations| :: ObjectOf(relations[i]) == Some(r.value[i])
    ensures !r.Ok? ==> r.Failed? && exists x :: x in relations && ObjectOf(x).None?
  {
    if relations == [] then Ok([])
    else
      match ObjectOf(relations[0])
      case None => assert relations[0] in relations; Failed
      case Some(o) =>
        match Objects(relations[1..])
        case Ok(os) => Ok([o] + os)
        case e => e
  }

  function ChildrenIn(zs: seq<string>, id: string): Result<seq<string>> {
    Objects(Relations(zs, id, IS_PARENT_OF))
  }

  lemma AtMostOne(r: seq<string>, x: string)
    requires Sorted(r) && forall y | y in r :: y == x
    ensures r == [] || r == [x]
  {
    if |r| > 1 {
      SomeOther(r, x);
    } else if |r| == 1 {
      assert r[0] in r;
    }
  }

  lemma SomeOther(r: seq<string>, x: string)
    requires Sorted(r) && |r| > 1
    ensures exists y :: y in r && y != x
  {
    assert r[0] in r && r[1] in r && LexLt(r[0], r[1]);
  }

  /** The parent found through the index is the parent in the relation, if any. */
  lemma ParentAgrees(zs: seq<string>, parent: Parents, id: string)
    requires Sorted(zs) && Encodes(zs, parent) && ':' !in id
    ensures ParentIn(zs, id) == Ok(if id in parent then parent[id] else "")
  {
    var relations := Relations(zs, id, IS_CHILDREN_OF);
    var x := if id in parent then Triple(id, IS_CHILDREN_OF, parent[id]) else "";
    forall y
      ensures y in relations <==> id in parent && y == x
    {
      ParentRelations(zs, parent, id, y);
    }
    AtMostOne(relations, x);
    if id in parent {
      assert x in relations;
      assert Stored(zs, id, parent[id]);
      ObjectOfTriple(id, IS_CHILDREN_OF, parent[id]);
    } else {
      assert relations != [] ==> x in relations;
    }
  }

  /** The children found through the index are the children in the relation, each once. */
  lemma ChildrenAgree(zs: seq<string>, parent: Parents, id: string)
    requires Sorted(zs) && Encodes(zs, parent) && ':' !in id
    ensures ChildrenIn(zs, id).Ok? && Distinct(ChildrenIn(zs, id).value)
    ensures forall c :: c in ChildrenIn(zs, id).value <==> c in parent && parent[c] == id
  {
    var relations := Relations(zs, id, IS_PARENT_OF);
    forall x | x in relations
      ensures ObjectOf(x).Some?
    {
      var c := ChildRelation(zs, parent, id, x);
    }
    var children := ChildrenIn(zs, id).value;
    forall i | 0 <= i < |relations|
      ensures children[i] in parent && parent[children[i]] == id
      ensures relations[i] == Triple(id, IS_PARENT_OF, children[i])
    {
      var c := ChildRelation(zs, parent, id, relations[i]);
    }
    forall c | c in parent && parent[c] == id
      ensures c in children
    {
      RelationOfChild(zs, parent, c);
      var i :| 0 <= i < |relations| && relations[i] == Triple(id, IS_PARENT_OF, c);
      assert children[i] == c;
    }
    forall i, j | 0 <= i < j < |children|
      ensures children[i] != children[j]
    {
      assert LexLt(relations[i], relations[j]);
    }
  }

  /***************************** Ancestors *****************************/

  /** The chain of parents, nearest first. */
  ghost function Ancestors(parent: Parents, depth: string -> nat, id: string): seq<string>
    requires Acyclic(parent, depth)
    decreases depth(id)
  {
    if id in parent then [parent[id]] + Ancestors(parent, depth, parent[id]) else []
  }

  /** `a` is a proper ancestor of `d`. */
  ghost predicate IsAncestor(parent: Parents, depth: string -> nat, a: string, d: string)
    requires Acyclic(parent, depth)
  {
    a in Ancestors(parent, depth, d)
  }

  lemma {:induction false} AncestorsAreHigher(parent: Parents, depth: string -> nat, a: string, d: string)
    requires Acyclic(parent, depth) && IsAncestor(parent, depth, a, d)
    ensures depth(a) < depth(d)
    decreases depth(d)
  {
    if a != parent[d] {
      AncestorsAreHigher(parent, depth, a, parent[d]);
    }
  }

  lemma {:induction false} AncestorsTransitive(parent: Parents, depth: string -> nat, a: string, b: string, d: string)
    requires Acyclic(parent, depth) && IsAncestor(parent, depth, a, b) && IsAncestor(parent, depth, b, d)
    ensures IsAncestor(parent, depth, a, d)
    decreases depth(d)
  {
    if b != parent[d] {
      AncestorsTransitive(parent, depth, a, b, parent[d]);
    }
  }

  /** The chain does not depend on how depth is measured. */
  lemma {:induction false} AncestorsUnique(parent: Parents, depth: string -> nat, depth': string -> nat, id: string)
    requires Acyclic(parent, depth) && Acyclic(parent, depth')
    ensures Ancestors(parent, depth, id) == Ancestors(parent, depth', id)
    decreases depth(id)
  {
    if id in parent {
      AncestorsUnique(parent, depth, depth', parent[id]);
    }
  }

  /** A set closed under children holds everything below its members' parent. */
  lemma {:induction false} ClosedHoldsDescendants(parent: Parents, depth: string -> nat, t: string, s: seq<string>,
                                                  d: string)
    requires Acyclic(parent, depth)
    requires forall x | x in parent && (parent[x] == t || parent[x] in s) :: x in s
    requires IsAncestor(parent, depth, t, d)
    ensures d in s
    decreases depth(d)
  {
    if parent[d] != t {
      ClosedHoldsDescendants(parent, depth, t, s, parent[d]);
    }
  }

  /***************************** The service *****************************/

  class Tenancy {
    var zset: seq<string>
    var loaded: bool
    var root: string
    ghost var parent: Parents
    ghost var depth: string -> nat

    ghost predicate Valid()
      reads this
    {
      Sorted(zset) && Encodes(zset, parent) && Acyclic(parent, depth)
    }

    constructor (rootId: string)
      ensures Valid() && loaded && root == rootId && parent == map[]
    {
      zset, loaded, root := [], true, rootId;
      parent, depth := map[], (_: string) => 0;
    }

    method GetParent(id: string) returns (r: Result<string>)
      ensures r == if loaded then ParentIn(zset, id) else NotLoaded
    {
      if !loaded {
        return NotLoaded;
      }
      var relations := Relations(zset, id, IS_CHILDREN_OF);
      if |relations| == 0 {
        return Ok("");
      } else if |relations| > 1 {
        return Failed;
      }
      match ObjectOf(relations[0]) {
        case Some(p) => return Ok(p);
        case None => return Failed;
      }
    }

    method GetChildren(id: string) returns (r: Result<seq<string>>)
      ensures r == if loaded then ChildrenIn(zset, id) else NotLoaded
    {
      if !loaded {
        return NotLoaded;
      }
      r := CollectObjects(Relations(zset, id, IS_PARENT_OF));
    }

    method GetAncestors(id: string) returns (r: Result<seq<string>>)
      requires Valid() && ':' !in id
      ensures r == if loaded then Ok(Ancestors(parent, depth, id)) else NotLoaded
    {
      if !loaded {
        return NotLoaded;
      }
      var ancestors := Climb(zset, id, parent, depth);
      return Ok(ancestors);
    }

    method GetDescendants(id: string) returns (r: Result<seq<string>>)
      requires Valid() && ':' !in id
      ensures !loaded ==> r == NotLoaded
      ensures loaded ==> r.Ok? && Distinct(r.value)
      ensures loaded ==> forall d :: d in r.value <==> IsAncestor(parent, depth, id, d)
    {
      if !loaded {
        return NotLoaded;
      }
      var descendants := Search(zset, id, parent, depth);
      return Ok(descendants);
    }

    /** Whether one of `ids` is `id` or an ancestor of it. */
    method AnyHasDescendant(ids: set<string>, id: string) returns (has: bool)
      requires Valid() && ':' !in id
      ensures has <==> id != "" && (id in ids || (loaded && exists a :: a in ids && IsAncestor(parent, depth, a, id)))
    {
      if id == "" {
        return false;
      }
      if id in ids {
        return true;
      }
      var ancestors := GetAncestors(id);
      if !ancestors.Ok? {
        return false;
      }
      for i := 0 to |ancestors.value|
        invariant forall j | 0 <= j < i :: ancestors.value[j] !in ids
      {
        if ancestors.value[i] in ids {
          return true;
        }
      }
      return false;
    }

    /** The tenants from the root down to `id`; `parse` reads a tenant's text as an id, which
        may fail. */
    method GetTenancyPath<U>(id: string, parse: string -> Option<U>) returns (r: Result<seq<U>>)
      requires Valid() && ':' !in id
      ensures var path := Reversed([id] + Ancestors(parent, depth, id));
              && IsPathTo(parent, path, id)
              && (r == NotLoaded <==> parse(id).Some? && !loaded)
              && (r == Failed <==> parse(id).None? || (loaded && exists x :: x in path && parse(x).None?))
              && (r.Ok? ==> Reads(parse, path, r.value))
    {
      ghost var chain := [id] + Ancestors(parent, depth, id);
      ReversedChainIsPath(parent, depth, id);
      assert Reversed(chain)[|chain| - 1] == id;
      if parse(id).None? {
        return Failed;
      }
      var ancestors := GetAncestors(id);
      if !ancestors.Ok? {
        return NotLoaded;
      }
      var path := ParseIds(parse, [id] + ancestors.value);
      SameMembers(chain);
      if path.None? {
        return Failed;
      }
      var a := new U[|path.value|](i requires 0 <= i < |path.value| => path.value[i]);
      assert a[..] == path.value;
      ReverseInPlace(a);
      return Ok(a[..]);
    }

    method IsTenantValid(id: string) returns (valid: bool)
      requires Valid() && ':' !in id
      ensures valid <==> loaded && (id in parent || (root != "" && root == id))
    {
      IdsArePlain(zset, parent);
      ParentAgrees(zset, parent, id);
      var p := GetParent(id);
      if p.Ok? && p.value != "" {
        return true;
      }
      return loaded && root != "" && root == id;
    }

    /** `tenants` is the caller's set of tenants, if the session has such details. */
    method Access(tenants: Option<set<string>>, id: string) returns (a: Verdict)
      requires Valid() && ':' !in id
      ensures loaded ==> a == Decide(parent, depth, root, tenants, id)
      ensures a == InvalidTenant <==> !loaded || (id !in parent && (root == "" || root != id))
      ensures a == Granted <==> a != InvalidTenant && tenants.Some? &&
                                (WILDCARD in tenants.value || MeetsPath(parent, tenants.value, id))
    {
      PathOrAncestor(parent, depth, tenants, id);
      IdsArePlain(zset, parent);
      var valid := IsTenantValid(id);
      if !valid {
        return InvalidTenant;
      }
      if tenants.Some? {
        if WILDCARD in tenants.value {
          return Granted;
        }
        var has := AnyHasDescendant(tenants.value, id);
        if has {
          return Granted;
        }
      }
      return Denied;
    }

    /** Registers `id` below `under`, unless that would break the hierarchy. */
    method AddTenant(id: string, under: string) returns (ok: bool)
      requires Valid() && (id != "" ==> ValidId(id)) && (under != "" ==> ValidId(under))
      modifies this
      ensures Valid() && loaded == old(loaded) && root == old(root)
      ensures ok <==> loaded && id != "" && under != "" && id !in old(parent) && id != root && id != under
                      && !IsAncestor(old(parent), old(depth), id, under)
      ensures parent == if ok then old(parent)[id := under] else old(parent)
    {
      if id == "" || under == "" {
        return false;
      }
      IdsArePlain(zset, parent);
      ParentAgrees(zset, parent, id);
      var p := GetParent(id);
      if p != Ok("") {
        return false;
      }
      if id == root {
        return false;
      }
      var ancestors := GetAncestors(under);
      if id in ancestors.value || id == under {
        return false;
      }
      AddEncodes(zset, parent, id, under);
      AddStaysAcyclic(parent, depth, id, under);
      zset := ZAdd(ZAdd(zset, Triple(id, IS_CHILDREN_OF, under)), Triple(under, IS_PARENT_OF, id));
      depth := Deepened(parent, depth, id, under);
      parent := parent[id := under];
      return true;
    }

    /** Removes a tenant that has a parent and no children. */
    method RemoveTenant(id: string) returns (ok: bool)
      requires Valid() && ':' !in id
      modifies this
      ensures Valid() && loaded == old(loaded) && root == old(root)
      ensures ok <==> loaded && id in old(parent) && forall c | c in old(parent) :: old(parent)[c] != id
      ensures parent == if ok then old(parent) - {id} else old(parent)
    {
      IdsArePlain(zset, parent);
      if id == "" {
        return false;
      }
      ChildrenAgree(zset, parent, id);
      var children := GetChildren(id);
      if !children.Ok? {
        return false;
      }
      if |children.value| != 0 {
        assert children.value[0] in children.value;
        return false;
      }
      ParentAgrees(zset, parent, id);
      var p := GetParent(id);
      if p == Ok("") {
        return false;
      }
      RemoveEncodes(zset, parent, id);
      zset := ZRem(ZRem(zset, Triple(id, IS_CHILDREN_OF, p.value)), Triple(p.value, IS_PARENT_OF, id));
      parent := parent - {id};
      return true;
    }
  }

  /***************************** Changing the hierarchy *****************************/

  /** From parent to parent until there is none. */
  method Climb(zs: seq<string>, id: string, ghost parent: Parents,
               ghost depth: string -> nat) returns (ancestors: seq<string>)
    requires Sorted(zs) && Encodes(zs, parent) && Acyclic(parent, depth) && ':' !in id
    ensures ancestors == Ancestors(parent, depth, id)
  {
    ancestors := [];
    IdsArePlain(zs, parent);
    ParentAgrees(zs, parent, id);
    ghost var at := id;
    var p := ParentIn(zs, id);
    while p.Ok? && p.value != ""
      invariant ':' !in at && p == Ok(if at in parent then parent[at] else "")
      invariant Ancestors(parent, depth, id) == ancestors + Ancestors(parent, depth, at)
      decreases depth(at)
    {
      Regroup(ancestors, [p.value], Ancestors(parent, depth, p.value));
      ancestors := ancestors + [p.value];
      at := p.value;
      ParentAgrees(zs, parent, at);
      p := ParentIn(zs, p.value);
    }
    EmptyRight(ancestors);
  }

  lemma AddEncodes(zs: seq<string>, parent: Parents, id: string, under: string)
    requires Sorted(zs) && Encodes(zs, parent) && ValidId(id) && ValidId(under) && id !in parent
    ensures var zs' := ZAdd(ZAdd(zs, Triple(id, IS_CHILDREN_OF, under)), Triple(under, IS_PARENT_OF, id));
            Sorted(zs') && Encodes(zs', parent[id := under])
  {
    var t, u := Triple(id, IS_CHILDREN_OF, under), Triple(under, IS_PARENT_OF, id);
    ZAddSorted(zs, t);
    ZAddSorted(ZAdd(zs, t), u);
    MoreEncodes(zs, ZAdd(ZAdd(zs, t), u), parent, id, under, t, u);
  }

  /** A set that holds one more relation, in both directions, encodes one more edge. */
  lemma MoreEncodes(zs: seq<string>, zs': seq<string>, parent: Parents, id: string, under: string, t: string, u: string)
    requires Encodes(zs, parent) && ValidId(id) && ValidId(under) && id !in parent
    requires t == Triple(id, IS_CHILDREN_OF, under) && u == Triple(under, IS_PARENT_OF, id)
    requires forall x :: x in zs' <==> x in zs || x == t || x == u
    ensures Encodes(zs', parent[id := under])
  {
    MoreStored(zs, zs', parent, id, under);
    MoreCoded(zs, zs', parent, id, under);
  }

  lemma MoreStored(zs: seq<string>, zs': seq<string>, parent: Parents, id: string, under: string)
    requires forall c {:trigger Stored(zs, c, parent[c])} | c in parent :: Stored(zs, c, parent[c])
    requires ValidId(id) && ValidId(under) && forall x | x in zs :: x in zs'
    requires Triple(id, IS_CHILDREN_OF, under) in zs' && Triple(under, IS_PARENT_OF, id) in zs'
    ensures var parent' := parent[id := under];
            forall c {:trigger Stored(zs', c, parent'[c])} | c in parent' :: Stored(zs', c, parent'[c])
  {
    var parent' := parent[id := under];
    forall c | c in parent'
      ensures Stored(zs', c, parent'[c])
    {
      if c != id {
        StoredInMore(zs, zs', c, parent[c]);
      } else {
        NewIsStored(zs', id, under);
      }
    }
  }

  lemma MoreCoded(zs: seq<string>, zs': seq<string>, parent: Parents, id: string, under: string)
    requires forall x {:trigger Coded(parent, x)} | x in zs :: Coded(parent, x)
    requires id !in parent
    requires forall x | x in zs' :: x in zs || x == Triple(id, IS_CHILDREN_OF, under) || x == Triple(under, IS_PARENT_OF, id)
    ensures forall x {:trigger Coded(parent[id := under], x)} | x in zs' :: Coded(parent[id := under], x)
  {
    forall x | x in zs'
      ensures Coded(parent[id := under], x)
    {
      if x in zs {
        CodedInMore(parent, id, under, x);
      } else {
        NewIsCoded(parent, id, under, x);
      }
    }
  }

  lemma NewIsStored(zs: seq<string>, id: string, under: string)
    requires ValidId(id) && ValidId(under)
    requires Triple(id, IS_CHILDREN_OF, under) in zs && Triple(under, IS_PARENT_OF, id) in zs
    ensures Stored(zs, id, under)
  {
  }

  lemma NewIsCoded(parent: Parents, id: string, under: string, x: string)
    requires x == Triple(id, IS_CHILDREN_OF, under) || x == Triple(under, IS_PARENT_OF, id)
    ensures Coded(parent[id := under], x)
  {
    assert Codes(parent[id := under], id, x);
  }

  lemma StoredInMore(zs: seq<string>, zs': seq<string>, c: string, p: string)
    requires Stored(zs, c, p) && forall x | x in zs :: x in zs'
    ensures Stored(zs', c, p)
  {
  }

  lemma CodedInMore(parent: Parents, id: string, under: string, x: string)
    requires Coded(parent, x) && id !in parent
    ensures Coded(parent[id := under], x)
  {
    var c :| Codes(parent, c, x);
    assert Codes(parent[id := under], c, x);
  }

  /** The subtree of `id` moves below `under`. */
  ghost function Deepened(parent: Parents, depth: string -> nat, id: string, under: string): string -> nat
    requires Acyclic(parent, depth)
  {
    (x: string) => if Acyclic(parent, depth) && (x == id || IsAncestor(parent, depth, id, x))
                   then depth(x) + depth(under) + 1 else depth(x)
  }

  lemma AddStaysAcyclic(parent: Parents, depth: string -> nat, id: string, under: string)
    requires Acyclic(parent, depth) && id !in parent && id != under && !IsAncestor(parent, depth, id, under)
    ensures Acyclic(parent[id := under], Deepened(parent, depth, id, under))
  {
  }

  lemma RemoveEncodes(zs: seq<string>, parent: Parents, id: string)
    requires Sorted(zs) && Encodes(zs, parent) && id in parent && forall c | c in parent :: parent[c] != id
    ensures var zs' := ZRem(ZRem(zs, Triple(id, IS_CHILDREN_OF, parent[id])), Triple(parent[id], IS_PARENT_OF, id));
            Sorted(zs') && Encodes(zs', parent - {id})
  {
    IdsArePlain(zs, parent);
    var t, u := Triple(id, IS_CHILDREN_OF, parent[id]), Triple(parent[id], IS_PARENT_OF, id);
    var zs', parent' := ZRem(ZRem(zs, t), u), parent - {id};
    forall c | c in parent'
      ensures Stored(zs', c, parent'[c])
    {
      assert Stored(zs, c, parent[c]);
      NotRemoved(parent, id, c);
    }
    forall x | x in zs'
      ensures Coded(parent', x)
    {
      assert Coded(parent, x);
      var c :| Codes(parent, c, x);
      assert Codes(parent', c, x);
    }
  }

  /** The texts of another tenant differ from those removed. */
  lemma NotRemoved(parent: Parents, id: string, c: string)
    requires id in parent && c in parent && c != id
    requires ValidId(id) && ValidId(parent[id]) && ValidId(c) && ValidId(parent[c])
    ensures var t, u := Triple(id, IS_CHILDREN_OF, parent[id]), Triple(parent[id], IS_PARENT_OF, id);
            var x, y := Triple(c, IS_CHILDREN_OF, parent[c]), Triple(parent[c], IS_PARENT_OF, c);
            x != t && x != u && y != t && y != u
  {
    var p, q := parent[id], parent[c];
    if Triple(c, IS_CHILDREN_OF, q) == Triple(id, IS_CHILDREN_OF, p) {
      TripleInjective(c, IS_CHILDREN_OF, q, id, IS_CHILDREN_OF, p);
    }
    if Triple(c, IS_CHILDREN_OF, q) == Triple(p, IS_PARENT_OF, id) {
      TripleInjective(c, IS_CHILDREN_OF, q, p, IS_PARENT_OF, id);
    }
    if Triple(q, IS_PARENT_OF, c) == Triple(id, IS_CHILDREN_OF, p) {
      TripleInjective(q, IS_PARENT_OF, c, id, IS_CHILDREN_OF, p);
    }
    if Triple(q, IS_PARENT_OF, c) == Triple(p, IS_PARENT_OF, id) {
      TripleInjective(q, IS_PARENT_OF, c, p, IS_PARENT_OF, id);
    }
  }

  /***************************** Access *****************************/

  datatype Verdict = Granted | InvalidTenant | Denied

  const WILDCARD := "*"

  ghost function Decide(parent: Parents, depth: string -> nat, root: string, tenants: Option<set<string>>,
                        id: string): Verdict
    requires Acyclic(parent, depth)
  {
    if id !in parent && (root == "" || root != id) then InvalidTenant
    else if tenants.Some? &&
            (WILDCARD in tenants.value ||
             (id != "" && (id in tenants.value ||
                           exists a :: a in tenants.value && IsAncestor(parent, depth, a, id))))
    then Granted
    else Denied
  }

  /** Access to a tenant is access to everything below it. */
  lemma AccessIsInherited(parent: Parents, depth: string -> nat, root: string, tenants: Option<set<string>>,
                          id: string, d: string)
    requires Acyclic(parent, depth) && "" !in parent
    requires Decide(parent, depth, root, tenants, id) == Granted && IsAncestor(parent, depth, id, d)
    ensures Decide(parent, depth, root, tenants, d) == Granted
  {
    if WILDCARD !in tenants.value && id !in tenants.value {
      var a :| a in tenants.value && IsAncestor(parent, depth, a, id);
      AncestorsTransitive(parent, depth, a, id, d);
    }
  }

  /***************************** The path from the root *****************************/

  method ReverseInPlace<T>(path: array<T>)
    modifies path
    ensures path[..] == Reversed(old(path[..]))
  {
    var n := path.Length;
    var fi, ri := 0, n - 1;
    while fi < ri
      invariant 0 <= fi <= n && ri == n - 1 - fi && fi <= ri + 1
      invariant forall k | 0 <= k < fi :: path[k] == old(path[n - 1 - k]) && path[n - 1 - k] == old(path[k])
      invariant forall k | fi <= k <= ri :: path[k] == old(path[k])
    {
      path[fi], path[ri] := path[ri], path[fi];
      fi, ri := fi + 1, ri - 1;
    }
    forall k | 0 <= k < n
      ensures path[..][k] == Reversed(old(path[..]))[k]
    {
      assert k < fi || k > ri || k == fi == ri;
      assert k > ri ==> path[n - 1 - (n - 1 - k)] == old(path[n - 1 - k]);
    }
  }

  /** `ids` are the texts, read one by one. */
  ghost predicate Reads<U>(parse: string -> Option<U>, texts: seq<string>, ids: seq<U>) {
    |ids| == |texts| && forall i | 0 <= i < |texts| :: parse(texts[i]) == Some(ids[i])
  }

  method ParseIds<U>(parse: string -> Option<U>, texts: seq<string>) returns (r: Option<seq<U>>)
    ensures r.None? <==> exists x :: x in texts && parse(x).None?
    ensures r.Some? ==> Reads(parse, texts, r.value)
  {
    var ids := [];
    for i := 0 to |texts|
      invariant |ids| == i && forall j | 0 <= j < i :: parse(texts[j]) == Some(ids[j])
    {
      match parse(texts[i])
      case None => return None;
      case Some(x) => ids := ids + [x];
    }
    return Some(ids);
  }

  lemma SameMembers<T(!new)>(s: seq<T>)
    ensures forall x :: x in Reversed(s) <==> x in s
  {
    forall x | x in s
      ensures x in Reversed(s)
    {
      var i :| 0 <= i < |s| && s[i] == x;
      assert Reversed(s)[|s| - 1 - i] == x;
    }
  }

  /** A chain that starts without a parent, ends at `id`, and goes from parent to child. */
  ghost predicate IsPathTo(parent: Parents, path: seq<string>, id: string) {
    && path != [] && path[|path| - 1] == id && path[0] !in parent
    && forall i | 0 < i < |path| :: path[i] in parent && parent[path[i]] == path[i - 1]
  }

  lemma {:induction false} ChainOfParents(parent: Parents, depth: string -> nat, id: string)
    requires Acyclic(parent, depth)
    ensures var chain := [id] + Ancestors(parent, depth, id);
            && chain[|chain| - 1] !in parent
            && forall i | 0 <= i < |chain| - 1 :: chain[i] in parent && parent[chain[i]] == chain[i + 1]
    decreases depth(id)
  {
    if id in parent {
      ChainOfParents(parent, depth, parent[id]);
      var rest := [parent[id]] + Ancestors(parent, depth, parent[id]);
      assert [id] + Ancestors(parent, depth, id) == [id] + rest;
    }
  }

  lemma ReversedChainIsPath(parent: Parents, depth: string -> nat, id: string)
    requires Acyclic(parent, depth)
    ensures IsPathTo(parent, Reversed([id] + Ancestors(parent, depth, id)), id)
  {
    ChainOfParents(parent, depth, id);
    var chain := [id] + Ancestors(parent, depth, id);
    var path := Reversed(chain);
    forall i | 0 < i < |path|
      ensures path[i] in parent && parent[path[i]] == path[i - 1]
    {
      var j := |path| - 1 - i;
      assert chain[j] in parent && parent[chain[j]] == chain[j + 1];
    }
  }

  /** A chain of parents that ends at a tenant is the only one. */
  lemma {:induction false} OnlyPath(parent: Parents, p: seq<string>, q: seq<string>, id: string)
    requires IsPathTo(parent, p, id) && IsPathTo(parent, q, id)
    ensures p == q
    decreases |p|
  {
    var m, n := |p| - 1, |q| - 1;
    if id in parent {
      assert m > 0 && n > 0;
      OnlyPath(parent, p[..m], q[..n], parent[id]);
    } else {
      assert m == 0 && n == 0;
    }
    assert p == p[..m] + [id] && q == q[..n] + [id];
  }

  /** Some tenant on the path from the root is in the set. */
  ghost predicate MeetsPath(parent: Parents, tenants: set<string>, id: string) {
    exists p, x :: IsPathTo(parent, p, id) && x in p && x in tenants
  }

  lemma PathOrAncestor(parent: Parents, depth: string -> nat, tenants: Option<set<string>>, id: string)
    requires Acyclic(parent, depth)
    ensures tenants.Some? ==>
              (MeetsPath(parent, tenants.value, id) <==>
               id in tenants.value || exists a :: a in tenants.value && IsAncestor(parent, depth, a, id))
  {
    var chain := [id] + Ancestors(parent, depth, id);
    ReversedChainIsPath(parent, depth, id);
    SameMembers(chain);
    if tenants.Some? {
      forall p | IsPathTo(parent, p, id)
        ensures p == Reversed(chain)
      {
        OnlyPath(parent, p, Reversed(chain), id);
      }
      assert forall x :: x in Reversed(chain) <==> x == id || IsAncestor(parent, depth, x, id);
    }
  }

  /** A session whose tenants hold neither the wildcard nor anything on the path to a valid
      tenant is denied access, as is one without tenants. */
  method DeniedOffPath(t: Tenancy, tenants: Option<set<string>>, id: string) returns (a: Verdict)
    requires t.Valid() && ':' !in id && t.loaded && (id in t.parent || (id != "" && t.root == id))
    requires tenants.Some? ==> WILDCARD !in tenants.value &&
                               forall p, x | IsPathTo(t.parent, p, id) && x in p :: x !in tenants.value
    ensures a == Denied
  {
    a := t.Access(tenants, id);
  }

  lemma IdsArePlain(zs: seq<string>, parent: Parents)
    requires Encodes(zs, parent)
    ensures forall c | c in parent :: ValidId(c) && ValidId(parent[c])
  {
    forall c | c in parent
      ensures ValidId(c) && ValidId(parent[c])
    {
      assert Stored(zs, c, parent[c]);
    }
  }

  /** The level-order search. */
  method Search(zs: seq<string>, id: string, ghost parent: Parents, ghost depth: string -> nat)
    returns (descendants: seq<string>)
    requires Sorted(zs) && Encodes(zs, parent) && Acyclic(parent, depth) && ':' !in id
    ensures Distinct(descendants)
    ensures forall d :: d in descendants <==> IsAncestor(parent, depth, id, d)
  {
    descendants := [];
    var queue := [id];
    ghost var processed: set<string> := {};
    IdsArePlain(zs, parent);
    while |queue| > 0
      invariant Searching(parent, depth, id, descendants, queue, processed)
      decreases |parent.Keys - SetOf(descendants)|, |queue|
    {
      QueueIsPlain(parent, depth, id, descendants, queue, processed);
      var children := GetLevel(zs, queue, parent);
      SearchStep(parent, depth, id, descendants, queue, processed, children);
      Shrinks(parent, descendants, children);
      processed := processed + SetOf(queue);
      descendants := descendants + children;
      queue := children;
    }
    assert queue == [];
    SearchDone(parent, depth, id, descendants, processed);
  }

  /** One round of the search: the children of every id in the queue. */
  method GetLevel(zs: seq<string>, queue: seq<string>, ghost parent: Parents) returns (children: seq<string>)
    requires Sorted(zs) && Encodes(zs, parent)
    requires Distinct(queue) && forall id | id in queue :: ':' !in id
    ensures IsLevel(parent, queue, children)
  {
    children := [];
    for i := 0 to |queue|
      invariant IsLevel(parent, queue[..i], children)
    {
      ChildrenAgree(zs, parent, queue[i]);
      var found := CollectObjects(Relations(zs, queue[i], IS_PARENT_OF));
      LevelGrows(parent, queue, i, children, found.value);
      children := children + found.value;
    }
    assert queue[..|queue|] == queue;
  }

  /** The children of the ids in `queue`, each once. */
  ghost predicate IsLevel(parent: Parents, queue: seq<string>, children: seq<string>) {
    Distinct(children) && forall c :: c in children <==> c in parent && parent[c] in queue
  }

  lemma LevelGrows(parent: Parents, queue: seq<string>, i: nat, children: seq<string>, found: seq<string>)
    requires i < |queue| && Distinct(queue) && IsLevel(parent, queue[..i], children)
    requires Distinct(found) && forall c :: c in found <==> c in parent && parent[c] == queue[i]
    ensures IsLevel(parent, queue[..i + 1], children + found)
  {
    assert queue[..i + 1] == queue[..i] + [queue[i]];
    assert queue[i] !in queue[..i];
    DisjointConcat(children, found);
  }

  lemma DisjointConcat(a: seq<string>, b: seq<string>)
    requires Distinct(a) && Distinct(b) && forall x | x in a :: x !in b
    ensures Distinct(a + b)
  {
    forall i, j | 0 <= i < j < |a + b|
      ensures (a + b)[i] != (a + b)[j]
    {
      if i < |a| <= j {
        assert a[i] in a && b[j - |a|] in b;
      }
    }
  }

  /** What holds between rounds: everything met so far is below `id` and was met once, and
      it is exactly the children of what has been processed. */
  ghost predicate Searching(parent: Parents, depth: string -> nat, id: string, descendants: seq<string>,
                            queue: seq<string>, processed: set<string>)
    requires Acyclic(parent, depth)
  {
    && Distinct(descendants) && Distinct(queue)
    && (forall x :: x in processed || x in queue <==> x == id || x in descendants)
    && (forall x | x in queue :: x !in processed)
    && (forall x :: x in descendants <==> x in parent && parent[x] in processed)
    && (forall x | x in descendants :: IsAncestor(parent, depth, id, x))
  }

  lemma QueueIsPlain(parent: Parents, depth: string -> nat, id: string, descendants: seq<string>,
                     queue: seq<string>, processed: set<string>)
    requires Acyclic(parent, depth) && Searching(parent, depth, id, descendants, queue, processed)
    requires ':' !in id && forall c | c in parent :: ValidId(c)
    ensures forall x | x in queue :: ':' !in x
  {
  }

  lemma SearchStep(parent: Parents, depth: string -> nat, id: string, descendants: seq<string>, queue: seq<string>,
                   processed: set<string>, children: seq<string>)
    requires Acyclic(parent, depth) && Searching(parent, depth, id, descendants, queue, processed)
    requires IsLevel(parent, queue, children)
    ensures Searching(parent, depth, id, descendants + children, children, processed + SetOf(queue))
    ensures forall c | c in children :: c in parent && c !in descendants
  {
    LevelIsNew(parent, depth, id, descendants, queue, processed, children);
    DisjointConcat(descendants, children);
    var all, after := descendants + children, processed + SetOf(queue);
    assert forall x :: x in all <==> x in descendants || x in children;
    assert forall x :: x in after <==> x in processed || x in queue;
  }

  lemma SearchDone(parent: Parents, depth: string -> nat, id: string, descendants: seq<string>, processed: set<string>)
    requires Acyclic(parent, depth) && Searching(parent, depth, id, descendants, [], processed)
    ensures forall d :: d in descendants <==> IsAncestor(parent, depth, id, d)
  {
    forall d | IsAncestor(parent, depth, id, d)
      ensures d in descendants
    {
      ClosedHoldsDescendants(parent, depth, id, descendants, d);
    }
  }

  /** The children of a level are below `id`, and none of them was met before. */
  lemma LevelIsNew(parent: Parents, depth: string -> nat, id: string, descendants: seq<string>, queue: seq<string>,
                   processed: set<string>, children: seq<string>)
    requires Acyclic(parent, depth) && Searching(parent, depth, id, descendants, queue, processed)
    requires IsLevel(parent, queue, children)
    ensures forall c | c in children :: IsAncestor(parent, depth, id, c) && c !in descendants && c != id
  {
    forall c | c in children
      ensures IsAncestor(parent, depth, id, c) && c !in descendants && c != id
    {
      var q := parent[c];
      assert q == id || q in descendants;
      AncestorsAreHigher(parent, depth, id, c);
    }
  }

  lemma Shrinks(parent: Parents, descendants: seq<string>, children: seq<string>)
    requires forall c | c in children :: c in parent && c !in descendants
    ensures var a, b := parent.Keys - SetOf(descendants + children), parent.Keys - SetOf(descendants);
            |a| < |b| || (children == [] && |a| == |b|)
  {
    var a, b := parent.Keys - SetOf(descendants + children), parent.Keys - SetOf(descendants);
    if children == [] {
      assert descendants + children == descendants;
    } else {
      assert children[0] in children;
      assert a <= b - {children[0]};
      SubsetSize(a, b - {children[0]});
    }
  }

  function After(objects: seq<string>, r: Result<seq<string>>): Result<seq<string>> {
    match r
    case Ok(os) => Ok(objects + os)
    case e => e
  }

  lemma ObjectsStep(relations: seq<string>, i: nat, objects: seq<string>)
    requires i < |relations|
    ensures After(objects, Objects(relations[i..])) ==
            match ObjectOf(relations[i])
            case None => Failed
            case Some(o) => After(objects + [o], Objects(relations[i + 1..]))
  {
    assert relations[i..][1..] == relations[i + 1..];
    var rest := Objects(relations[i + 1..]);
    if ObjectOf(relations[i]).Some? && rest.Ok? {
      var o := ObjectOf(relations[i]).value;
      assert (objects + [o]) + rest.value == objects + ([o] + rest.value);
    }
  }

  method CollectObjects(relations: seq<string>) returns (r: Result<seq<string>>)
    ensures r == Objects(relations)
  {
    var objects := [];
    var i := 0;
    ghost var goal := Objects(relations);
    assert relations[0..] == relations;
    assert goal.Ok? ==> [] + goal.value == goal.value;
    while i < |relations|
      invariant 0 <= i <= |relations|
      invariant goal == After(objects, Objects(relations[i..]))
    {
      ObjectsStep(relations, i, objects);
      match ObjectOf(relations[i]) {
        case None => return Failed;
        case Some(o) => objects := objects + [o];
      }
      i := i + 1;
    }
    assert relations[i..] == [] && objects + [] == objects;
    return Ok(objects);
  }
}
