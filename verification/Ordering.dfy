/** Ordered objects and stable sorting. */
module Ordering {
  import opened Collections

  /** What an object says about its order: priority ordered objects come before ordered
      ones, and those before the rest. */
  datatype Key = Priority(n: int) | Ordered(n: int) | Unordered

  /** `OrderedFirstCompare`. */
  predicate Less(l: Key, r: Key) {
    match (l, r)
    case (Priority(a), Priority(b)) => a < b
    case (Priority(_), _) => true
    case (_, Priority(_)) => false
    case (Ordered(a), Ordered(b)) => a < b
    case (Ordered(_), Unordered) => true
    case (Unordered, _) => false
  }

  /** It is a strict total order on keys. */
  lemma LessIsTotal(a: Key, b: Key, c: Key)
    ensures !Less(a, a)
    ensures Less(a, b) && Less(b, c) ==> Less(a, c)
    ensures Less(a, b) || Less(b, a) || a == b
  {
  }

  ghost predicate TotalPreorder<T(!new)>(le: (T, T) -> bool) {
    && (forall a, b :: le(a, b) || le(b, a))
    && (forall a, b, c :: le(a, b) && le(b, c) ==> le(a, c))
  }

  predicate Sorted<T>(s: seq<T>, le: (T, T) -> bool) {
    forall i, j | 0 <= i < j < |s| :: le(s[i], s[j])
  }

  function Insert<T(!new)>(x: T, s: seq<T>, le: (T, T) -> bool): (r: seq<T>)
    ensures |r| == |s| + 1
    ensures forall y :: y in r <==> y == x || y in s
    ensures multiset(r) == multiset{x} + multiset(s)
  {
    if s == [] then [x]
    else if le(x, s[0]) then [x] + s
    else
      assert s == [s[0]] + s[1..];
      [s[0]] + Insert(x, s[1..], le)
  }

  /** The result of a stable sort. */
  function StableSort<T(!new)>(s: seq<T>, le: (T, T) -> bool): (r: seq<T>)
    ensures |r| == |s|
    ensures forall y :: y in r <==> y in s
    ensures multiset(r) == multiset(s)
  {
    if s == [] then []
    else
      assert s == [s[0]] + s[1..];
      Insert(s[0], StableSort(s[1..], le), le)
  }

  lemma {:induction false} InsertSorted<T(!new)>(x: T, s: seq<T>, le: (T, T) -> bool)
    requires TotalPreorder(le) && Sorted(s, le)
    ensures Sorted(Insert(x, s, le), le)
  {
    if s != [] {
      if le(x, s[0]) {
        assert forall j | 0 <= j < |s| :: le(x, s[j]);
      } else {
        InsertSorted(x, s[1..], le);
        assert forall y | y in s[1..] :: le(s[0], y);
        assert forall y | y in Insert(x, s[1..], le) :: le(s[0], y);
      }
    }
  }

  lemma {:induction false} StableSortSorts<T(!new)>(s: seq<T>, le: (T, T) -> bool)
    requires TotalPreorder(le)
    ensures Sorted(StableSort(s, le), le)
  {
    if s != [] {
      StableSortSorts(s[1..], le);
      InsertSorted(s[0], StableSort(s[1..], le), le);
    }
  }

  predicate Same<T>(x: T, y: T, le: (T, T) -> bool) {
    le(x, y) && le(y, x)
  }

  function Peer<T>(y: T, x: T, le: (T, T) -> bool): seq<T> {
    if Same(x, y, le) then [y] else []
  }

  /** The elements that rank with `x`, in order. */
  function Peers<T>(s: seq<T>, x: T, le: (T, T) -> bool): (r: seq<T>)
    ensures forall y | y in r :: y in s && Same(x, y, le)
  {
    if s == [] then []
    else Peer(s[0], x, le) + Peers(s[1..], x, le)
  }

  lemma {:induction false} PeersConcat<T>(a: seq<T>, b: seq<T>, x: T, le: (T, T) -> bool)
    ensures Peers(a + b, x, le) == Peers(a, x, le) + Peers(b, x, le)
  {
    if a == [] {
      assert a + b == b;
    } else {
      var head, y, z := if Same(x, a[0], le) then [a[0]] else [], Peers(a[1..], x, le), Peers(b, x, le);
      calc {
        Peers(a + b, x, le);
        { assert (a + b)[0] == a[0] && (a + b)[1..] == a[1..] + b; }
        head + Peers(a[1..] + b, x, le);
        { PeersConcat(a[1..], b, x, le); }
        head + (y + z);
        (head + y) + z;
      }
    }
  }

  lemma {:induction false} InsertKeepsPeers<T(!new)>(y: T, s: seq<T>, x: T, le: (T, T) -> bool)
    requires TotalPreorder(le)
    ensures Peers(Insert(y, s, le), x, le) == Peers([y] + s, x, le)
  {
    if s != [] && !le(y, s[0]) {
      InsertKeepsPeers(y, s[1..], x, le);
      PeersOfCons(s[0], Insert(y, s[1..], le), x, le);
      PeersOfCons(y, s[1..], x, le);
      PeersOfCons(y, s, x, le);
      assert !(Same(x, y, le) && Same(x, s[0], le));
      SwapIfOneIsEmpty(Peer(s[0], x, le), Peer(y, x, le), Peers(s[1..], x, le));
    }
  }

  lemma PeersOfCons<T>(y: T, s: seq<T>, x: T, le: (T, T) -> bool)
    ensures Peers([y] + s, x, le) == Peer(y, x, le) + Peers(s, x, le)
  {
    ConsTail(y, s);
  }

  lemma SwapIfOneIsEmpty<T>(a: seq<T>, b: seq<T>, c: seq<T>)
    requires a == [] || b == []
    ensures a + (b + c) == b + (a + c)
  {
  }

  /** A stable sort keeps the order of elements that rank alike. */
  lemma {:induction false} SortKeepsPeers<T(!new)>(s: seq<T>, x: T, le: (T, T) -> bool)
    requires TotalPreorder(le)
    ensures Peers(StableSort(s, le), x, le) == Peers(s, x, le)
  {
    if s != [] {
      SortKeepsPeers(s[1..], x, le);
      var rest := StableSort(s[1..], le);
      InsertKeepsPeers(s[0], rest, x, le);
      assert ([s[0]] + rest)[1..] == rest;
    }
  }

  lemma PeersTail<T>(s: seq<T>, x: T, le: (T, T) -> bool)
    requires s != []
    ensures Same(x, s[0], le) ==> Peers(s, x, le) != [] && Peers(s, x, le)[0] == s[0]
    ensures Peers(s[1..], x, le) == if Same(x, s[0], le) then Peers(s, x, le)[1..] else Peers(s, x, le)
  {
  }

  lemma {:induction false} HasPeer<T>(s: seq<T>, x: T, le: (T, T) -> bool)
    requires x in s && le(x, x)
    ensures x in Peers(s, x, le)
  {
    if s[0] != x {
      HasPeer(s[1..], x, le);
    }
  }

  ghost predicate SamePeers<T(!new)>(a: seq<T>, b: seq<T>, le: (T, T) -> bool) {
    forall x :: Peers(a, x, le) == Peers(b, x, le)
  }

  lemma PeersFound<T(!new)>(a: seq<T>, b: seq<T>, le: (T, T) -> bool)
    requires TotalPreorder(le) && SamePeers(a, b, le)
    ensures forall x | x in a :: x in b
  {
    forall x | x in a
      ensures x in b
    {
      HasPeer(a, x, le);
      assert x in Peers(b, x, le);
    }
  }

  lemma SameHeads<T(!new)>(a: seq<T>, b: seq<T>, le: (T, T) -> bool)
    requires TotalPreorder(le) && Sorted(a, le) && Sorted(b, le) && SamePeers(a, b, le)
    requires a != [] && b != []
    ensures a[0] == b[0]
  {
    PeersFound(a, b, le);
    PeersFound(b, a, le);
    HeadIsLeast(a, b[0], le);
    HeadIsLeast(b, a[0], le);
    PeersTail(a, a[0], le);
    PeersTail(b, a[0], le);
    assert Peers(a, a[0], le) == Peers(b, a[0], le);
  }

  lemma SameTails<T(!new)>(a: seq<T>, b: seq<T>, le: (T, T) -> bool)
    requires SamePeers(a, b, le) && a != [] && b != [] && a[0] == b[0]
    ensures SamePeers(a[1..], b[1..], le)
  {
    forall x
      ensures Peers(a[1..], x, le) == Peers(b[1..], x, le)
    {
      assert Peers(a, x, le) == Peers(b, x, le);
      PeersTail(a, x, le);
      PeersTail(b, x, le);
    }
  }

  /** Sorted sequences with the same elements of every rank, in the same order, are equal. */
  lemma {:induction false} SortedUnique<T(!new)>(a: seq<T>, b: seq<T>, le: (T, T) -> bool)
    requires TotalPreorder(le) && Sorted(a, le) && Sorted(b, le) && SamePeers(a, b, le)
    ensures a == b
    decreases |a|
  {
    assert (a != [] ==> a[0] in a) && (b != [] ==> b[0] in b);
    PeersFound(a, b, le);
    PeersFound(b, a, le);
    if a != [] {
      SameHeads(a, b, le);
      SameTails(a, b, le);
      SortedUnique(a[1..], b[1..], le);
      assert a == [a[0]] + a[1..] && b == [b[0]] + b[1..];
    }
  }

  lemma HeadIsLeast<T(!new)>(s: seq<T>, x: T, le: (T, T) -> bool)
    requires TotalPreorder(le) && Sorted(s, le) && x in s
    ensures le(s[0], x)
  {
    var i :| 0 <= i < |s| && s[i] == x;
    assert i > 0 ==> le(s[0], s[i]);
  }

  /** Sorting a part first makes no difference to sorting the whole. */
  lemma SortPartFirst<T(!new)>(a: seq<T>, b: seq<T>, c: seq<T>, le: (T, T) -> bool)
    requires TotalPreorder(le)
    ensures StableSort(a + StableSort(b, le) + c, le) == StableSort(a + b + c, le)
  {
    var x, y := a + StableSort(b, le) + c, a + b + c;
    StableSortSorts(x, le);
    StableSortSorts(y, le);
    forall z
      ensures Peers(StableSort(x, le), z, le) == Peers(StableSort(y, le), z, le)
    {
      SortKeepsPeers(x, z, le);
      SortKeepsPeers(y, z, le);
      SortKeepsPeers(b, z, le);
      PeersConcat(a + StableSort(b, le), c, z, le);
      PeersConcat(a, StableSort(b, le), z, le);
      PeersConcat(a + b, c, z, le);
      PeersConcat(a, b, z, le);
    }
    SortedUnique(StableSort(x, le), StableSort(y, le), le);
  }

  /** A sorted sequence is left alone. */
  lemma SortOfSorted<T(!new)>(s: seq<T>, le: (T, T) -> bool)
    requires TotalPreorder(le) && Sorted(s, le)
    ensures StableSort(s, le) == s
  {
    StableSortSorts(s, le);
    forall z
      ensures Peers(StableSort(s, le), z, le) == Peers(s, z, le)
    {
      SortKeepsPeers(s, z, le);
    }
    SortedUnique(StableSort(s, le), s, le);
  }

  /***************************** Classes *****************************/

  /** Priority ordered elements first, then ordered ones, each by number, then the rest. */
  ghost predicate ByClass<T>(s: seq<T>, key: T -> Key) {
    exists p, o :: ClassesAt(s, key, p, o)
  }

  ghost predicate ClassesAt<T>(s: seq<T>, key: T -> Key, p: nat, o: nat) {
    && p <= o <= |s|
    && (forall i | 0 <= i < |s| :: (key(s[i]).Priority? <==> i < p) && (key(s[i]).Unordered? <==> o <= i))
    && (forall i, j | 0 <= i < j < p :: key(s[i]).n <= key(s[j]).n)
    && (forall i, j | p <= i < j < o :: key(s[i]).n <= key(s[j]).n)
  }

  ghost predicate InOrder<T>(s: seq<T>, key: T -> Key) {
    forall i, j | 0 <= i < j < |s| :: !Less(key(s[j]), key(s[i]))
  }

  lemma ClassesInOrder<T>(s: seq<T>, key: T -> Key, p: nat, o: nat)
    requires ClassesAt(s, key, p, o)
    ensures InOrder(s, key)
  {
  }

  /** One more element that nothing before it ranks behind. */
  lemma ClassesGrow<T>(s: seq<T>, key: T -> Key, p: nat, o: nat, x: T)
    requires ClassesAt(s, key, p, o) && forall i | 0 <= i < |s| :: !Less(key(x), key(s[i]))
    ensures var n := |s| + 1;
            match key(x)
            case Priority(_) => ClassesAt(s + [x], key, n, n)
            case Ordered(_) => ClassesAt(s + [x], key, p, n)
            case Unordered => ClassesAt(s + [x], key, p, o)
  {
    assert p < |s| ==> !key(s[p]).Priority?;
    assert o < |s| ==> key(s[o]).Unordered?;
  }

  lemma {:induction false} FindClasses<T>(s: seq<T>, key: T -> Key)
    requires InOrder(s, key)
    ensures ByClass(s, key)
    decreases |s|
  {
    if s == [] {
      assert ClassesAt(s, key, 0, 0);
    } else {
      var n := |s| - 1;
      FindClasses(s[..n], key);
      var p, o :| ClassesAt(s[..n], key, p, o);
      ClassesGrow(s[..n], key, p, o, s[n]);
      assert s[..n] + [s[n]] == s;
    }
  }

  /** What sorting by `Less` means: the classes one after the other, by number within the
      first two. */
  lemma InOrderIsByClass<T>(s: seq<T>, key: T -> Key)
    ensures InOrder(s, key) <==> ByClass(s, key)
  {
    if InOrder(s, key) {
      FindClasses(s, key);
    }
    if p, o :| ClassesAt(s, key, p, o) {
      ClassesInOrder(s, key, p, o);
    }
  }

  /** The elements with a given key, in order. */
  function OfKey<T>(s: seq<T>, key: T -> Key, k: Key): seq<T> {
    if s == [] then [] else (if key(s[0]) == k then [s[0]] else []) + OfKey(s[1..], key, k)
  }

  lemma {:induction false} PeersHaveOneKey<T>(s: seq<T>, x: T, key: T -> Key, le: (T, T) -> bool)
    requires forall y | y in s :: Same(x, y, le) <==> key(x) == key(y)
    ensures Peers(s, x, le) == OfKey(s, key, key(x))
  {
    if s != [] {
      assert s[0] in s;
      PeersHaveOneKey(s[1..], x, key, le);
    }
  }

  lemma {:induction false} NoneOfKey<T>(s: seq<T>, key: T -> Key, k: Key)
    requires forall x | x in s :: key(x) != k
    ensures OfKey(s, key, k) == []
  {
    if s != [] {
      assert s[0] in s;
      NoneOfKey(s[1..], key, k);
    }
  }

  /** A stable sort keeps the elements with one key in their order. */
  lemma SortKeepsOfKey<T(!new)>(s: seq<T>, key: T -> Key, le: (T, T) -> bool, k: Key)
    requires TotalPreorder(le) && forall a, b :: Same(a, b, le) <==> key(a) == key(b)
    ensures OfKey(StableSort(s, le), key, k) == OfKey(s, key, k)
  {
    if x :| x in s && key(x) == k {
      SortKeepsPeers(s, x, le);
      PeersHaveOneKey(s, x, key, le);
      PeersHaveOneKey(StableSort(s, le), x, key, le);
    } else {
      NoneOfKey(s, key, k);
      NoneOfKey(StableSort(s, le), key, k);
    }
  }

  /***************************** Permutations *****************************/

  lemma Twice<T>(s: seq<T>, i: nat, j: nat)
    requires i < j < |s| && s[i] == s[j]
    ensures multiset(s)[s[i]] >= 2
  {
    assert s == s[..i] + [s[i]] + s[i + 1..];
    assert s[i + 1..][j - i - 1] == s[j];
    assert s[j] in s[i + 1..];
  }

  lemma {:induction false} AtMostOnce<T>(s: seq<T>, x: T)
    requires Distinct(s)
    ensures multiset(s)[x] <= 1
  {
    if s != [] {
      var n := |s| - 1;
      assert s == s[..n] + [s[n]];
      AtMostOnce(s[..n], x);
      assert s[n] !in s[..n];
    }
  }

  /** Rearranging distinct elements keeps them distinct. */
  lemma PermutedDistinct<T>(a: seq<T>, b: seq<T>)
    requires Distinct(a) && multiset(a) == multiset(b)
    ensures Distinct(b)
  {
    forall i, j | 0 <= i < j < |b|
      ensures b[i] != b[j]
    {
      if b[i] == b[j] {
        Twice(b, i, j);
        AtMostOnce(a, b[i]);
      }
    }
  }
}
