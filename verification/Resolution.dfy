/** Whole runs: visiting the leaves of a configuration in any order. */
module Resolution {
  import opened Collections
  import opened Text
  import opened Resolver
  import opened Substitution
  import opened Memo

  /** Visiting leaves one after the other, stopping at the first error. */
  function VisitAll(r: Run, st: Store, order: seq<string>): (o: Outcome)
    requires Shuffles(r) && Within(st, r.universe)
    ensures Within(o.st, r.universe) && o.st.Keys == st.Keys
    decreases |order|
  {
    if order == [] then Outcome(st, Ok(Nil))
    else
      var o := ResolveValue(r, st, order[0], []);
      if o.res.Ok? then VisitAll(r, o.st, order[1..]) else o
  }

  /** The keys of the store are normalised, and a run can resolve it. */
  ghost predicate Loadable(r: Run, st: Store) {
    && Shuffles(r) && Within(st, r.universe)
    && forall k | k in st :: r.norm(k) == k
  }

  ghost predicate IsVisitOf(order: seq<string>, st: Store) {
    forall k | k in order :: k in st
  }

  /** No leaf refers to a leaf that collapses. */
  ghost predicate Clean(st: Store, g: Graph, vs: Values) {
    forall k | k in st && st[k].Str? :: NoneCollapses(vs, g.norm, st[k].ts)
  }

  ghost predicate AllResolve(order: seq<string>, vs: Values) {
    forall k | k in order :: ValueAt(vs, k).Some?
  }

  lemma {:induction false} VisitsFromMemo(r: Run, st0: Store, g: Graph, vs: Values, st: Store, order: seq<string>)
    requires Loadable(r, st0) && r.norm == g.norm && Ranked(st0, g) && WellFormed(st0, g) && vs == PureValues(st0, g)
    requires Clean(st0, g, vs) && Memoised(st0, vs, st) && Within(st, r.universe) && IsVisitOf(order, st0)
    ensures var o := VisitAll(r, st, order);
            && Memoised(st0, vs, o.st)
            && (o.res.Ok? <==> AllResolve(order, vs)) && (!o.res.Ok? ==> o.res == BadSyntax)
            && (forall k | k in st0 && st[k] == Final(st0, vs, k) :: o.st[k] == Final(st0, vs, k))
            && (o.res.Ok? ==> forall k | k in order :: o.st[k] == Final(st0, vs, k))
    decreases |order|
  {
    if order != [] {
      var k := order[0];
      assert k in order;
      assert CleanBelow(st0, g, vs, g.rank(k) + 1);
      var o := ResolveValue(r, st, k, []);
      ResolveIsPure(r, st0, g, vs, st, k, []);
      if o.res.Ok? {
        assert forall x :: x in order <==> x == k || x in order[1..];
        assert ValueAt(vs, k).Some?;
        VisitsFromMemo(r, st0, g, vs, o.st, order[1..]);
      }
    }
  }

  /** For every configuration without reference cycles in which no leaf refers to a leaf
      that collapses, and for every sequence of visits: the run succeeds exactly when every
      visited leaf has a value, and then each visited leaf holds its pure substitution. */
  lemma VisitsArePure(r: Run, st0: Store, g: Graph, order: seq<string>)
    requires Loadable(r, st0) && r.norm == g.norm && Ranked(st0, g) && WellFormed(st0, g)
    requires Clean(st0, g, PureValues(st0, g)) && IsVisitOf(order, st0)
    ensures var vs := PureValues(st0, g);
            var o := VisitAll(r, st0, order);
            && (o.res.Ok? <==> AllResolve(order, vs)) && (!o.res.Ok? ==> o.res == BadSyntax)
            && (o.res.Ok? ==> forall k | k in order :: o.st[k] == Final(st0, vs, k))
  {
    VisitsFromMemo(r, st0, g, PureValues(st0, g), st0, order);
  }

  ghost predicate Covers(order: seq<string>, st: Store) {
    IsVisitOf(order, st) && forall k | k in st :: k in order
  }

  /** The keys visited so far, each once, and those that remain. */
  ghost predicate Visited(order: seq<string>, keys: set<string>, remaining: set<string>) {
    remaining <= keys && Distinct(order) && forall k :: k in order <==> k in keys && k !in remaining
  }

  lemma VisitedOneMore(order: seq<string>, keys: set<string>, remaining: set<string>, k: string)
    requires Visited(order, keys, remaining) && k in remaining
    ensures Visited(order + [k], keys, remaining - {k})
  {
  }

  lemma VisitedSoFar(order: seq<string>, st: Store, remaining: set<string>)
    requires Visited(order, st.Keys, remaining)
    ensures IsVisitOf(order, st) && Distinct(order) && (remaining == {} ==> Complete(order, st))
  {
  }

  /** A run as it happens: every leaf is visited, once. */
  ghost predicate Complete(order: seq<string>, st: Store) {
    Covers(order, st) && Distinct(order)
  }

  /** Two complete runs, whatever their visiting and iteration orders, agree on success and
      end in the same configuration. */
  lemma OrderIsIrrelevant(r: Run, r': Run, st0: Store, g: Graph, order: seq<string>, order': seq<string>)
    requires Loadable(r, st0) && Loadable(r', st0) && r.norm == r'.norm == g.norm && Ranked(st0, g)
    requires WellFormed(st0, g)
    requires Clean(st0, g, PureValues(st0, g)) && Covers(order, st0) && Covers(order', st0)
    ensures var o, o' := VisitAll(r, st0, order), VisitAll(r', st0, order');
            o.res == o'.res && (o.res.Ok? ==> o.st == o'.st)
  {
    var vs := PureValues(st0, g);
    FullVisit(r, st0, g, order, vs);
    FullVisit(r', st0, g, order', vs);
    var o, o' := VisitAll(r, st0, order), VisitAll(r', st0, order');
    if o.res.Ok? {
      SameStores(st0, vs, o.st, o'.st);
    }
  }

  /** What a visit of all the leaves ends with does not mention the order. */
  lemma FullVisit(r: Run, st0: Store, g: Graph, order: seq<string>, vs: Values)
    requires Loadable(r, st0) && r.norm == g.norm && Ranked(st0, g) && WellFormed(st0, g) && vs == PureValues(st0, g)
    requires Clean(st0, g, vs) && Covers(order, st0)
    ensures var o := VisitAll(r, st0, order);
            && o.st.Keys == st0.Keys
            && o.res == (if forall k | k in st0 :: ValueAt(vs, k).Some? then Ok(Nil) else BadSyntax)
            && (o.res.Ok? ==> forall k | k in st0 :: o.st[k] == Final(st0, vs, k))
  {
    VisitsArePure(r, st0, g, order);
    OkIsNil(r, st0, order);
  }

  lemma SameStores(st0: Store, vs: Values, st: Store, st': Store)
    requires st.Keys == st'.Keys == st0.Keys
    requires forall k | k in st0 :: st[k] == Final(st0, vs, k)
    requires forall k | k in st0 :: st'[k] == Final(st0, vs, k)
    ensures st == st'
  {
  }

  lemma {:induction false} OkIsNil(r: Run, st: Store, order: seq<string>)
    requires Shuffles(r) && Within(st, r.universe)
    ensures VisitAll(r, st, order).res.Ok? ==> VisitAll(r, st, order).res == Ok(Nil)
    decreases |order|
  {
    if order != [] {
      var o := ResolveValue(r, st, order[0], []);
      if o.res.Ok? {
        OkIsNil(r, o.st, order[1..]);
      }
    }
  }

  lemma {:induction false} VisitOneMore(r: Run, st: Store, order: seq<string>, k: string)
    requires Shuffles(r) && Within(st, r.universe) && VisitAll(r, st, order).res.Ok?
    ensures var o := VisitAll(r, st, order);
            var one := ResolveValue(r, o.st, k, []);
            VisitAll(r, st, order + [k]) == Outcome(one.st, if one.res.Ok? then Ok(Nil) else one.res)
    decreases |order|
  {
    if order == [] {
      assert [k][1..] == [];
    } else {
      var o := ResolveValue(r, st, order[0], []);
      VisitOneMore(r, o.st, order[1..], k);
      assert (order + [k])[1..] == order[1..] + [k];
    }
  }

  ghost function Finals(st: Store, g: Graph): Store
    requires Ranked(st, g)
  {
    map k | k in st :: Final(st, PureValues(st, g), k)
  }

  /** How a run over a clean configuration ends. */
  lemma CleanEnd(r: Run, st: Store, g: Graph, order: seq<string>)
    requires Loadable(r, st) && r.norm == g.norm && Ranked(st, g) && WellFormed(st, g)
    requires Clean(st, g, PureValues(st, g))
    requires IsVisitOf(order, st) && (VisitAll(r, st, order).res.Ok? ==> Covers(order, st))
    ensures var o := VisitAll(r, st, order);
            && (o.res.Ok? <==> forall k | k in st :: Pure(st, g, k).Some?)
            && (o.res.Ok? ==> o.st == Finals(st, g))
  {
    VisitsArePure(r, st, g, order);
    AllOrSome(st, g, order);
    var o := VisitAll(r, st, order);
    if o.res.Ok? {
      EndsWithFinals(st, g, order, o.st);
    }
  }

  lemma EndsWithFinals(st: Store, g: Graph, order: seq<string>, st': Store)
    requires Ranked(st, g) && Covers(order, st) && st'.Keys == st.Keys
    requires forall k | k in order :: st'[k] == Final(st, PureValues(st, g), k)
    ensures st' == Finals(st, g)
  {
  }

  lemma AllOrSome(st: Store, g: Graph, order: seq<string>)
    requires Ranked(st, g) && IsVisitOf(order, st)
    ensures (forall k | k in st :: Pure(st, g, k).Some?) ==> AllResolve(order, PureValues(st, g))
    ensures Covers(order, st) && AllResolve(order, PureValues(st, g)) ==> forall k | k in st :: Pure(st, g, k).Some?
  {
    forall k | k in st
      ensures Pure(st, g, k) == ValueAt(PureValues(st, g), k)
    {
      PureIsValueAt(st, g, k);
    }
  }
}
