/** The features of a web security, and what configurers do to them: enabling one that is
    there returns the instance that was configured before.
 */
module FeatureList {
  import opened Collections
  import opened Ordering

  datatype FeatureId = FeatureId(name: nat, key: Key)

  /** A feature and which of possibly several instances with that identifier it is. */
  datatype Feature = Feature(id: FeatureId, instance: nat)

  /** What a configurer does to the feature list. */
  datatype Op = Enable(f: Feature) | With(f: Feature) | Disable(f: Feature)

  /** The features of a web security, the identifiers applied so far, the change flag. */
  datatype State = State(features: seq<Feature>, applied: set<FeatureId>, changed: bool)

  function FindFeature(fs: seq<Feature>, f: Feature): (i: int)
    ensures -1 <= i < |fs|
    ensures i >= 0 ==> fs[i].id == f.id
    ensures i < 0 ==> forall j | 0 <= j < |fs| :: fs[j].id != f.id
  {
    if fs == [] then -1
    else if fs[0].id == f.id then 0
    else
      var r := FindFeature(fs[1..], f);
      assert r < 0 ==> forall j | 1 <= j < |fs| :: fs[j] == fs[1..][j - 1];
      if r < 0 then -1 else r + 1
  }

  datatype Effect = Panics | Goes(st: State)

  /** `Enable`: panics for a feature that has been applied, does nothing for one that is
      there, and appends otherwise. `With` also panics if another instance is there. */
  function Do(st: State, op: Op): Effect {
    var i := FindFeature(st.features, op.f);
    if op.Disable? then
      if i < 0 then Goes(st)
      else Goes(State(st.features[..i] + st.features[i + 1..], st.applied, true))
    else if op.f.id in st.applied then Panics
    else if i < 0 then Goes(State(st.features + [op.f], st.applied, true))
    else if op.With? && st.features[i] != op.f then Panics
    else Goes(st)
  }

  function DoAll(st: State, ops: seq<Op>): Effect
    decreases |ops|
  {
    if ops == [] then Goes(st)
    else
      match Do(st, ops[0])
      case Panics => Panics
      case Goes(st1) => DoAll(st1, ops[1..])
  }

  predicate UniqueIds(fs: seq<Feature>) {
    forall i, j | 0 <= i < j < |fs| :: fs[i].id != fs[j].id
  }

  function Ids(fs: seq<Feature>): set<FeatureId> {
    set f | f in fs :: f.id
  }

  lemma DoCons(st: State, op: Op, ops: seq<Op>)
    ensures DoAll(st, [op] + ops) == if Do(st, op).Panics? then Panics else DoAll(Do(st, op).st, ops)
  {
    ConsTail(op, ops);
  }

  /***************************** What is left *****************************/

  function Disabled(ops: seq<Op>): set<FeatureId> {
    set op | op in ops && op.Disable? :: op.f.id
  }

  /** The features with other identifiers than those, in their order. */
  function Except(fs: seq<Feature>, gone: set<FeatureId>): seq<Feature> {
    if fs == [] then [] else (if fs[0].id in gone then [] else [fs[0]]) + Except(fs[1..], gone)
  }

  /** Operation `n` asks for a feature. */
  predicate Asks(ops: seq<Op>, n: nat, id: FeatureId) {
    n < |ops| && !ops[n].Disable? && ops[n].f.id == id
  }

  /** A feature with that identifier is there after the operations: it was there, or one of
      them asked for it, and none disabled it since. */
  ghost predicate Held(fs: seq<Feature>, ops: seq<Op>, id: FeatureId) {
    || (id in Ids(fs) && id !in Disabled(ops))
    || exists n: nat :: Asks(ops, n, id) && id !in Disabled(ops[n + 1..])
  }

  /** The instance that operation `n` asks for is taken in, because none is held, and stays. */
  ghost predicate Arrives(fs: seq<Feature>, ops: seq<Op>, n: nat) {
    && n < |ops| && !ops[n].Disable?
    && !Held(fs, ops[..n], ops[n].f.id) && ops[n].f.id !in Disabled(ops[n + 1..])
  }

  ghost function Arriving(fs: seq<Feature>, ops: seq<Op>, n: nat): seq<Feature>
    requires n <= |ops|
  {
    if n == 0 then [] else Arriving(fs, ops, n - 1) + (if Arrives(fs, ops, n - 1) then [ops[n - 1].f] else [])
  }

  /** The features after the operations: the old ones that were not disabled, then the new
      ones in the order they were taken in. */
  ghost function Left(fs: seq<Feature>, ops: seq<Op>): seq<Feature> {
    Except(fs, Disabled(ops)) + Arriving(fs, ops, |ops|)
  }

  /** Operation `n` adds a feature or removes one. */
  ghost predicate Changes(fs: seq<Feature>, ops: seq<Op>, n: nat) {
    n < |ops| && (ops[n].Disable? <==> Held(fs, ops[..n], ops[n].f.id))
  }

  /** Operation `n` asks for a feature that has been applied, or insists on an instance
      while another one is held. */
  ghost predicate Forbidden(st: State, ops: seq<Op>, n: nat) {
    && n < |ops| && !ops[n].Disable?
    && (|| ops[n].f.id in st.applied
        || (ops[n].With? && exists g :: g in Left(st.features, ops[..n]) && g.id == ops[n].f.id && g != ops[n].f))
  }

  lemma {:induction false} ExceptHas(fs: seq<Feature>, gone: set<FeatureId>, f: Feature)
    ensures f in Except(fs, gone) <==> f in fs && f.id !in gone
  {
    if fs != [] {
      ExceptHas(fs[1..], gone, f);
    }
  }

  lemma {:induction false} ExceptConcat(a: seq<Feature>, b: seq<Feature>, gone: set<FeatureId>)
    ensures Except(a + b, gone) == Except(a, gone) + Except(b, gone)
  {
    if a == [] {
      EmptyLeft(b);
    } else {
      HeadOfConcat(a, b);
      ExceptConcat(a[1..], b, gone);
    }
  }

  lemma {:induction false} ExceptNone(fs: seq<Feature>, gone: set<FeatureId>)
    requires forall f | f in fs :: f.id !in gone
    ensures Except(fs, gone) == fs
  {
    if fs != [] {
      assert fs[0] in fs;
      ExceptNone(fs[1..], gone);
    }
  }

  lemma {:induction false} ExceptTwice(fs: seq<Feature>, gone: set<FeatureId>, more: set<FeatureId>)
    ensures Except(Except(fs, gone), more) == Except(fs, gone + more)
  {
    if fs != [] {
      ExceptTwice(fs[1..], gone, more);
      ConsTail(fs[0], Except(fs[1..], gone));
      EmptyLeft(Except(fs[1..], gone));
    }
  }

  /** Removing the one feature with an identifier. */
  lemma {:induction false} RemoveIsExcept(fs: seq<Feature>, i: nat)
    requires UniqueIds(fs) && i < |fs|
    ensures Except(fs, {fs[i].id}) == fs[..i] + fs[i + 1..]
  {
    var rest := fs[1..];
    if i == 0 {
      ExceptNone(rest, {fs[0].id});
    } else {
      RemoveIsExcept(rest, i - 1);
      assert fs[..i] + fs[i + 1..] == [fs[0]] + (rest[..i - 1] + rest[i..]);
    }
  }

  lemma DisabledMore(ops: seq<Op>, op: Op)
    ensures Disabled(ops + [op]) == Disabled(ops) + (if op.Disable? then {op.f.id} else {})
  {
    assert forall x :: x in ops + [op] <==> x in ops || x == op;
  }

  lemma DropMore(ops: seq<Op>, op: Op, n: nat)
    requires n <= |ops|
    ensures (ops + [op])[n..] == ops[n..] + [op] && (ops + [op])[..n] == ops[..n]
  {
  }

  /** Whether a feature is held after one more operation. */
  lemma HeldMore(fs: seq<Feature>, ops: seq<Op>, op: Op, id: FeatureId)
    ensures Held(fs, ops + [op], id) <==> if op.f.id == id then !op.Disable? else Held(fs, ops, id)
  {
    var more := ops + [op];
    DisabledMore(ops, op);
    forall n: nat | Asks(ops, n, id)
      ensures Asks(more, n, id) && Disabled(more[n + 1..]) == Disabled(ops[n + 1..]) + (if op.Disable? then {op.f.id} else {})
    {
      DropMore(ops, op, n + 1);
      DisabledMore(ops[n + 1..], op);
    }
    if op.f.id == id && !op.Disable? {
      assert Asks(more, |ops|, id) && more[|ops| + 1..] == [];
    }
    if n: nat :| Asks(more, n, id) && id !in Disabled(more[n + 1..]) && n < |ops| {
      assert Asks(ops, n, id);
    }
  }

  lemma ArrivesMore(fs: seq<Feature>, ops: seq<Op>, op: Op, n: nat)
    requires n < |ops|
    ensures Arrives(fs, ops + [op], n) <==> Arrives(fs, ops, n) && !(op.Disable? && op.f.id == ops[n].f.id)
  {
    DropMore(ops, op, n);
    DropMore(ops, op, n + 1);
    DisabledMore(ops[n + 1..], op);
  }

  /** What has arrived by operation `n`, after one more operation. */
  lemma {:induction false} ArrivingMore(fs: seq<Feature>, ops: seq<Op>, op: Op, n: nat)
    requires n <= |ops|
    ensures Arriving(fs, ops + [op], n) == Except(Arriving(fs, ops, n), if op.Disable? then {op.f.id} else {})
  {
    if n > 0 {
      ArrivesMore(fs, ops, op, n - 1);
      ArrivingMore(fs, ops, op, n - 1);
      ExceptConcat(Arriving(fs, ops, n - 1), if Arrives(fs, ops, n - 1) then [ops[n - 1].f] else [],
                   if op.Disable? then {op.f.id} else {});
    }
  }

  /** What is left after one more operation. */
  lemma LeftMore(fs: seq<Feature>, ops: seq<Op>, op: Op)
    ensures Left(fs, ops + [op]) ==
            if op.Disable? then Except(Left(fs, ops), {op.f.id})
            else Left(fs, ops) + (if Held(fs, ops, op.f.id) then [] else [op.f])
  {
    var gone := if op.Disable? then {op.f.id} else {};
    var kept, taken := Except(fs, Disabled(ops)), Arriving(fs, ops, |ops|);
    DisabledMore(ops, op);
    ArrivingMore(fs, ops, op, |ops|);
    ExceptTwice(fs, Disabled(ops), gone);
    ExceptConcat(kept, taken, gone);
    ExceptNone(kept + taken, {});
    LastArrives(fs, ops, op);
    Regroup(Except(kept, gone), Except(taken, gone), if op.Disable? || Held(fs, ops, op.f.id) then [] else [op.f]);
  }

  lemma LastArrives(fs: seq<Feature>, ops: seq<Op>, op: Op)
    ensures Arrives(fs, ops + [op], |ops|) <==> !op.Disable? && !Held(fs, ops, op.f.id)
  {
    DropMore(ops, op, |ops|);
    assert (ops + [op])[|ops| + 1..] == [];
  }

  ghost predicate SomeForbidden(st: State, ops: seq<Op>) {
    exists n: nat :: Forbidden(st, ops, n)
  }

  ghost predicate SomeChanges(fs: seq<Feature>, ops: seq<Op>) {
    exists n: nat :: Changes(fs, ops, n)
  }

  lemma ForbiddenMore(st: State, ops: seq<Op>, op: Op)
    ensures SomeForbidden(st, ops + [op]) <==> SomeForbidden(st, ops) || Forbidden(st, ops + [op], |ops|)
  {
    forall n: nat | n < |ops|
      ensures Forbidden(st, ops + [op], n) <==> Forbidden(st, ops, n)
    {
      DropMore(ops, op, n);
    }
  }

  lemma ChangesMore(fs: seq<Feature>, ops: seq<Op>, op: Op)
    ensures SomeChanges(fs, ops + [op]) <==> SomeChanges(fs, ops) || (op.Disable? <==> Held(fs, ops, op.f.id))
  {
    var more := ops + [op];
    forall n: nat | n < |ops|
      ensures Changes(fs, more, n) <==> Changes(fs, ops, n)
    {
      DropMore(ops, op, n);
    }
    DropMore(ops, op, |ops|);
    assert more[|ops|] == op && more[..|ops|] == ops;
    assert Changes(fs, more, |ops|) <==> (op.Disable? <==> Held(fs, ops, op.f.id));
  }

  lemma {:induction false} DoAllMore(st: State, ops: seq<Op>, op: Op)
    ensures DoAll(st, ops + [op]) == if DoAll(st, ops).Panics? then Panics else Do(DoAll(st, ops).st, op)
    decreases |ops|
  {
    if ops == [] {
      assert [] + [op] == [op] && [op][1..] == [];
    } else {
      HeadOfConcat(ops, [op]);
      if Do(st, ops[0]).Goes? {
        DoAllMore(Do(st, ops[0]).st, ops[1..], op);
      }
    }
  }

  /** The features are those left, and the identifiers those held. */
  ghost predicate Reflects(fs: seq<Feature>, ops: seq<Op>, now: seq<Feature>) {
    now == Left(fs, ops) && UniqueIds(now) && forall id :: id in Ids(now) <==> Held(fs, ops, id)
  }

  lemma HeldAtFirst(fs: seq<Feature>)
    requires UniqueIds(fs)
    ensures Reflects(fs, [], fs) && !SomeChanges(fs, [])
  {
    ExceptNone(fs, {});
    EmptyRight(fs);
    assert Disabled([]) == {};
  }

  lemma FindTells(fs: seq<Feature>, f: Feature)
    ensures FindFeature(fs, f) >= 0 <==> f.id in Ids(fs)
  {
    var i := FindFeature(fs, f);
    if i >= 0 {
      assert fs[i] in fs;
    }
  }

  /** Operation `op` does to the features what it should, when `ops` came before. */
  ghost predicate DoesRight(fs: seq<Feature>, ops: seq<Op>, st: State, op: Op) {
    var e := Do(st, op);
    e.Goes? ==>
      && e.st.applied == st.applied && e.st.features == Left(fs, ops + [op]) && UniqueIds(e.st.features)
      && (e.st.changed <==> st.changed || (op.Disable? <==> Held(fs, ops, op.f.id)))
  }

  lemma {:induction false} ExceptUnique(fs: seq<Feature>, gone: set<FeatureId>)
    requires UniqueIds(fs)
    ensures UniqueIds(Except(fs, gone))
  {
    if fs != [] {
      ExceptUnique(fs[1..], gone);
      forall f | f in Except(fs[1..], gone)
        ensures f.id != fs[0].id
      {
        ExceptHas(fs[1..], gone, f);
      }
    }
  }

  /** Taking out what is found under an identifier leaves the others. */
  lemma TakenOut(fs: seq<Feature>, f: Feature, i: int)
    requires UniqueIds(fs) && i == FindFeature(fs, f)
    ensures i >= 0 <==> f.id in Ids(fs)
    ensures i >= 0 ==> fs[..i] + fs[i + 1..] == Except(fs, {f.id})
    ensures i < 0 ==> fs == Except(fs, {f.id})
  {
    FindTells(fs, f);
    if i >= 0 {
      RemoveIsExcept(fs, i);
    } else {
      ExceptNone(fs, {f.id});
    }
  }

  lemma DoDisable(st: State, op: Op)
    requires UniqueIds(st.features) && op.Disable?
    ensures Do(st, op) ==
            Goes(State(Except(st.features, {op.f.id}), st.applied, st.changed || op.f.id in Ids(st.features)))
  {
    TakenOut(st.features, op.f, FindFeature(st.features, op.f));
  }

  lemma DisableDoesRight(fs: seq<Feature>, ops: seq<Op>, st: State, op: Op)
    requires Reflects(fs, ops, st.features) && op.Disable?
    ensures Do(st, op).Goes? && DoesRight(fs, ops, st, op)
  {
    DoDisable(st, op);
    LeftMore(fs, ops, op);
    ExceptUnique(st.features, {op.f.id});
  }

  lemma AskDoesRight(fs: seq<Feature>, ops: seq<Op>, st: State, op: Op)
    requires Reflects(fs, ops, st.features) && !op.Disable?
    ensures DoesRight(fs, ops, st, op)
  {
    LeftMore(fs, ops, op);
    EmptyRight(st.features);
    FindTells(st.features, op.f);
  }

  lemma ForbiddenNow(st: State, op: Op)
    requires UniqueIds(st.features)
    ensures Do(st, op).Panics? <==>
            !op.Disable? && (op.f.id in st.applied ||
                             (op.With? && exists g :: g in st.features && g.id == op.f.id && g != op.f))
  {
    FindTells(st.features, op.f);
    var i := FindFeature(st.features, op.f);
    if i >= 0 {
      assert st.features[i] in st.features;
      assert forall g | g in st.features && g.id == op.f.id :: g == st.features[i];
    }
  }

  lemma IdsAfter(fs: seq<Feature>, ops: seq<Op>, op: Op, id: FeatureId)
    requires forall x :: x in Ids(Left(fs, ops)) <==> Held(fs, ops, x)
    ensures id in Ids(Left(fs, ops + [op])) <==> Held(fs, ops + [op], id)
  {
    LeftMore(fs, ops, op);
    HeldMore(fs, ops, op, id);
    var before := Left(fs, ops);
    if op.Disable? {
      forall f
        ensures f in Except(before, {op.f.id}) <==> f in before && f.id != op.f.id
      {
        ExceptHas(before, {op.f.id}, f);
      }
    } else {
      assert op.f in before + [op.f];
      assert forall f | f in before :: f in before + [op.f];
    }
  }

  /** Any series of operations, told without carrying them out: it panics exactly if one of
      them is forbidden; otherwise the old features that are not disabled stay where they are,
      as the same instances, behind them come the first instances asked for since they were
      last missing, and the change flag is set exactly if some operation made a change. */
  lemma {:induction false} DoneExactly(st: State, ops: seq<Op>)
    requires UniqueIds(st.features)
    ensures DoAll(st, ops).Panics? <==> SomeForbidden(st, ops)
    ensures DoAll(st, ops).Goes? ==>
              && DoAll(st, ops).st == State(Left(st.features, ops), st.applied, st.changed || SomeChanges(st.features, ops))
              && Reflects(st.features, ops, DoAll(st, ops).st.features)
    decreases |ops|
  {
    if ops == [] {
      HeldAtFirst(st.features);
    } else {
      var init, op := ops[..|ops| - 1], ops[|ops| - 1];
      assert init + [op] == ops && ops[..|init|] == init;
      DoneExactly(st, init);
      DoAllMore(st, init, op);
      ForbiddenMore(st, init, op);
      if DoAll(st, init).Goes? {
        var now := DoAll(st, init).st;
        ForbiddenNow(now, op);
        if op.Disable? {
          DisableDoesRight(st.features, init, now, op);
        } else {
          AskDoesRight(st.features, init, now, op);
        }
        ChangesMore(st.features, init, op);
        forall id
          ensures id in Ids(Left(st.features, ops)) <==> Held(st.features, ops, id)
        {
          IdsAfter(st.features, init, op, id);
        }
      }
    }
  }

  /** Without a disabling operation the old features come first, unchanged, and every new
      one is the first instance asked for under its identifier. */
  lemma EnablingKeepsAll(st: State, ops: seq<Op>)
    requires UniqueIds(st.features) && DoAll(st, ops).Goes? && forall op | op in ops :: !op.Disable?
    ensures var now := DoAll(st, ops).st.features;
            && st.features <= now
            && (forall f | f in now[|st.features|..] :: exists n: nat :: IsFirstAsked(ops, n, f) && f.id !in Ids(st.features))
            && (forall op | op in ops :: op.f.id in Ids(now))
  {
    DoneExactly(st, ops);
    assert Disabled(ops) == {};
    ExceptNone(st.features, {});
    var now, taken := DoAll(st, ops).st.features, Arriving(st.features, ops, |ops|);
    assert now == st.features + taken && now[|st.features|..] == taken;
    forall f | f in taken
      ensures exists n: nat :: IsFirstAsked(ops, n, f) && f.id !in Ids(st.features)
    {
      var n := HasArrived(st.features, ops, |ops|, f);
      ArrivedFirst(st.features, ops, n);
    }
    forall op | op in ops
      ensures op.f.id in Ids(now)
    {
      var n: nat :| n < |ops| && ops[n] == op;
      assert Asks(ops, n, op.f.id) && forall x | x in ops[n + 1..] :: x in ops;
      assert Held(st.features, ops, op.f.id);
    }
  }

  predicate IsFirstAsked(ops: seq<Op>, n: nat, f: Feature) {
    n < |ops| && ops[n].f == f && forall m | 0 <= m < n :: ops[m].f.id != f.id
  }

  lemma {:induction false} HasArrived(fs: seq<Feature>, ops: seq<Op>, n: nat, f: Feature) returns (m: nat)
    requires n <= |ops| && f in Arriving(fs, ops, n)
    ensures Arrives(fs, ops, m) && ops[m].f == f
  {
    if Arrives(fs, ops, n - 1) && ops[n - 1].f == f {
      m := n - 1;
    } else {
      m := HasArrived(fs, ops, n - 1, f);
    }
  }

  lemma ArrivedFirst(fs: seq<Feature>, ops: seq<Op>, n: nat)
    requires Arrives(fs, ops, n) && forall op | op in ops :: !op.Disable?
    ensures IsFirstAsked(ops, n, ops[n].f) && ops[n].f.id !in Ids(fs)
  {
    var before, id := ops[..n], ops[n].f.id;
    assert Disabled(before) == {};
    forall m: nat | m < n
      ensures ops[m].f.id != id
    {
      assert before[m] == ops[m] && ops[m] in ops;
      assert Disabled(before[m + 1..]) == {};
      assert !Asks(before, m, id);
    }
  }

  /** Whatever the operations, features that none of them disables stay in front, as the
      same instances and in the same order. */
  lemma OthersStay(st: State, ops: seq<Op>)
    requires UniqueIds(st.features) && DoAll(st, ops).Goes?
    ensures Except(st.features, Disabled(ops)) <= DoAll(st, ops).st.features
  {
    DoneExactly(st, ops);
  }

  /** After disabling it no feature has that identifier, and the others are as they were. */
  lemma DisablingRemoves(st: State, ops: seq<Op>, f: Feature)
    requires UniqueIds(st.features) && DoAll(st, ops).Goes?
    ensures var now := DoAll(st, ops + [Disable(f)]);
            && now.Goes? && f.id !in Ids(now.st.features)
            && now.st.features == Except(DoAll(st, ops).st.features, {f.id})
  {
    DoneExactly(st, ops);
    DoAllMore(st, ops, Disable(f));
    DoneExactly(st, ops + [Disable(f)]);
    LeftMore(st.features, ops, Disable(f));
    HeldMore(st.features, ops, Disable(f), f.id);
  }

  /** The feature list as configurers change it in place. */
  class WebSecurity {
    var features: seq<Feature>
    var applied: set<FeatureId>
    var featuresChanged: bool

    function View(): State
      reads this
    {
      State(features, applied, featuresChanged)
    }

    constructor ()
      ensures View() == State([], {}, false)
    {
      features, applied, featuresChanged := [], {}, false;
    }

    method FindFeatureIndex(f: Feature) returns (i: int)
      ensures i == FindFeature(features, f)
    {
      i := 0;
      assert features[0..] == features;
      while i < |features|
        invariant 0 <= i <= |features|
        invariant var r := FindFeature(features[i..], f);
                  FindFeature(features, f) == if r < 0 then -1 else r + i
      {
        if features[i].id == f.id {
          return;
        }
        assert features[i..][1..] == features[i + 1..];
        i := i + 1;
      }
      i := -1;
    }

    method EnableFeature(f: Feature) returns (panics: bool, existing: Feature)
      modifies this
      ensures panics <==> Do(old(View()), Enable(f)).Panics?
      ensures panics ==> View() == old(View())
      ensures !panics ==> View() == Do(old(View()), Enable(f)).st
      ensures panics <==> f.id in old(applied)
      ensures !panics ==>
                && existing.id == f.id && applied == old(applied)
                && (if f.id in Ids(old(features))
                    then existing in old(features) && features == old(features) && featuresChanged == old(featuresChanged)
                    else existing == f && features == old(features) + [f] && featuresChanged)
    {
      if f.id in applied {
        return true, f;
      }
      var i := FindFeatureIndex(f);
      FindTells(features, f);
      if i >= 0 {
        return false, features[i];
      }
      featuresChanged := true;
      features := features + [f];
      return false, f;
    }

    method WithFeature(f: Feature) returns (panics: bool)
      requires UniqueIds(features)
      modifies this
      ensures panics <==> Do(old(View()), With(f)).Panics?
      ensures !panics ==> View() == Do(old(View()), With(f)).st
      ensures panics <==> f.id in old(applied) || exists g :: g in old(features) && g.id == f.id && g != f
    {
      ForbiddenNow(View(), With(f));
      var existing;
      panics, existing := EnableFeature(f);
      if !panics && existing != f {
        panics := true;
      }
    }

    method DisableFeature(f: Feature)
      modifies this
      ensures View() == Do(old(View()), Disable(f)).st
      ensures applied == old(applied) && (featuresChanged <==> old(featuresChanged) || f.id in Ids(old(features)))
      ensures UniqueIds(old(features)) ==> features == Except(old(features), {f.id})
    {
      var i := FindFeatureIndex(f);
      FindTells(features, f);
      ghost var was := features;
      if i >= 0 {
        featuresChanged := true;
        features := features[..i] + features[i + 1..];
      }
      if UniqueIds(was) {
        TakenOut(was, f, i);
      }
    }

    method PerformOne(op: Op) returns (panics: bool)
      requires UniqueIds(features)
      modifies this
      ensures panics <==> Do(old(View()), op).Panics?
      ensures !panics ==> View() == Do(old(View()), op).st
    {
      match op {
        case Enable(f) =>
          var existing;
          panics, existing := EnableFeature(f);
        case With(f) => panics := WithFeature(f);
        case Disable(f) =>
          DisableFeature(f);
          panics := false;
      }
    }
  }

  /** A configurer's operations, carried out on the object one after the other. */
  method Perform(st: State, ops: seq<Op>) returns (effect: Effect)
    requires UniqueIds(st.features)
    ensures effect == DoAll(st, ops)
    ensures effect.Panics? <==> SomeForbidden(st, ops)
    ensures effect.Goes? ==>
              effect.st == State(Left(st.features, ops), st.applied, st.changed || SomeChanges(st.features, ops))
  {
    DoneExactly(st, ops);
    var ws := new WebSecurity();
    ws.features, ws.applied, ws.featuresChanged := st.features, st.applied, st.changed;
    var i := 0;
    assert ops[0..] == ops;
    while i < |ops|
      invariant 0 <= i <= |ops| && UniqueIds(ws.features)
      invariant DoAll(st, ops) == DoAll(ws.View(), ops[i..])
    {
      assert ops[i..][0] == ops[i] && ops[i..][1..] == ops[i + 1..];
      DoKeepsUnique(ws.View(), ops[i]);
      var panics := ws.PerformOne(ops[i]);
      if panics {
        return Panics;
      }
      i := i + 1;
    }
    assert ops[i..] == [];
    return Goes(State(ws.features, ws.applied, ws.featuresChanged));
  }

  lemma DoKeepsUnique(st: State, op: Op)
    requires UniqueIds(st.features)
    ensures Do(st, op).Goes? ==> UniqueIds(Do(st, op).st.features)
  {
  }
}
