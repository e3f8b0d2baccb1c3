/** Building one web security: its features are applied in order, and every application
    may enable or disable features while the loop is running.
 */
module FeaturePipeline {
  import opened Collections
  import opened Ordering
  import opened FeatureList

  predicate FeatureLess(l: Feature, r: Feature) {
    Less(l.id.key, r.id.key)
  }

  predicate FeatureLe(l: Feature, r: Feature) {
    !FeatureLess(r, l)
  }

  lemma FeatureLeIsPreorder()
    ensures TotalPreorder(FeatureLe)
  {
    forall a: Feature, b: Feature
      ensures FeatureLe(a, b) || FeatureLe(b, a)
    {
      LessIsTotal(a.id.key, b.id.key, a.id.key);
    }
    forall a: Feature, b: Feature, c: Feature | FeatureLe(a, b) && FeatureLe(b, c)
      ensures FeatureLe(a, c)
    {
      LessIsTotal(c.id.key, a.id.key, b.id.key);
      LessIsTotal(b.id.key, c.id.key, a.id.key);
      LessIsTotal(a.id.key, b.id.key, c.id.key);
    }
  }

  /** The first `p` features are priority ordered and the next ones up to `o` are ordered,
      both by number; the rest has no order. */
  ghost predicate RankedAt(fs: seq<Feature>, p: nat, o: nat) {
    && p <= o <= |fs|
    && (forall i | 0 <= i < |fs| :: (i < p <==> fs[i].id.key.Priority?) && (o <= i <==> fs[i].id.key.Unordered?))
    && (forall i, j | 0 <= i < j < p :: fs[i].id.key.n <= fs[j].id.key.n)
    && (forall i, j | p <= i < j < o :: fs[i].id.key.n <= fs[j].id.key.n)
  }

  ghost predicate Ranked(fs: seq<Feature>) {
    exists p, o :: RankedAt(fs, p, o)
  }

  function KeyOf(f: Feature): Key {
    f.id.key
  }

  lemma SortedIsRanked(fs: seq<Feature>)
    requires Sorted(fs, FeatureLe)
    ensures Ranked(fs)
  {
    assert InOrder(fs, KeyOf);
    InOrderIsByClass(fs, KeyOf);
    var p, o :| ClassesAt(fs, KeyOf, p, o);
    assert RankedAt(fs, p, o);
  }

  /** One application: its operations in order, and whether it reports an error. */
  datatype Action = Action(ops: seq<Op>, fails: bool)

  /** Some operation disables a feature that has been applied. */
  predicate DisablesApplied(st: State, ops: seq<Op>)
    decreases |ops|
  {
    ops != [] &&
    (|| (ops[0].Disable? && ops[0].f.id in st.applied && FindFeature(st.features, ops[0].f) >= 0)
     || match Do(st, ops[0])
        case Panics => false
        case Goes(st1) => DisablesApplied(st1, ops[1..]))
  }

  /** The first `a` features are those that have been applied. */
  predicate Shape(st: State, a: nat) {
    && a <= |st.features| && UniqueIds(st.features)
    && (forall i | 0 <= i < a :: st.features[i].id in st.applied)
    && (forall i | a <= i < |st.features| :: st.features[i].id !in st.applied)
  }

  lemma AppendKeepsShape(st: State, f: Feature, a: nat)
    requires Shape(st, a) && f.id !in st.applied && FindFeature(st.features, f) < 0
    ensures Shape(State(st.features + [f], st.applied, true), a)
    ensures (st.features + [f])[..a] == st.features[..a]
  {
  }

  lemma RemoveKeepsShape(st: State, i: nat, a: nat)
    requires Shape(st, a) && i < |st.features|
    ensures var fs := st.features[..i] + st.features[i + 1..];
            && Shape(State(fs, st.applied, true), if i < a then a - 1 else a)
            && (i >= a ==> fs[..a] == st.features[..a])
  {
    var fs := st.features[..i] + st.features[i + 1..];
    assert forall j | 0 <= j < |fs| :: fs[j] == st.features[if j < i then j else j + 1];
  }

  /** One operation keeps the shape: applied features can only disappear. */
  lemma DoKeepsShape(st: State, op: Op, a: nat) returns (b: nat)
    requires Shape(st, a) && Do(st, op).Goes?
    ensures Shape(Do(st, op).st, b) && b <= a && Do(st, op).st.applied == st.applied
    ensures b == a ==> Do(st, op).st.features[..b] == st.features[..a]
    ensures !Do(st, op).st.changed ==> Do(st, op).st == st
    ensures b < a <==> op.Disable? && op.f.id in st.applied && FindFeature(st.features, op.f) >= 0
  {
    b := a;
    var i := FindFeature(st.features, op.f);
    if op.Disable? {
      if i >= 0 {
        RemoveKeepsShape(st, i, a);
        b := if i < a then a - 1 else a;
      }
    } else if i < 0 {
      AppendKeepsShape(st, op.f, a);
    }
  }

  lemma {:induction false} DoAllKeepsShape(st: State, ops: seq<Op>, a: nat) returns (b: nat)
    requires Shape(st, a) && DoAll(st, ops).Goes?
    ensures var st' := DoAll(st, ops).st;
            && Shape(st', b) && b <= a && st'.applied == st.applied
            && (b == a ==> st'.features[..b] == st.features[..a])
            && (!st'.changed ==> st' == st)
            && (b < a <==> DisablesApplied(st, ops))
    decreases |ops|
  {
    if ops == [] {
      b := a;
    } else {
      var m := DoKeepsShape(st, ops[0], a);
      b := DoAllKeepsShape(Do(st, ops[0]).st, ops[1..], m);
    }
  }

  datatype Check = Fine | DisabledApplied | EnabledTooLate

  /** `handleFeaturesChanged` up to and after its sort: the index check and the order check. */
  function CheckIndex(i: nat, f: Feature, features: seq<Feature>): Check {
    if i >= |features| - 1 then Fine
    else if features[i] != f then DisabledApplied
    else Fine
  }

  datatype Outcome = Built | NoConfigurer | ApplyFailed | Refused(why: Check) | Panicked

  /** `r` is `features` with what comes from `from` on rearranged. */
  ghost predicate Resorted(features: seq<Feature>, r: seq<Feature>, from: nat) {
    from <= |features| == |r| && r[..from] == features[..from] && multiset(r[from..]) == multiset(features[from..])
  }

  /** Sorts the features from `from` on. The sort is not stable; nothing is promised about
      features that rank alike. */
  method SortFeatures(features: seq<Feature>, from: nat) returns (r: seq<Feature>)
    requires from <= |features| && UniqueIds(features)
    ensures |r| == |features| && r[..from] == features[..from] && UniqueIds(r)
    ensures Sorted(r[from..], FeatureLe)
    ensures Resorted(features, r, from)
  {
    var tail := StableSort(features[from..], FeatureLe);
    FeatureLeIsPreorder();
    StableSortSorts(features[from..], FeatureLe);
    r := features[..from] + tail;
    assert r[from..] == tail && r[..from] == features[..from];
    UniqueAfterSort(features[from..], tail);
    forall i, j | 0 <= i < j < |r|
      ensures r[i].id != r[j].id
    {
      if i < from <= j {
        assert r[j] in multiset(tail);
        assert r[j] in features[from..];
      }
    }
  }

  lemma UniqueAfterSort(a: seq<Feature>, b: seq<Feature>)
    requires UniqueIds(a) && multiset(a) == multiset(b)
    ensures UniqueIds(b)
  {
    PermutedDistinct(a, b);
    forall i, j | 0 <= i < j < |b|
      ensures b[i].id != b[j].id
    {
      assert b[i] in multiset(b) && b[j] in multiset(b);
      assert b[i] in a && b[j] in a;
    }
  }

  /** Appending a feature that ranks no lower than the last one. */
  lemma SortedJoin(a: seq<Feature>, f: Feature, tail: seq<Feature>)
    requires Sorted(a + [f], FeatureLe) && Sorted(tail, FeatureLe)
    requires tail != [] ==> FeatureLe(f, tail[0])
    ensures Sorted(a + [f] + tail, FeatureLe)
  {
    FeatureLeIsPreorder();
    var s := a + [f] + tail;
    forall i, j | 0 <= i < j < |s|
      ensures FeatureLe(s[i], s[j])
    {
      if i <= |a| < j {
        assert FeatureLe(f, tail[0]) && (j - |a| - 1 > 0 ==> FeatureLe(tail[0], tail[j - |a| - 1]));
        assert FeatureLe(f, s[j]);
        assert i < |a| ==> FeatureLe((a + [f])[i], (a + [f])[|a|]);
      } else if j <= |a| {
        assert s[i] == (a + [f])[i] && s[j] == (a + [f])[j];
      }
    }
  }

  /** What holds whenever the loop is at index `i`, having applied `order`. */
  ghost predicate Running(st: State, order: seq<Feature>, i: nat, disabled: bool, registered: set<FeatureId>) {
    && i == |order| && UniqueIds(order) && Sorted(order, FeatureLe)
    && (forall f | f in order :: f.id in st.applied)
    && st.applied <= registered
    && (if disabled then i >= |st.features| && order != st.features
        else Shape(st, i) && st.features[..i] == order && Sorted(st.features, FeatureLe))
  }

  /** Marking the feature at index `i` as applied. */
  lemma MarkApplied(st: State, order: seq<Feature>, i: nat, registered: set<FeatureId>)
    requires Running(st, order, i, false, registered) && i < |st.features| && st.features[i].id in registered
    ensures var f := st.features[i];
            var marked := State(st.features, st.applied + {f.id}, false);
            && Shape(marked, i + 1) && marked.features[..i + 1] == order + [f]
            && UniqueIds(order + [f]) && Sorted(order + [f], FeatureLe) && f.id !in st.applied
  {
    var f := st.features[i];
    assert st.features[..i + 1] == order + [f];
    forall j, k | 0 <= j < k < |order + [f]|
      ensures (order + [f])[j].id != (order + [f])[k].id && FeatureLe((order + [f])[j], (order + [f])[k])
    {
      assert (order + [f])[j] == st.features[j] && (order + [f])[k] == st.features[k];
    }
  }

  /** Past the checks the run either goes on with nothing lost, or has come to its end. */
  lemma Continue(before: State, after: State, order: seq<Feature>, i: nat, b: nat, registered: set<FeatureId>)
    requires Shape(before, i + 1) && before.features[..i + 1] == order && Sorted(before.features, FeatureLe)
    requires i + 1 == |order| && UniqueIds(order) && Sorted(order, FeatureLe)
    requires forall f | f in order :: f.id in before.applied
    requires before.applied <= registered
    requires Shape(after, b) && b <= i + 1 && after.applied == before.applied
    requires b == i + 1 ==> after.features[..b] == order
    requires if after == before then true
             else i >= |after.features| - 1 || (after.features[i] == order[i] && Sorted(after.features, FeatureLe))
    ensures Running(after, order, i + 1, b < i + 1, registered)
  {
    assert order[i] in order;
    if after == before {
      ShapeIsUnique(after, b, i + 1);
    } else if i < |after.features| - 1 {
      AppliedIsInShape(after, b, i);
    }
    if b < i + 1 {
      if after.features == order {
        AppliedIsInShape(after, b, i);
      }
    } else if i >= |after.features| - 1 {
      assert after.features[..i + 1] == after.features;
    }
  }

  lemma AppliedIsInShape(st: State, a: nat, i: nat)
    requires Shape(st, a) && i < |st.features| && st.features[i].id in st.applied
    ensures i < a
  {
  }

  lemma ShapeIsUnique(st: State, a: nat, b: nat)
    requires Shape(st, a) && Shape(st, b)
    ensures a == b
  {
    if a < b {
      AppliedIsInShape(st, a, b - 1);
    } else if b < a {
      AppliedIsInShape(st, b, a - 1);
    }
  }

  /** Some feature behind index `i` ranks below `f`. */
  ghost predicate TooLate(features: seq<Feature>, i: nat, f: Feature) {
    exists j :: i < j < |features| && FeatureLess(features[j], f)
  }

  /** What `handleFeaturesChanged` must answer. */
  ghost function Verdict(i: nat, f: Feature, features: seq<Feature>): Check {
    if i >= |features| - 1 then Fine
    else if features[i] != f then DisabledApplied
    else if TooLate(features, i, f) then EnabledTooLate
    else Fine
  }

  /** After sorting, the first of the remaining features tells whether one ranks too low. */
  lemma FirstTells(features: seq<Feature>, r: seq<Feature>, i: nat, f: Feature)
    requires i + 1 < |features| && Resorted(features, r, i + 1) && Sorted(r[i + 1..], FeatureLe)
    ensures TooLate(features, i, f) <==> FeatureLess(r[i + 1], f)
  {
    var tail, rest := r[i + 1..], features[i + 1..];
    if TooLate(features, i, f) {
      var j :| i < j < |features| && FeatureLess(features[j], f);
      assert features[j] == rest[j - i - 1];
      assert features[j] in multiset(rest);
      var k :| 0 <= k < |tail| && tail[k] == features[j];
      FeatureLeIsPreorder();
      assert FeatureLe(tail[0], tail[k]);
      LessIsTotal(tail[0].id.key, features[j].id.key, f.id.key);
      LessIsTotal(f.id.key, tail[0].id.key, features[j].id.key);
    }
    if FeatureLess(tail[0], f) {
      assert tail[0] in multiset(tail);
      var j :| 0 <= j < |rest| && rest[j] == tail[0];
      assert rest[j] == features[j + i + 1];
    }
  }

  /** `handleFeaturesChanged`: the index check, the sort of what is left, the order check. */
  method HandleChanged(i: nat, f: Feature, st: State, ghost b: nat, ghost order: seq<Feature>)
    returns (check: Check, after: State)
    requires Shape(st, b) && b <= i + 1 == |order| && order[i] == f && f.id in st.applied && st.changed
    requires Sorted(order, FeatureLe) && (b == i + 1 ==> st.features[..b] == order)
    ensures check == Verdict(i, f, st.features)
    ensures after.applied == st.applied && after.changed
    ensures check == Fine ==> Shape(after, b) && (b == i + 1 ==> after.features[..b] == order)
    ensures check == Fine ==>
              if i >= |st.features| - 1 then after == st
              else after.features[i] == f && Sorted(after.features, FeatureLe) && Resorted(st.features, after.features, i + 1)
  {
    after := st;
    check := CheckIndex(i, f, st.features);
    if check != Fine || i >= |st.features| - 1 {
      return;
    }
    var resorted := SortFeatures(st.features, i + 1);
    ResortKeepsShape(st, resorted, i + 1, b, order);
    FirstTells(st.features, resorted, i, f);
    after := State(resorted, st.applied, true);
    if FeatureLess(resorted[i + 1], f) {
      return EnabledTooLate, after;
    }
    SortedJoin(order[..i], f, resorted[i + 1..]);
    assert order[..i] + [f] == order && order + resorted[i + 1..] == resorted;
  }

  lemma ResortKeepsShape(st: State, resorted: seq<Feature>, k: nat, b: nat, order: seq<Feature>)
    requires 0 < k && Shape(st, b) && b <= k == |order| && k < |st.features|
    requires st.features[k - 1].id in st.applied && (b == k ==> st.features[..b] == order)
    requires Resorted(st.features, resorted, k) && UniqueIds(resorted)
    ensures b == k && Shape(State(resorted, st.applied, true), b) && resorted[..b] == order
  {
    AppliedIsInShape(st, b, k - 1);
    forall j | b <= j < |resorted|
      ensures resorted[j].id !in st.applied
    {
      assert resorted[j] in multiset(resorted[k..]);
      assert resorted[j] in st.features[k..];
    }
    forall j | 0 <= j < b
      ensures resorted[j] == st.features[j]
    {
      assert resorted[j] == resorted[..k][j];
    }
  }

  /***************************** The loop *****************************/

  /** How applying the feature at index `i` of state `marked` ends: `Built` to go on. */
  ghost function RoundOutcome(marked: State, i: nat, action: Action): Outcome
    requires i < |marked.features|
  {
    match DoAll(marked, action.ops)
    case Panics => Panicked
    case Goes(st) =>
      if action.fails then ApplyFailed
      else if !st.changed then Built
      else if Verdict(i, marked.features[i], st.features) != Fine then Refused(Verdict(i, marked.features[i], st.features))
      else Built
  }

  /** The features after applying the one at index `i`: what the configurer made of them,
      with those still to come rearranged. */
  ghost predicate Follows(marked: State, i: nat, action: Action, features: seq<Feature>)
    requires i < |marked.features|
  {
    && RoundOutcome(marked, i, action) == Built
    && var made := DoAll(marked, action.ops).st.features;
       features == made || Resorted(made, features, i + 1)
  }

  /** One of the features that have been applied is among those to be disabled. */
  ghost predicate LosesApplied(st: State, ops: seq<Op>) {
    exists f :: f in st.features && f.id in st.applied && f.id in Disabled(ops)
  }

  lemma {:induction false} DisablesAppliedExactly(st: State, ops: seq<Op>)
    requires UniqueIds(st.features) && DoAll(st, ops).Goes?
    ensures DisablesApplied(st, ops) <==> LosesApplied(st, ops)
    decreases |ops|
  {
    if ops != [] {
      var op, st1 := ops[0], Do(st, ops[0]).st;
      DoKeepsUnique(st, op);
      DisablesAppliedExactly(st1, ops[1..]);
      FindTells(st.features, op.f);
      DisabledFirst(ops);
      if !(op.Disable? && op.f.id in st.applied && op.f.id in Ids(st.features)) {
        OneKeepsApplied(st, op);
      }
    }
  }

  lemma DisabledFirst(ops: seq<Op>)
    requires ops != []
    ensures Disabled(ops) == (if ops[0].Disable? then {ops[0].f.id} else {}) + Disabled(ops[1..])
  {
    assert forall x :: x in ops <==> x == ops[0] || x in ops[1..];
  }

  lemma OneKeepsApplied(st: State, op: Op)
    requires UniqueIds(st.features) && Do(st, op).Goes?
    requires !(op.Disable? && op.f.id in st.applied && op.f.id in Ids(st.features))
    ensures forall f: Feature | f.id in st.applied :: f in Do(st, op).st.features <==> f in st.features
  {
    FindTells(st.features, op.f);
    var i := FindFeature(st.features, op.f);
    if op.Disable? && i >= 0 {
      RemoveIsExcept(st.features, i);
      forall f
        ensures f in Except(st.features, {op.f.id}) <==> f in st.features && f.id != op.f.id
      {
        ExceptHas(st.features, {op.f.id}, f);
      }
    }
  }

  /** A feature that has not been applied ranks before the one at index `i`. */
  ghost predicate ComesTooLate(marked: State, i: nat, ops: seq<Op>)
    requires i < |marked.features|
  {
    exists g :: g in Left(marked.features, ops) && g.id !in marked.applied && Less(g.id.key, marked.features[i].id.key)
  }

  /** When an application is refused. One that disables an applied feature is refused exactly
      if more features are left than have been applied; any other exactly if it leaves a
      feature to be applied that ranks before the current one. */
  lemma RefusedExactly(marked: State, i: nat, action: Action)
    requires Shape(marked, i + 1) && Sorted(marked.features, FeatureLe) && !marked.changed
    requires !SomeForbidden(marked, action.ops) && !action.fails
    ensures RoundOutcome(marked, i, action) ==
            if LosesApplied(marked, action.ops)
            then if |Left(marked.features, action.ops)| > i + 1 then Refused(DisabledApplied) else Built
            else if ComesTooLate(marked, i, action.ops) then Refused(EnabledTooLate) else Built
  {
    DoneExactly(marked, action.ops);
    DisablesAppliedExactly(marked, action.ops);
    var b := DoAllKeepsShape(marked, action.ops, i + 1);
    var st := DoAll(marked, action.ops).st;
    if b == i + 1 {
      assert st.features[i] == st.features[..b][i] == marked.features[i];
      BehindIsUnapplied(st, marked.applied, i, marked.features[i]);
      if !st.changed {
        NoneTooLate(st.features, i);
      }
    } else {
      LostIsChanged(marked, st, b, i);
    }
  }

  lemma LostIsChanged(marked: State, st: State, b: nat, i: nat)
    requires Shape(marked, i + 1) && Shape(st, b) && b < i + 1 && st.applied == marked.applied
    requires !st.changed ==> st == marked
    ensures st.changed && (i < |st.features| ==> st.features[i] != marked.features[i])
  {
    if !st.changed {
      ShapeIsUnique(st, b, i + 1);
    }
  }

  lemma BehindIsUnapplied(st: State, applied: set<FeatureId>, i: nat, f: Feature)
    requires Shape(st, i + 1) && st.applied == applied
    ensures TooLate(st.features, i, f) <==>
            exists g :: g in st.features && g.id !in applied && Less(g.id.key, f.id.key)
  {
    if g :| g in st.features && g.id !in applied && Less(g.id.key, f.id.key) {
      var j :| 0 <= j < |st.features| && st.features[j] == g;
      assert i < j;
    }
  }

  lemma NoneTooLate(features: seq<Feature>, i: nat)
    requires i < |features| && Sorted(features, FeatureLe)
    ensures !TooLate(features, i, features[i])
  {
  }

  /** One application with the checks after it. */
  method ApplyFeature(i: nat, marked: State, action: Action, ghost order: seq<Feature>,
                      ghost registered: set<FeatureId>)
    returns (outcome: Outcome, after: State, ghost disabled: bool)
    requires Shape(marked, i + 1) && marked.features[..i + 1] == order && Sorted(marked.features, FeatureLe)
    requires UniqueIds(order) && Sorted(order, FeatureLe) && marked.applied <= registered && !marked.changed
    requires forall f | f in order :: f.id in marked.applied
    ensures outcome == RoundOutcome(marked, i, action)
    ensures outcome == Built ==>
              && Follows(marked, i, action, after.features) && after.applied == marked.applied
              && (disabled <==> DisablesApplied(marked, action.ops))
              && Running(after, order, i + 1, disabled, registered)
  {
    var f := marked.features[i];
    assert order[i] == f && order[i] in order;
    after, disabled := marked, false;
    var effect := Perform(marked, action.ops);
    if effect.Panics? {
      return Panicked, after, disabled;
    }
    ghost var b := DoAllKeepsShape(marked, action.ops, i + 1);
    after, disabled := effect.st, b < i + 1;
    if action.fails {
      return ApplyFailed, after, disabled;
    }
    if after.changed {
      var check;
      check, after := HandleChanged(i, f, after, b, order);
      if check != Fine {
        return Refused(check), after, disabled;
      }
    }
    Continue(marked, after, order, i, b, registered);
    outcome := Built;
  }

  lemma IdsOfMore(fs: seq<Feature>, f: Feature)
    ensures Ids(fs + [f]) == Ids(fs) + {f.id}
  {
    assert f in fs + [f];
    assert forall x | x in fs :: x in fs + [f];
  }

  /** The last feature of `order` is about to be applied, after the others. */
  ghost predicate IsNext(st: State, order: seq<Feature>) {
    var n := |order| - 1;
    && 0 <= n < |st.features| && st.features[n] == order[n]
    && st.applied == Ids(order) && !st.changed && Sorted(st.features, FeatureLe)
  }

  /** The features are what applying the last feature of `order` left, if there is one. */
  ghost predicate CameTo(features: seq<Feature>, order: seq<Feature>, trace: seq<State>, behave: nat -> Action)
    requires |trace| == |order|
  {
    var n := |order| - 1;
    n >= 0 ==> IsNext(trace[n], order) && Follows(trace[n], n, behave(n), features)
  }

  /** `trace[n]` is the state in which the feature `order[n]` was applied. */
  ghost predicate IsTrace(trace: seq<State>, order: seq<Feature>, behave: nat -> Action)
    decreases |trace|
  {
    var n := |trace| - 1;
    && |trace| == |order|
    && (n >= 0 ==> && IsTrace(trace[..n], order[..n], behave) && IsNext(trace[n], order)
                   && CameTo(trace[n].features, order[..n], trace[..n], behave))
  }

  lemma TraceOneMore(trace: seq<State>, order: seq<Feature>, behave: nat -> Action, marked: State)
    requires IsTrace(trace, order, behave) && |order| < |marked.features|
    requires marked.applied == Ids(order) + {marked.features[|order|].id} && !marked.changed
    requires Sorted(marked.features, FeatureLe)
    requires CameTo(marked.features, order, trace, behave)
    ensures IsTrace(trace + [marked], order + [marked.features[|order|]], behave)
  {
    var order', trace' := order + [marked.features[|order|]], trace + [marked];
    IdsOfMore(order, marked.features[|order|]);
    assert order'[..|order|] == order && trace'[..|order|] == trace;
  }

  /** Some application disabled a feature that had been applied. */
  ghost predicate SomeDisables(trace: seq<State>, behave: nat -> Action) {
    exists n :: 0 <= n < |trace| && DisablesApplied(trace[n], behave(n).ops)
  }

  /** The features the loop started with. */
  function FirstOf(trace: seq<State>, st: State): seq<Feature> {
    if trace == [] then st.features else trace[0].features
  }

  /** Why the loop ended as it did after applying `order`. */
  ghost predicate Ends(outcome: Outcome, registered: set<FeatureId>, behave: nat -> Action,
                       st: State, order: seq<Feature>, trace: seq<State>)
    requires IsTrace(trace, order, behave)
  {
    var n := |order|;
    match outcome
    case NoConfigurer => CameTo(st.features, order, trace, behave) && n < |st.features| && st.features[n].id !in registered
    case Built => CameTo(st.features, order, trace, behave) && n >= |st.features|
    case why => n > 0 && IsNext(trace[n - 1], order) && RoundOutcome(trace[n - 1], n - 1, behave(n - 1)) == why
  }

  /** The build goes on exactly while configurers report no error; an error is reported as
      such, and nothing else is reported as one. */
  ghost predicate ErrorsEnd(outcome: Outcome, behave: nat -> Action, n: nat) {
    && (forall k: nat | k + 1 < n :: !behave(k).fails)
    && (outcome == ApplyFailed ==> n > 0 && behave(n - 1).fails)
    && (outcome == Built || outcome.Refused? ==> n > 0 ==> !behave(n - 1).fails)
  }

  lemma RunErrors(outcome: Outcome, registered: set<FeatureId>, behave: nat -> Action,
                  st: State, order: seq<Feature>, trace: seq<State>)
    requires IsTrace(trace, order, behave) && Ends(outcome, registered, behave, st, order, trace)
    ensures ErrorsEnd(outcome, behave, |order|)
  {
    forall k: nat | k + 1 < |order|
      ensures !behave(k).fails
    {
      TracePrefix(trace, order, behave, k + 2);
    }
  }

  /** For every behaviour of the configurers the loop ends, applies no identifier twice and
      applies features in order; it fails only for a reason. When the build succeeds, the
      features applied are the final features exactly when no configurer disabled one that
      had been applied. */
  method Build(configured: seq<Op>, registered: set<FeatureId>, behave: nat -> Action)
    returns (outcome: Outcome, st: State, order: seq<Feature>, trace: seq<State>)
    ensures UniqueIds(order) && Sorted(order, FeatureLe) && Ranked(order) && forall f | f in order :: f.id in registered
    ensures ErrorsEnd(outcome, behave, |order|)
    ensures outcome == Built ==> (order == st.features <==> !SomeDisables(trace, behave))
    ensures var initial := DoAll(State([], {}, false), configured);
            if initial.Panics? then outcome == Panicked && order == []
            else && IsRun(outcome, registered, behave, st, order, trace, FirstOf(trace, st))
                 && Resorted(initial.st.features, FirstOf(trace, st), 0) && Sorted(FirstOf(trace, st), FeatureLe)
  {
    var panics;
    panics, st := Begin(configured);
    if panics {
      SortedIsRanked([]);
      return Panicked, st, [], [];
    }
    outcome, st, order, trace := ApplyAll(st, registered, behave);
    SortedIsRanked(order);
    RunErrors(outcome, registered, behave, st, order, trace);
  }

  /** The loop that applies the features from state `start` on. */
  method ApplyAll(start: State, registered: set<FeatureId>, behave: nat -> Action)
    returns (outcome: Outcome, st: State, order: seq<Feature>, trace: seq<State>)
    requires Shape(start, 0) && Sorted(start.features, FeatureLe) && start.applied == {}
    ensures IsRun(outcome, registered, behave, st, order, trace, start.features)
  {
    st, order, trace := start, [], [];
    ghost var disabled := false;
    var i := 0;
    while i < |st.features|
      invariant i == |order| && Going(st, order, trace, disabled, registered, behave, start.features)
      decreases |registered - st.applied|
    {
      if st.features[i].id !in registered {
        NotRegistered(st, order, trace, disabled, registered, behave, start.features);
        return NoConfigurer, st, order, trace;
      }
      Marking(st, order, trace, disabled, registered, behave, start.features);
      var marked := State(st.features, st.applied + {st.features[i].id}, false);
      order, trace := order + [st.features[i]], trace + [marked];
      outcome, st, disabled := ApplyRound(marked, order, trace, registered, behave, start.features);
      if outcome != Built {
        return;
      }
      i := i + 1;
    }
    RunsOut(st, order, trace, disabled, registered, behave, start.features);
    outcome := Built;
  }

  /** A run of the loop: what it applied, from which states, and why it ended. */
  ghost predicate IsRun(outcome: Outcome, registered: set<FeatureId>, behave: nat -> Action,
                        st: State, order: seq<Feature>, trace: seq<State>, first: seq<Feature>) {
    && UniqueIds(order) && Sorted(order, FeatureLe) && (forall f | f in order :: f.id in registered)
    && IsTrace(trace, order, behave) && FirstOf(trace, st) == first
    && Ends(outcome, registered, behave, st, order, trace)
    && (outcome == Built ==> (order == st.features <==> !SomeDisables(trace, behave)))
  }

  lemma NotRegistered(st: State, order: seq<Feature>, trace: seq<State>, disabled: bool,
                      registered: set<FeatureId>, behave: nat -> Action, first: seq<Feature>)
    requires Going(st, order, trace, disabled, registered, behave, first)
    requires |order| < |st.features| && st.features[|order|].id !in registered
    ensures IsRun(NoConfigurer, registered, behave, st, order, trace, first)
  {
  }

  lemma RunsOut(st: State, order: seq<Feature>, trace: seq<State>, disabled: bool,
                registered: set<FeatureId>, behave: nat -> Action, first: seq<Feature>)
    requires Going(st, order, trace, disabled, registered, behave, first) && |order| >= |st.features|
    ensures IsRun(Built, registered, behave, st, order, trace, first)
  {
  }

  /** The state in which the last feature of `order` is applied, in the run so far. */
  ghost predicate Marked(marked: State, order: seq<Feature>, trace: seq<State>, registered: set<FeatureId>,
                         behave: nat -> Action, first: seq<Feature>) {
    && IsNext(marked, order) && Shape(marked, |order|) && marked.features[..|order|] == order
    && UniqueIds(order) && Sorted(order, FeatureLe) && marked.applied <= registered
    && (forall f | f in order :: f.id in registered && f.id in marked.applied)
    && Traced(order, trace, DisablesApplied(marked, behave(|order| - 1).ops), behave, first) && trace[|order| - 1] == marked
  }

  lemma Marking(st: State, order: seq<Feature>, trace: seq<State>, disabled: bool,
                registered: set<FeatureId>, behave: nat -> Action, first: seq<Feature>)
    requires Going(st, order, trace, disabled, registered, behave, first)
    requires |order| < |st.features| && st.features[|order|].id in registered
    ensures var f := st.features[|order|];
            var marked := State(st.features, st.applied + {f.id}, false);
            && Marked(marked, order + [f], trace + [marked], registered, behave, first)
            && |registered - marked.applied| < |registered - st.applied|
  {
    var f := st.features[|order|];
    MarkApplied(st, order, |order|, registered);
    FewerLeft(registered, st.applied, f.id);
    MarkedTrace(st, order, trace, disabled, registered, behave, first);
  }

  /** One turn of the loop. */
  method ApplyRound(marked: State, order: seq<Feature>, trace: seq<State>, ghost registered: set<FeatureId>,
                    behave: nat -> Action, ghost first: seq<Feature>)
    returns (outcome: Outcome, st: State, ghost disabled: bool)
    requires Marked(marked, order, trace, registered, behave, first)
    ensures if outcome == Built
            then Going(st, order, trace, disabled, registered, behave, first) && st.applied == marked.applied
            else IsRun(outcome, registered, behave, st, order, trace, first)
  {
    outcome, st, disabled := ApplyFeature(|order| - 1, marked, behave(|order| - 1), order, registered);
    Concludes(outcome, st, order, trace, disabled, registered, behave, first, marked);
  }

  /** What one turn ends with follows from how the feature was applied. */
  lemma Concludes(outcome: Outcome, st: State, order: seq<Feature>, trace: seq<State>, disabled: bool,
                  registered: set<FeatureId>, behave: nat -> Action, first: seq<Feature>, marked: State)
    requires order != [] && IsNext(marked, order) && (forall f | f in order :: f.id in registered)
    requires Traced(order, trace, DisablesApplied(marked, behave(|order| - 1).ops), behave, first)
    requires trace[|order| - 1] == marked
    requires outcome == RoundOutcome(marked, |order| - 1, behave(|order| - 1)) && outcome != NoConfigurer
    requires outcome == Built ==>
               && Follows(marked, |order| - 1, behave(|order| - 1), st.features) && st.applied == marked.applied
               && (disabled <==> DisablesApplied(marked, behave(|order| - 1).ops))
               && Running(st, order, |order|, disabled, registered)
    ensures if outcome == Built then Going(st, order, trace, disabled, registered, behave, first)
            else Ends(outcome, registered, behave, st, order, trace)
  {
  }

  /** The features as first configured, sorted. */
  method Begin(configured: seq<Op>) returns (panics: bool, st: State)
    ensures panics <==> DoAll(State([], {}, false), configured).Panics?
    ensures !panics ==> Shape(st, 0) && Sorted(st.features, FeatureLe) && st.applied == {} &&
                        Resorted(DoAll(State([], {}, false), configured).st.features, st.features, 0)
  {
    st := State([], {}, false);
    var initial := Perform(st, configured);
    if initial.Panics? {
      return true, st;
    }
    ghost var zero := DoAllKeepsShape(st, configured, 0);
    var sorted := SortFeatures(initial.st.features, 0);
    assert sorted[0..] == sorted;
    return false, State(sorted, initial.st.applied, false);
  }

  /** What holds at the head of the loop. */
  ghost predicate Going(st: State, order: seq<Feature>, trace: seq<State>, disabled: bool,
                        registered: set<FeatureId>, behave: nat -> Action, first: seq<Feature>) {
    && Running(st, order, |order|, disabled, registered) && st.applied == Ids(order)
    && (forall f | f in order :: f.id in registered)
    && Traced(order, trace, disabled, behave, first)
    && CameTo(st.features, order, trace, behave) && (trace == [] ==> st.features == first)
  }

  ghost predicate Traced(order: seq<Feature>, trace: seq<State>, disabled: bool, behave: nat -> Action,
                         first: seq<Feature>) {
    IsTrace(trace, order, behave) && (disabled <==> SomeDisables(trace, behave)) && (trace != [] ==> trace[0].features == first)
  }

  lemma FewerLeft(registered: set<FeatureId>, applied: set<FeatureId>, id: FeatureId)
    requires id in registered && id !in applied
    ensures |registered - (applied + {id})| < |registered - applied|
  {
    assert registered - (applied + {id}) == registered - applied - {id};
  }

  lemma MarkedTrace(st: State, order: seq<Feature>, trace: seq<State>, disabled: bool,
                    registered: set<FeatureId>, behave: nat -> Action, first: seq<Feature>)
    requires Going(st, order, trace, disabled, registered, behave, first) && |order| < |st.features|
    ensures var f := st.features[|order|];
            var marked := State(st.features, st.applied + {f.id}, false);
            && IsNext(marked, order + [f])
            && Traced(order + [f], trace + [marked], DisablesApplied(marked, behave(|order|).ops), behave, first)
  {
    var f := st.features[|order|];
    var marked := State(st.features, st.applied + {f.id}, false);
    IdsOfMore(order, f);
    TraceOneMore(trace, order, behave, marked);
    NoneYet(trace, behave, marked);
  }

  lemma NoneYet(trace: seq<State>, behave: nat -> Action, marked: State)
    requires !SomeDisables(trace, behave)
    ensures SomeDisables(trace + [marked], behave) <==> DisablesApplied(marked, behave(|trace|).ops)
  {
    var longer := trace + [marked];
    assert longer[|trace|] == marked;
    assert forall n | 0 <= n < |trace| :: longer[n] == trace[n];
  }

  lemma SameElements(gs: seq<Feature>, fs: seq<Feature>, from: nat)
    requires Resorted(gs, fs, from)
    ensures multiset(fs) == multiset(gs)
  {
    assert fs == fs[..from] + fs[from..] && gs == gs[..from] + gs[from..];
  }

  /** The only arrangement of three features in order. */
  lemma OneArrangement(a: Feature, b: Feature, c: Feature, fs: seq<Feature>, from: nat)
    requires FeatureLess(a, b) && FeatureLess(b, c) && Resorted([a, b, c], fs, from) && Sorted(fs, FeatureLe)
    ensures fs == [a, b, c]
  {
    var gs := [a, b, c];
    SameElements(gs, fs, from);
    LessIsTotal(a.id.key, b.id.key, c.id.key);
    assert gs[0] == a && gs[1] == b && gs[2] == c;
    SortedOnce(fs, gs);
  }

  lemma MultisetTail(a: seq<Feature>, b: seq<Feature>)
    requires a != [] && b != [] && a[0] == b[0] && multiset(a) == multiset(b)
    ensures multiset(a[1..]) == multiset(b[1..])
  {
    assert a == [a[0]] + a[1..] && b == [b[0]] + b[1..];
    assert multiset(a[1..]) == multiset(a) - multiset{a[0]};
    assert multiset(b[1..]) == multiset(b) - multiset{b[0]};
  }

  lemma {:induction false} SortedOnce(fs: seq<Feature>, gs: seq<Feature>)
    requires Sorted(fs, FeatureLe) && multiset(fs) == multiset(gs)
    requires forall i, j | 0 <= i < j < |gs| :: FeatureLess(gs[i], gs[j])
    ensures fs == gs
    decreases |fs|
  {
    assert |fs| == |multiset(fs)| && |gs| == |multiset(gs)|;
    if fs != [] {
      assert fs[0] in multiset(fs) && gs[0] in multiset(gs);
      assert fs[0] in gs && gs[0] in fs;
      assert fs[0] == gs[0];
      MultisetTail(fs, gs);
      SortedOnce(fs[1..], gs[1..]);
    }
  }

  /** The index check does not look at the last index, so a feature can be passed over: `b`
      disables `a` after both have been applied, which is accepted, the loop ends, and `c`
      stays in the list without having been applied. */
  method FeaturePassedOver(a: Feature, b: Feature, c: Feature)
    returns (outcome: Outcome, st: State, order: seq<Feature>)
    requires FeatureLess(a, b) && FeatureLess(b, c)
    ensures outcome == Built && order == [a, b] && st.features == [b, c]
  {
    var behave := (n: nat) => Action(if n == 1 then [Disable(a)] else [], false);
    var trace;
    DifferentIds(a, b, c);
    ThreeEnabled(a, b, c);
    outcome, st, order, trace := Build([Enable(a), Enable(b), Enable(c)], {a.id, b.id, c.id}, behave);
    PassedOver(a, b, c, behave, outcome, st, order, trace);
  }

  lemma {:induction false} TracePrefix(trace: seq<State>, order: seq<Feature>, behave: nat -> Action, k: nat)
    requires IsTrace(trace, order, behave) && 0 < k <= |trace|
    ensures IsNext(trace[k - 1], order[..k]) && CameTo(trace[k - 1].features, order[..k - 1], trace[..k - 1], behave)
    decreases |trace|
  {
    var n := |trace| - 1;
    if k <= n {
      TracePrefix(trace[..n], order[..n], behave, k);
      TakeTwice(order, n, k);
      TakeTwice(order, n, k - 1);
      TakeTwice(trace, n, k - 1);
    } else {
      assert order[..k] == order;
    }
  }

  lemma TakeTwice<T>(s: seq<T>, n: nat, k: nat)
    requires k <= n <= |s|
    ensures s[..n][..k] == s[..k]
  {
  }

  ghost predicate DisablesOnce(a: Feature, behave: nat -> Action) {
    forall n: nat :: behave(n) == Action(if n == 1 then [Disable(a)] else [], false)
  }

  lemma FirstTurn(a: Feature, b: Feature, c: Feature, behave: nat -> Action, marked: State)
    requires DisablesOnce(a, behave) && marked == State([a, b, c], {a.id}, false)
    ensures RoundOutcome(marked, 0, behave(0)) == Built && DoAll(marked, behave(0).ops).st == marked
  {
  }

  lemma SecondTurn(a: Feature, b: Feature, c: Feature, behave: nat -> Action, marked: State)
    requires DisablesOnce(a, behave) && marked == State([a, b, c], {a.id, b.id}, false)
    ensures RoundOutcome(marked, 1, behave(1)) == Built && DoAll(marked, behave(1).ops).st.features == [b, c]
  {
    assert [a, b, c][..0] + [a, b, c][1..] == [b, c];
    DoCons(marked, Disable(a), []);
    EmptyRight([Disable(a)]);
  }

  lemma DifferentIds(a: Feature, b: Feature, c: Feature)
    requires FeatureLess(a, b) && FeatureLess(b, c)
    ensures a.id != b.id && a.id != c.id && b.id != c.id
  {
    LessIsTotal(a.id.key, b.id.key, c.id.key);
    LessIsTotal(a.id.key, a.id.key, c.id.key);
    LessIsTotal(b.id.key, b.id.key, c.id.key);
  }

  lemma ThreeEnabled(a: Feature, b: Feature, c: Feature)
    requires a.id != b.id && a.id != c.id && b.id != c.id
    ensures DoAll(State([], {}, false), [Enable(a), Enable(b), Enable(c)]) == Goes(State([a, b, c], {}, true))
  {
    DoCons(State([], {}, false), Enable(a), [Enable(b), Enable(c)]);
    DoCons(State([] + [a], {}, true), Enable(b), [Enable(c)]);
    DoCons(State([] + [a] + [b], {}, true), Enable(c), []);
    assert [Enable(a)] + [Enable(b), Enable(c)] == [Enable(a), Enable(b), Enable(c)];
    assert [Enable(b)] + [Enable(c)] == [Enable(b), Enable(c)];
    EmptyRight([Enable(c)]);
    assert [] + [a] + [b] + [c] == [a, b, c];
  }

  /** The state in which the first feature is applied, and that there is one. */
  lemma FirstApplied(a: Feature, b: Feature, c: Feature, behave: nat -> Action,
                     outcome: Outcome, st: State, order: seq<Feature>, trace: seq<State>)
    requires IsTrace(trace, order, behave) && Ends(outcome, {a.id, b.id, c.id}, behave, st, order, trace)
    requires FirstOf(trace, st) == [a, b, c]
    ensures |order| >= 1 && order[0] == a && trace[0] == State([a, b, c], {a.id}, false)
  {
    if |order| >= 1 {
      TracePrefix(trace, order, behave, 1);
      assert order[..1] == [order[0]];
      assert order[0] in [order[0]] && Ids([order[0]]) == {order[0].id};
    }
  }

  lemma SecondApplied(a: Feature, b: Feature, c: Feature, behave: nat -> Action,
                      outcome: Outcome, st: State, order: seq<Feature>, trace: seq<State>)
    requires FeatureLess(a, b) && FeatureLess(b, c) && DisablesOnce(a, behave)
    requires IsTrace(trace, order, behave) && Ends(outcome, {a.id, b.id, c.id}, behave, st, order, trace)
    requires |order| >= 1 && order[0] == a && trace[0] == State([a, b, c], {a.id}, false)
    ensures |order| >= 2 && order[..2] == [a, b] && trace[1] == State([a, b, c], {a.id, b.id}, false)
  {
    FirstTurn(a, b, c, behave, trace[0]);
    if |order| == 1 {
      Rearranged(a, b, c, st.features);
    } else {
      TracePrefix(trace, order, behave, 2);
      assert order[..1] == [a] && trace[..1] == [trace[0]];
      StillArranged(a, b, c, trace[1].features);
      assert order[..2] == [order[0], order[1]];
      IdsOfTwo(a, b);
    }
  }

  lemma StillArranged(a: Feature, b: Feature, c: Feature, fs: seq<Feature>)
    requires FeatureLess(a, b) && FeatureLess(b, c) && Sorted(fs, FeatureLe)
    requires fs == [a, b, c] || Resorted([a, b, c], fs, 1)
    ensures fs == [a, b, c]
  {
    if fs != [a, b, c] {
      OneArrangement(a, b, c, fs, 1);
    }
  }

  lemma IdsOfTwo(a: Feature, b: Feature)
    ensures Ids([a, b]) == {a.id, b.id}
  {
    assert a in [a, b] && b in [a, b];
  }

  lemma Rearranged(a: Feature, b: Feature, c: Feature, fs: seq<Feature>)
    ensures Resorted([a, b, c], fs, 1) ==> |fs| == 3 && fs[1].id in {a.id, b.id, c.id}
  {
    if Resorted([a, b, c], fs, 1) {
      assert fs[1] == fs[1..][0];
      assert fs[1] in multiset(fs[1..]);
      assert fs[1] in [a, b, c][1..];
    }
  }

  lemma PassedOver(a: Feature, b: Feature, c: Feature, behave: nat -> Action,
                   outcome: Outcome, st: State, order: seq<Feature>, trace: seq<State>)
    requires FeatureLess(a, b) && FeatureLess(b, c) && DisablesOnce(a, behave)
    requires IsTrace(trace, order, behave) && Ends(outcome, {a.id, b.id, c.id}, behave, st, order, trace)
    requires Resorted([a, b, c], FirstOf(trace, st), 0) && Sorted(FirstOf(trace, st), FeatureLe)
    ensures outcome == Built && order == [a, b] && st.features == [b, c]
  {
    OneArrangement(a, b, c, FirstOf(trace, st), 0);
    FirstApplied(a, b, c, behave, outcome, st, order, trace);
    SecondApplied(a, b, c, behave, outcome, st, order, trace);
    SecondTurn(a, b, c, behave, trace[1]);
    if |order| >= 3 {
      TracePrefix(trace, order, behave, 3);
    }
    assert order == order[..2];
    OnlyTwo(b, c, st.features);
  }

  lemma OnlyTwo(b: Feature, c: Feature, fs: seq<Feature>)
    ensures fs == [b, c] || Resorted([b, c], fs, 2) ==> fs == [b, c]
  {
    if Resorted([b, c], fs, 2) {
      assert fs == fs[..2] && [b, c] == [b, c][..2];
    }
  }
}
