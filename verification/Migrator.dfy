/** The migration runner over its version table, in ordered and in out-of-order mode. */
module Migrator {
  import opened Collections
  import opened Text
  import opened Ordering
  import opened Versions

  /** A registered step: its version, its tags, and whether running it succeeds. */
  datatype Migration = Migration(version: Version, tags: set<string>, succeeds: bool)

  /** The version table: version text to success flag. */
  type Rows = map<string, bool>

  predicate StepLe(a: Migration, b: Migration) {
    !Lt(b.version, a.version)
  }

  lemma StepLeIsPreorder()
    ensures TotalPreorder(StepLe)
  {
    forall a: Migration, b: Migration
      ensures StepLe(a, b) || StepLe(b, a)
    {
      LtTotal(a.version, b.version);
    }
    forall a: Migration, b: Migration, c: Migration | StepLe(a, b) && StepLe(b, c)
      ensures StepLe(a, c)
    {
      LtTotal(a.version, b.version);
      LtTotal(b.version, c.version);
      LtTotal(a.version, c.version);
      if Lt(c.version, a.version) {
        if a.version != b.version {
          LtTransitive(c.version, a.version, b.version);
        }
      }
    }
  }

  /** Steps a registrar can hold: printable versions, each once. */
  ghost predicate GoodSteps(steps: seq<Migration>) {
    && (forall s | s in steps :: s.version != [] && IsVersion(s.version))
    && (forall i, j | 0 <= i < j < |steps| :: steps[i].version != steps[j].version)
  }

  /** Every row was written under the text of a version. */
  ghost predicate GoodRows(rows: Rows) {
    forall k {:trigger FromString(k)} | k in rows ::
      FromString(k).Some? && IsVersion(FromString(k).value) && String(FromString(k).value) == k
  }

  predicate HasFailure(rows: Rows) {
    exists k :: k in rows && !rows[k]
  }

  predicate Selected(s: Migration, filter: string) {
    filter == "" || filter in s.tags
  }

  /** The test that decides whether a step runs, fixed before the first step runs. */
  ghost predicate Should(rows: Rows, outOfOrder: bool, v: Version)
    requires GoodRows(rows)
  {
    if outOfOrder then String(v) !in rows
    else forall k {:trigger FromString(k)} | k in rows :: Lt(FromString(k).value, v)
  }

  /** The state of the table, the versions executed in order, and whether all went well. */
  datatype Outcome = Outcome(rows: Rows, executed: seq<Version>, ok: bool)

  /** The loop over the sorted steps; `rows0` is the table at the start of the run. */
  ghost function RunSteps(rows0: Rows, outOfOrder: bool, filter: string, steps: seq<Migration>,
                          rows: Rows): (o: Outcome)
    requires GoodRows(rows0)
    decreases |steps|
  {
    if steps == [] then Outcome(rows, [], true)
    else
      var s := steps[0];
      if !Selected(s, filter) || !Should(rows0, outOfOrder, s.version)
      then RunSteps(rows0, outOfOrder, filter, steps[1..], rows)
      else
        var rows' := rows[String(s.version) := s.succeeds];
        if !s.succeeds then Outcome(rows', [s.version], false)
        else
          var o := RunSteps(rows0, outOfOrder, filter, steps[1..], rows');
          Outcome(o.rows, [s.version] + o.executed, o.ok)
  }

  /** One run of the migrator. */
  ghost function Migrate(rows: Rows, outOfOrder: bool, filter: string, steps: seq<Migration>): Outcome
    requires GoodRows(rows)
  {
    if HasFailure(rows) then Outcome(rows, [], false)
    else RunSteps(rows, outOfOrder, filter, StableSort(steps, StepLe), rows)
  }

  /***************************** One run *****************************/

  ghost predicate StrictlyIncreasing(vs: seq<Version>) {
    forall i, j | 0 <= i < j < |vs| :: Lt(vs[i], vs[j])
  }

  ghost predicate Ascending(steps: seq<Migration>) {
    forall i, j | 0 <= i < j < |steps| :: Lt(steps[i].version, steps[j].version)
  }

  lemma SortedSteps(steps: seq<Migration>)
    requires GoodSteps(steps)
    ensures var sorted := StableSort(steps, StepLe);
            GoodSteps(sorted) && Ascending(sorted) && forall s :: s in sorted <==> s in steps
  {
    var sorted := StableSort(steps, StepLe);
    StepLeIsPreorder();
    StableSortSorts(steps, StepLe);
    PermutedDistinct(steps, sorted);
    forall i, j | 0 <= i < j < |sorted|
      ensures sorted[i].version != sorted[j].version && Lt(sorted[i].version, sorted[j].version)
    {
      assert sorted[i] in sorted && sorted[j] in sorted;
      var a :| 0 <= a < |steps| && steps[a] == sorted[i];
      var b :| 0 <= b < |steps| && steps[b] == sorted[j];
      assert StepLe(sorted[i], sorted[j]);
      LtTotal(sorted[i].version, sorted[j].version);
    }
  }

  /** Step `s` is due in a run that starts from `rows0`. */
  ghost predicate Due(rows0: Rows, outOfOrder: bool, filter: string, s: Migration)
    requires GoodRows(rows0)
  {
    Selected(s, filter) && Should(rows0, outOfOrder, s.version)
  }

  ghost predicate IsDue(rows0: Rows, outOfOrder: bool, filter: string, steps: seq<Migration>, v: Version)
    requires GoodRows(rows0)
  {
    exists s :: s in steps && s.version == v && Due(rows0, outOfOrder, filter, s)
  }

  lemma TailOfSteps(steps: seq<Migration>)
    requires Ascending(steps) && GoodSteps(steps) && steps != []
    ensures Ascending(steps[1..]) && GoodSteps(steps[1..])
    ensures forall s | s in steps[1..] :: Lt(steps[0].version, s.version)
  {
  }

  /** Executed versions ascend, and each of them was due. */
  lemma {:induction false} RunAscends(rows0: Rows, outOfOrder: bool, filter: string, steps: seq<Migration>, rows: Rows)
    requires GoodRows(rows0) && Ascending(steps) && GoodSteps(steps)
    ensures var o := RunSteps(rows0, outOfOrder, filter, steps, rows);
            && StrictlyIncreasing(o.executed)
            && forall v | v in o.executed :: IsDue(rows0, outOfOrder, filter, steps, v)
    decreases |steps|
  {
    if steps != [] {
      var s, rest := steps[0], steps[1..];
      TailOfSteps(steps);
      var rows' := if Due(rows0, outOfOrder, filter, s) then rows[String(s.version) := s.succeeds] else rows;
      RunAscends(rows0, outOfOrder, filter, rest, rows');
      var later := RunSteps(rows0, outOfOrder, filter, rest, rows').executed;
      forall v | v in later
        ensures IsDue(rows0, outOfOrder, filter, steps, v) && Lt(s.version, v)
      {
        var t :| t in rest && t.version == v && Due(rows0, outOfOrder, filter, t);
        assert t in steps;
      }
      if Due(rows0, outOfOrder, filter, s) {
        assert IsDue(rows0, outOfOrder, filter, steps, s.version);
      }
    }
  }

  /** A run that goes well executes everything that was due. */
  lemma {:induction false} RunIsComplete(rows0: Rows, outOfOrder: bool, filter: string, steps: seq<Migration>,
                                         rows: Rows)
    requires GoodRows(rows0)
    ensures var o := RunSteps(rows0, outOfOrder, filter, steps, rows);
            o.ok ==> forall s | s in steps && Due(rows0, outOfOrder, filter, s) :: s.version in o.executed
    decreases |steps|
  {
    if steps != [] {
      var s := steps[0];
      var rows' := if Due(rows0, outOfOrder, filter, s) then rows[String(s.version) := s.succeeds] else rows;
      RunIsComplete(rows0, outOfOrder, filter, steps[1..], rows');
    }
  }

  /** Everything executed is recorded, nothing is forgotten, and a failure leaves a mark. */
  lemma {:induction false} RunRecords(rows0: Rows, outOfOrder: bool, filter: string, steps: seq<Migration>, rows: Rows)
    requires GoodRows(rows0)
    ensures var o := RunSteps(rows0, outOfOrder, filter, steps, rows);
            && (forall k :: k in o.rows <==> k in rows || exists v :: v in o.executed && String(v) == k)
            && (o.ok && !HasFailure(rows) ==> !HasFailure(o.rows))
            && (!o.ok ==> HasFailure(o.rows))
    decreases |steps|
  {
    if steps != [] {
      var s := steps[0];
      if Due(rows0, outOfOrder, filter, s) {
        var rows' := rows[String(s.version) := s.succeeds];
        if s.succeeds {
          RunRecords(rows0, outOfOrder, filter, steps[1..], rows');
          var o := RunSteps(rows0, outOfOrder, filter, steps[1..], rows');
          var all := [s.version] + o.executed;
          assert forall v :: v in all <==> v == s.version || v in o.executed;
          assert !HasFailure(rows) ==> !HasFailure(rows');
        } else {
          assert !rows'[String(s.version)];
          assert forall v :: v in [s.version] <==> v == s.version;
        }
      } else {
        RunRecords(rows0, outOfOrder, filter, steps[1..], rows);
      }
    }
  }

  /** A row is touched only by executing its version. */
  lemma {:induction false} RunLeavesOtherRows(rows0: Rows, outOfOrder: bool, filter: string, steps: seq<Migration>,
                                              rows: Rows, k: string)
    requires GoodRows(rows0) && k in rows
    requires forall v | v in RunSteps(rows0, outOfOrder, filter, steps, rows).executed :: String(v) != k
    ensures var o := RunSteps(rows0, outOfOrder, filter, steps, rows); k in o.rows && o.rows[k] == rows[k]
    decreases |steps|
  {
    if steps != [] {
      var s, o := steps[0], RunSteps(rows0, outOfOrder, filter, steps, rows);
      if Due(rows0, outOfOrder, filter, s) {
        assert o.executed[0] == s.version && s.version in o.executed;
        if s.succeeds {
          var rows' := rows[String(s.version) := s.succeeds];
          assert o.executed == [s.version] + RunSteps(rows0, outOfOrder, filter, steps[1..], rows').executed;
          RunLeavesOtherRows(rows0, outOfOrder, filter, steps[1..], rows', k);
        }
      } else {
        RunLeavesOtherRows(rows0, outOfOrder, filter, steps[1..], rows, k);
      }
    }
  }

  lemma {:induction false} RunKeepsRowsGood(rows0: Rows, outOfOrder: bool, filter: string, steps: seq<Migration>,
                                            rows: Rows)
    requires GoodRows(rows0) && GoodRows(rows) && forall s | s in steps :: s.version != [] && IsVersion(s.version)
    ensures GoodRows(RunSteps(rows0, outOfOrder, filter, steps, rows).rows)
    decreases |steps|
  {
    if steps != [] {
      var s := steps[0];
      assert s in steps;
      if Due(rows0, outOfOrder, filter, s) {
        RoundTrip(s.version);
        var rows' := rows[String(s.version) := s.succeeds];
        RunKeepsRowsGood(rows0, outOfOrder, filter, steps[1..], rows');
      } else {
        RunKeepsRowsGood(rows0, outOfOrder, filter, steps[1..], rows);
      }
    }
  }

  /***************************** What one run does *****************************/

  /** One run's registrar, tag filter and mode. */
  datatype Plan = Plan(steps: seq<Migration>, filter: string, outOfOrder: bool)

  ghost predicate GoodPlans(plans: seq<Plan>) {
    forall p | p in plans :: GoodSteps(p.steps)
  }

  ghost function RunPlan(rows: Rows, p: Plan): Outcome
    requires GoodRows(rows)
  {
    Migrate(rows, p.outOfOrder, p.filter, p.steps)
  }

  /** The step has the tag asked for, if one is, and its version is missing from the table, or
      in ordered mode comes behind every version in it. */
  ghost predicate MustRun(rows: Rows, p: Plan, s: Migration)
    requires GoodRows(rows)
  {
    && (p.filter != "" ==> p.filter in s.tags)
    && if p.outOfOrder then String(s.version) !in rows
       else forall k {:trigger FromString(k)} | k in rows :: ComesBefore(FromString(k).value, s.version)
  }

  /** No step before `s` that must run fails. */
  ghost predicate GetsTo(rows: Rows, p: Plan, steps: seq<Migration>, s: Migration)
    requires GoodRows(rows)
  {
    forall u | u in steps && MustRun(rows, p, u) && ComesBefore(u.version, s.version) :: u.succeeds
  }

  lemma MustIsDue(rows: Rows, p: Plan, s: Migration)
    requires GoodRows(rows)
    ensures MustRun(rows, p, s) <==> Due(rows, p.outOfOrder, p.filter, s)
  {
    forall k | k in rows
      ensures Lt(FromString(k).value, s.version) <==> ComesBefore(FromString(k).value, s.version)
    {
      LtExactly(FromString(k).value, s.version);
    }
  }

  lemma NotBefore(v: Version, w: Version)
    requires Lt(v, w)
    ensures ComesBefore(v, w) && !ComesBefore(w, v) && !ComesBefore(v, v) && v != w
  {
    LtExactly(v, w);
    LtExactly(w, v);
    LtExactly(v, v);
    LtTotal(v, w);
    LtTotal(v, v);
  }

  /** The first step is never held up, and holds up the others exactly if it fails. */
  lemma GetsToTail(rows0: Rows, p: Plan, steps: seq<Migration>, s: Migration)
    requires GoodRows(rows0) && Ascending(steps) && GoodSteps(steps) && steps != [] && s in steps
    ensures s == steps[0] ==> GetsTo(rows0, p, steps, s)
    ensures s in steps[1..] ==>
              (GetsTo(rows0, p, steps, s) <==>
               (MustRun(rows0, p, steps[0]) ==> steps[0].succeeds) && GetsTo(rows0, p, steps[1..], s))
  {
    TailOfSteps(steps);
    assert steps[0] in steps;
    forall u | u in steps[1..]
      ensures u in steps && !ComesBefore(u.version, steps[0].version)
    {
      NotBefore(steps[0].version, u.version);
    }
    if s in steps[1..] {
      NotBefore(steps[0].version, s.version);
    } else {
      assert s == steps[0];
      LtTotal(s.version, s.version);
      LtExactly(s.version, s.version);
    }
    assert forall u | u in steps :: u == steps[0] || u in steps[1..];
  }

  /** Nothing of the later steps has the first one's version. */
  lemma FirstNotLater(rows0: Rows, outOfOrder: bool, filter: string, steps: seq<Migration>, rows: Rows)
    requires GoodRows(rows0) && Ascending(steps) && GoodSteps(steps) && steps != []
    ensures steps[0].version !in RunSteps(rows0, outOfOrder, filter, steps[1..], rows).executed
  {
    TailOfSteps(steps);
    RunAscends(rows0, outOfOrder, filter, steps[1..], rows);
    LtTotal(steps[0].version, steps[0].version);
  }

  /** A step is executed exactly if it must run and no failing one comes before it. */
  lemma {:induction false} RunExecutes(rows0: Rows, p: Plan, steps: seq<Migration>, rows: Rows, s: Migration)
    requires GoodRows(rows0) && Ascending(steps) && GoodSteps(steps) && s in steps
    ensures s.version in RunSteps(rows0, p.outOfOrder, p.filter, steps, rows).executed <==>
            MustRun(rows0, p, s) && GetsTo(rows0, p, steps, s)
    decreases |steps|
  {
    var u, rest := steps[0], steps[1..];
    var rows' := if Due(rows0, p.outOfOrder, p.filter, u) then rows[String(u.version) := u.succeeds] else rows;
    TailOfSteps(steps);
    MustIsDue(rows0, p, u);
    GetsToTail(rows0, p, steps, s);
    if s in rest {
      RunExecutes(rows0, p, rest, rows', s);
      LtTotal(u.version, s.version);
      assert s.version != u.version;
    } else {
      assert s == u;
      FirstNotLater(rows0, p.outOfOrder, p.filter, steps, rows');
    }
  }

  lemma {:induction false} RunGoesWell(rows0: Rows, p: Plan, steps: seq<Migration>, rows: Rows)
    requires GoodRows(rows0)
    ensures RunSteps(rows0, p.outOfOrder, p.filter, steps, rows).ok <==>
            forall s | s in steps && MustRun(rows0, p, s) :: s.succeeds
    decreases |steps|
  {
    if steps != [] {
      var u := steps[0];
      assert u in steps;
      var rows' := if Due(rows0, p.outOfOrder, p.filter, u) then rows[String(u.version) := u.succeeds] else rows;
      MustIsDue(rows0, p, u);
      RunGoesWell(rows0, p, steps[1..], rows');
    }
  }

  /** What is recorded for a step that was executed. */
  lemma {:induction false} RunMarks(rows0: Rows, p: Plan, steps: seq<Migration>, rows: Rows, s: Migration)
    requires GoodRows(rows0) && Ascending(steps) && GoodSteps(steps) && s in steps
    requires s.version in RunSteps(rows0, p.outOfOrder, p.filter, steps, rows).executed
    ensures var o := RunSteps(rows0, p.outOfOrder, p.filter, steps, rows);
            String(s.version) in o.rows && o.rows[String(s.version)] == s.succeeds
    decreases |steps|
  {
    var u, rest := steps[0], steps[1..];
    var rows' := if Due(rows0, p.outOfOrder, p.filter, u) then rows[String(u.version) := u.succeeds] else rows;
    TailOfSteps(steps);
    if s in rest {
      LtTotal(u.version, s.version);
      RunMarks(rows0, p, rest, rows', s);
    } else {
      assert s == u;
      FirstNotLater(rows0, p.outOfOrder, p.filter, steps, rows');
      if u.succeeds {
        LaterTextsDiffer(rows0, p, steps, rows');
        RunLeavesOtherRows(rows0, p.outOfOrder, p.filter, rest, rows', String(u.version));
      }
    }
  }

  lemma LaterTextsDiffer(rows0: Rows, p: Plan, steps: seq<Migration>, rows: Rows)
    requires GoodRows(rows0) && Ascending(steps) && GoodSteps(steps) && steps != []
    ensures forall v | v in RunSteps(rows0, p.outOfOrder, p.filter, steps[1..], rows).executed ::
              String(v) != String(steps[0].version)
  {
    var u, later := steps[0], RunSteps(rows0, p.outOfOrder, p.filter, steps[1..], rows).executed;
    TailOfSteps(steps);
    RunAscends(rows0, p.outOfOrder, p.filter, steps[1..], rows);
    FirstNotLater(rows0, p.outOfOrder, p.filter, steps, rows);
    forall v | v in later
      ensures String(v) != String(u.version)
    {
      assert IsDue(rows0, p.outOfOrder, p.filter, steps[1..], v);
      assert u in steps && v != u.version;
      if String(v) == String(u.version) {
        StringInjective(v, u.version);
      }
    }
  }

  /** One run from any table, in either mode and with any filter. A table with a failed row
      stops it. Otherwise the steps executed are those that must run and come before any
      failing one, in ascending order; it goes well exactly if none of them fails, each
      leaves a row that says how it ended, and no other row is touched. */
  lemma RunExactly(rows: Rows, p: Plan, s: Migration, k: string)
    requires GoodRows(rows) && GoodSteps(p.steps) && s in p.steps
    ensures var o := RunPlan(rows, p);
            if exists x :: x in rows && !rows[x] then o == Outcome(rows, [], false)
            else
              && (forall i, j | 0 <= i < j < |o.executed| :: ComesBefore(o.executed[i], o.executed[j]))
              && (s.version in o.executed <==> MustRun(rows, p, s) && GetsTo(rows, p, p.steps, s))
              && (o.ok <==> forall u | u in p.steps && MustRun(rows, p, u) :: u.succeeds)
              && (s.version in o.executed ==> String(s.version) in o.rows && o.rows[String(s.version)] == s.succeeds)
              && (k in o.rows <==> k in rows || exists v :: v in o.executed && String(v) == k)
              && (k in rows && (forall v | v in o.executed :: String(v) != k) ==> k in o.rows && o.rows[k] == rows[k])
  {
    if !HasFailure(rows) {
      var sorted := StableSort(p.steps, StepLe);
      var o := RunSteps(rows, p.outOfOrder, p.filter, sorted, rows);
      SortedSteps(p.steps);
      RunExecutes(rows, p, sorted, rows, s);
      RunGoesWell(rows, p, sorted, rows);
      RunAscends(rows, p.outOfOrder, p.filter, sorted, rows);
      RunRecords(rows, p.outOfOrder, p.filter, sorted, rows);
      forall i, j | 0 <= i < j < |o.executed|
        ensures ComesBefore(o.executed[i], o.executed[j])
      {
        LtExactly(o.executed[i], o.executed[j]);
      }
      if s.version in o.executed {
        RunMarks(rows, p, sorted, rows, s);
      }
      if k in rows && forall v | v in o.executed :: String(v) != k {
        RunLeavesOtherRows(rows, p.outOfOrder, p.filter, sorted, rows, k);
      }
    }
  }

  /***************************** Whole histories *****************************/

  /** The table and the versions executed after a series of runs. */
  ghost function History(rows: Rows, plans: seq<Plan>): (o: Outcome)
    requires GoodRows(rows) && GoodPlans(plans)
    decreases |plans|
  {
    if plans == [] then Outcome(rows, [], true)
    else
      assert plans[0] in plans;
      var first := RunPlan(rows, plans[0]);
      MigrateKeepsRowsGood(rows, plans[0].outOfOrder, plans[0]);
      var rest := History(first.rows, plans[1..]);
      Outcome(rest.rows, first.executed + rest.executed, first.ok && rest.ok)
  }

  lemma MigrateKeepsRowsGood(rows: Rows, outOfOrder: bool, p: Plan)
    requires GoodRows(rows) && GoodSteps(p.steps)
    ensures GoodRows(Migrate(rows, outOfOrder, p.filter, p.steps).rows)
  {
    SortedSteps(p.steps);
    RunKeepsRowsGood(rows, outOfOrder, p.filter, StableSort(p.steps, StepLe), rows);
  }

  /** `v` comes after everything recorded. */
  ghost predicate Beyond(rows: Rows, v: Version)
    requires GoodRows(rows)
  {
    Should(rows, false, v)
  }

  /** One ordered run: ascending versions beyond the table, all of them recorded. */
  lemma OrderedRun(rows: Rows, p: Plan)
    requires GoodRows(rows) && GoodSteps(p.steps)
    ensures var o := Migrate(rows, false, p.filter, p.steps);
            && StrictlyIncreasing(o.executed)
            && (forall v | v in o.executed :: Beyond(rows, v) && v != [] && IsVersion(v) && String(v) in o.rows)
            && (forall k | k in rows :: k in o.rows)
  {
    var sorted := StableSort(p.steps, StepLe);
    SortedSteps(p.steps);
    RunAscends(rows, false, p.filter, sorted, rows);
    RunRecords(rows, false, p.filter, sorted, rows);
    var o := Migrate(rows, false, p.filter, p.steps);
    forall v | v in o.executed
      ensures Beyond(rows, v) && v != [] && IsVersion(v)
    {
      assert IsDue(rows, false, p.filter, sorted, v);
      var s :| s in sorted && s.version == v && Due(rows, false, p.filter, s);
    }
  }

  /** Over any number of ordered runs, with any registrars and tag filters, the versions
      executed are strictly increasing across the whole history. */
  lemma {:induction false} HistoryAscends(rows: Rows, plans: seq<Plan>)
    requires GoodRows(rows) && GoodPlans(plans) && forall p | p in plans :: !p.outOfOrder
    ensures StrictlyIncreasing(History(rows, plans).executed)
    ensures forall v | v in History(rows, plans).executed :: Beyond(rows, v)
    decreases |plans|
  {
    if plans != [] {
      assert plans[0] in plans;
      OrderedRun(rows, plans[0]);
      MigrateKeepsRowsGood(rows, false, plans[0]);
      var first := Migrate(rows, false, plans[0].filter, plans[0].steps);
      HistoryAscends(first.rows, plans[1..]);
      var rest := History(first.rows, plans[1..]);
      forall v | v in rest.executed
        ensures Beyond(rows, v) && forall w | w in first.executed :: Lt(w, v)
      {
        BeyondLater(rows, first.rows, first.executed, v);
      }
      IncreasingConcat(first.executed, rest.executed);
    }
  }

  lemma BeyondLater(rows: Rows, rows': Rows, executed: seq<Version>, v: Version)
    requires GoodRows(rows) && GoodRows(rows') && Beyond(rows', v)
    requires forall k | k in rows :: k in rows'
    requires forall w | w in executed :: w != [] && IsVersion(w) && String(w) in rows'
    ensures Beyond(rows, v) && forall w | w in executed :: Lt(w, v)
  {
    forall w | w in executed
      ensures Lt(w, v)
    {
      RoundTrip(w);
      assert FromString(String(w)) == Some(w);
    }
  }

  lemma IncreasingConcat(a: seq<Version>, b: seq<Version>)
    requires StrictlyIncreasing(a) && StrictlyIncreasing(b)
    requires forall v, w | w in a && v in b :: Lt(w, v)
    ensures StrictlyIncreasing(a + b)
  {
    forall i, j | 0 <= i < j < |a + b|
      ensures Lt((a + b)[i], (a + b)[j])
    {
      if i < |a| <= j {
        assert a[i] in a && b[j - |a|] in b;
      }
    }
  }

  /** Once a failed row exists, no later run executes anything or changes the table. */
  lemma {:induction false} FailureStopsHistory(rows: Rows, plans: seq<Plan>)
    requires GoodRows(rows) && GoodPlans(plans) && HasFailure(rows)
    ensures History(rows, plans).executed == [] && History(rows, plans).rows == rows
    decreases |plans|
  {
    if plans != [] {
      assert plans[0] in plans;
      FailureStopsHistory(rows, plans[1..]);
    }
  }

  /** A run that executes a failing step leaves such a row behind. */
  lemma FailedRunStopsHistory(rows: Rows, p: Plan, plans: seq<Plan>)
    requires GoodRows(rows) && GoodSteps(p.steps) && GoodPlans(plans)
    requires !RunPlan(rows, p).ok
    ensures GoodRows(RunPlan(rows, p).rows)
    ensures History(RunPlan(rows, p).rows, plans).executed == []
  {
    MigrateKeepsRowsGood(rows, p.outOfOrder, p);
    var sorted := StableSort(p.steps, StepLe);
    RunRecords(rows, p.outOfOrder, p.filter, sorted, rows);
    FailureStopsHistory(RunPlan(rows, p).rows, plans);
  }

  /** One run in either mode executes only what is not recorded, and records it. */
  lemma RunIsNew(rows: Rows, p: Plan)
    requires GoodRows(rows) && GoodSteps(p.steps)
    ensures var o := RunPlan(rows, p);
            && StrictlyIncreasing(o.executed)
            && (forall v | v in o.executed :: String(v) !in rows && String(v) in o.rows)
            && (forall k | k in rows :: k in o.rows)
  {
    var sorted := StableSort(p.steps, StepLe);
    SortedSteps(p.steps);
    RunAscends(rows, p.outOfOrder, p.filter, sorted, rows);
    RunRecords(rows, p.outOfOrder, p.filter, sorted, rows);
    forall v | v in RunPlan(rows, p).executed
      ensures String(v) !in rows
    {
      assert IsDue(rows, p.outOfOrder, p.filter, sorted, v);
      var s :| s in sorted && s.version == v && Due(rows, p.outOfOrder, p.filter, s);
      DueIsNew(rows, p.outOfOrder, v);
    }
  }

  lemma DueIsNew(rows: Rows, outOfOrder: bool, v: Version)
    requires GoodRows(rows) && v != [] && IsVersion(v) && Should(rows, outOfOrder, v)
    ensures String(v) !in rows
  {
    RoundTrip(v);
    LtTotal(v, v);
    assert FromString(String(v)) == Some(v);
  }

  lemma IncreasingIsDistinct(vs: seq<Version>)
    requires StrictlyIncreasing(vs)
    ensures Distinct(vs)
  {
    forall i, j | 0 <= i < j < |vs|
      ensures vs[i] != vs[j]
    {
      LtTotal(vs[i], vs[j]);
    }
  }

  /** Over any number of runs, in either mode and with any registrars and filters, no version
      is executed twice, and none that was recorded before. */
  lemma {:induction false} NoVersionTwice(rows: Rows, plans: seq<Plan>)
    requires GoodRows(rows) && GoodPlans(plans)
    ensures Distinct(History(rows, plans).executed)
    ensures forall v | v in History(rows, plans).executed :: String(v) !in rows
    decreases |plans|
  {
    if plans != [] {
      assert plans[0] in plans;
      RunIsNew(rows, plans[0]);
      MigrateKeepsRowsGood(rows, plans[0].outOfOrder, plans[0]);
      var first := RunPlan(rows, plans[0]);
      NoVersionTwice(first.rows, plans[1..]);
      IncreasingIsDistinct(first.executed);
      DistinctConcat(first.executed, History(first.rows, plans[1..]).executed, first.rows);
    }
  }

  lemma DistinctConcat(a: seq<Version>, b: seq<Version>, rows: Rows)
    requires Distinct(a) && Distinct(b)
    requires (forall v | v in a :: String(v) in rows) && (forall v | v in b :: String(v) !in rows)
    ensures Distinct(a + b)
  {
    forall i, j | 0 <= i < j < |a + b|
      ensures (a + b)[i] != (a + b)[j]
    {
      if i < |a| <= j {
        assert a[i] in a && b[j - |a|] in b;
      }
    }
  }

  /***************************** Out-of-order mode *****************************/

  /** A run that goes well executes exactly the selected versions missing from the table,
      in ascending order. */
  lemma OutOfOrderRun(rows: Rows, p: Plan)
    requires GoodRows(rows) && GoodSteps(p.steps)
    ensures var o := Migrate(rows, true, p.filter, p.steps);
            && StrictlyIncreasing(o.executed)
            && (forall v | v in o.executed :: String(v) !in rows && exists s :: s in p.steps && s.version == v && Selected(s, p.filter))
            && (o.ok ==> forall s | s in p.steps && Selected(s, p.filter) && String(s.version) !in rows :: s.version in o.executed)
            && (o.ok ==> !HasFailure(o.rows))
            && (o.ok ==> forall s | s in p.steps && Selected(s, p.filter) :: String(s.version) in o.rows)
  {
    if !HasFailure(rows) {
      var sorted := StableSort(p.steps, StepLe);
      SortedSteps(p.steps);
      RunAscends(rows, true, p.filter, sorted, rows);
      RunIsComplete(rows, true, p.filter, sorted, rows);
      RunRecords(rows, true, p.filter, sorted, rows);
      var o := Migrate(rows, true, p.filter, p.steps);
      forall v | v in o.executed
        ensures String(v) !in rows && exists s :: s in p.steps && s.version == v && Selected(s, p.filter)
      {
        assert IsDue(rows, true, p.filter, sorted, v);
      }
      if o.ok {
        forall s | s in p.steps && Selected(s, p.filter)
          ensures String(s.version) in rows || s.version in o.executed
        {
          assert s in sorted;
          assert String(s.version) !in rows ==> Due(rows, true, p.filter, s);
        }
      }
    }
  }

  /** After an unfiltered run that went well, running again executes nothing. */
  lemma SecondRunIsIdle(rows: Rows, steps: seq<Migration>)
    requires GoodRows(rows) && GoodSteps(steps) && Migrate(rows, true, "", steps).ok
    ensures GoodRows(Migrate(rows, true, "", steps).rows)
    ensures var again := Migrate(Migrate(rows, true, "", steps).rows, true, "", steps);
            again.executed == [] && again.ok && again.rows == Migrate(rows, true, "", steps).rows
  {
    var p := Plan(steps, "", true);
    OutOfOrderRun(rows, p);
    MigrateKeepsRowsGood(rows, true, p);
    var after := Migrate(rows, true, "", steps).rows;
    var sorted := StableSort(steps, StepLe);
    IdleRun(after, sorted);
  }

  lemma {:induction false} IdleRun(rows: Rows, steps: seq<Migration>)
    requires GoodRows(rows) && forall s | s in steps :: String(s.version) in rows
    ensures RunSteps(rows, true, "", steps, rows) == Outcome(rows, [], true)
    decreases |steps|
  {
    if steps != [] {
      assert steps[0] in steps;
      IdleRun(rows, steps[1..]);
    }
  }

  /***************************** The runner *****************************/

  /** `last` is the highest version in the table, if there is one. */
  ghost predicate IsLast(rows: Rows, last: Option<Version>)
    requires GoodRows(rows)
  {
    match last
    case None => rows == map[]
    case Some(v) =>
      && (exists k :: k in rows && FromString(k) == Some(v))
      && (forall k {:trigger FromString(k)} | k in rows :: !Lt(v, FromString(k).value))
  }

  /** Being after the last version is being after all of them. */
  lemma LastDecides(rows: Rows, last: Option<Version>, v: Version)
    requires GoodRows(rows) && IsLast(rows, last)
    ensures Should(rows, false, v) <==> last.None? || Lt(last.value, v)
  {
    if last.Some? {
      var top :| top in rows && FromString(top) == Some(last.value);
      if Lt(last.value, v) {
        forall k | k in rows
          ensures Lt(FromString(k).value, v)
        {
          LtTotal(last.value, FromString(k).value);
          if FromString(k).value != last.value {
            LtTransitive(FromString(k).value, last.value, v);
          }
        }
      }
    }
  }

  /** What the loop will have done when it ends, given what it has executed so far. */
  ghost function Resumed(executed: seq<Version>, o: Outcome): Outcome {
    Outcome(o.rows, executed + o.executed, o.ok)
  }

  /** The test as the loop makes it, from the last version and the texts recorded. */
  method ShouldRun(ghost rows: Rows, applied: set<string>, last: Option<Version>, outOfOrder: bool,
                   v: Version) returns (should: bool)
    requires GoodRows(rows) && applied == rows.Keys && IsLast(rows, last)
    ensures should == Should(rows, outOfOrder, v)
  {
    LastDecides(rows, last, v);
    should := last.None? || Lt(last.value, v);
    if outOfOrder {
      var text := WriteString(v);
      should := text !in applied;
    }
  }

  lemma RunOneStep(rows0: Rows, outOfOrder: bool, filter: string, steps: seq<Migration>, i: nat, rows: Rows,
                   executed: seq<Version>)
    requires GoodRows(rows0) && i < |steps|
    ensures var s := steps[i];
            var rows' := rows[String(s.version) := s.succeeds];
            Resumed(executed, RunSteps(rows0, outOfOrder, filter, steps[i..], rows)) ==
            if !Due(rows0, outOfOrder, filter, s)
            then Resumed(executed, RunSteps(rows0, outOfOrder, filter, steps[i + 1..], rows))
            else if !s.succeeds then Outcome(rows', executed + [s.version], false)
            else Resumed(executed + [s.version], RunSteps(rows0, outOfOrder, filter, steps[i + 1..], rows'))
  {
    var s := steps[i];
    assert steps[i..][0] == s && steps[i..][1..] == steps[i + 1..];
    var rest := RunSteps(rows0, outOfOrder, filter, steps[i + 1..], rows[String(s.version) := s.succeeds]);
    assert executed + ([s.version] + rest.executed) == (executed + [s.version]) + rest.executed;
  }

  class VersionTable {
    var rows: Rows

    constructor (initial: Rows)
      ensures rows == initial
    {
      rows := initial;
    }

    /** Reads the table: whether a row failed, and the highest version. */
    method ReadApplied() returns (failed: bool, last: Option<Version>)
      requires GoodRows(rows)
      ensures failed == HasFailure(rows) && IsLast(rows, last)
    {
      failed, last := false, None;
      var todo := rows.Keys;
      while todo != {}
        invariant todo <= rows.Keys
        invariant failed <==> exists k :: k in rows && k !in todo && !rows[k]
        invariant last.None? <==> todo == rows.Keys
        invariant last.Some? ==> exists k :: k in rows && FromString(k) == Some(last.value)
        invariant last.Some? ==>
                    forall k {:trigger FromString(k)} | k in rows && k !in todo :: !Lt(last.value, FromString(k).value)
        decreases |todo|
      {
        var k :| k in todo;
        todo := todo - {k};
        failed := failed || !rows[k];
        var v := ReadString(k);
        LtTotal(v.value, v.value);
        if last.None? {
          last := v;
        } else {
          var higher := CompareLoop(last.value, v.value);
          if higher {
            StaysHighest(rows, todo + {k}, last.value, v.value);
            last := v;
          }
        }
      }
    }

    /** One run of the migrator, with every execution recorded. */
    method Run(steps: seq<Migration>, outOfOrder: bool, filter: string) returns (ok: bool, ghost executed: seq<Version>)
      requires GoodRows(rows)
      modifies this
      ensures Outcome(rows, executed, ok) == Migrate(old(rows), outOfOrder, filter, steps)
    {
      var sorted := StableSort(steps, StepLe);
      var failed, last := ReadApplied();
      if failed {
        return false, [];
      }
      rows, ok, executed := Execute(rows, last, outOfOrder, filter, sorted);
    }
  }

  /** One step: compared with the table as it was at the start, run, and recorded. */
  method ExecuteOne(ghost rows0: Rows, applied: set<string>, last: Option<Version>, outOfOrder: bool, filter: string,
                    s: Migration, rows: Rows) returns (rows': Rows, ran: bool)
    requires GoodRows(rows0) && applied == rows0.Keys && IsLast(rows0, last)
    ensures ran == Due(rows0, outOfOrder, filter, s)
    ensures rows' == if ran then rows[String(s.version) := s.succeeds] else rows
  {
    rows', ran := rows, false;
    if filter == "" || filter in s.tags {
      ran := ShouldRun(rows0, applied, last, outOfOrder, s.version);
      if ran {
        var text := WriteString(s.version);
        rows' := rows[text := s.succeeds];
      }
    }
  }

  /** The loop over the sorted steps, which stops at the first failure. */
  method Execute(rows0: Rows, last: Option<Version>, outOfOrder: bool, filter: string, sorted: seq<Migration>)
    returns (rows: Rows, ok: bool, ghost executed: seq<Version>)
    requires GoodRows(rows0) && IsLast(rows0, last)
    ensures Outcome(rows, executed, ok) == RunSteps(rows0, outOfOrder, filter, sorted, rows0)
  {
    rows, executed := rows0, [];
    ghost var goal := RunSteps(rows0, outOfOrder, filter, sorted, rows0);
    assert sorted[0..] == sorted && [] + goal.executed == goal.executed;
    var i := 0;
    while i < |sorted|
      invariant 0 <= i <= |sorted|
      invariant goal == Resumed(executed, RunSteps(rows0, outOfOrder, filter, sorted[i..], rows))
    {
      var s := sorted[i];
      RunOneStep(rows0, outOfOrder, filter, sorted, i, rows, executed);
      var ran;
      rows, ran := ExecuteOne(rows0, rows0.Keys, last, outOfOrder, filter, s, rows);
      if ran {
        executed := executed + [s.version];
        if !s.succeeds {
          return rows, false, executed;
        }
      }
      i := i + 1;
    }
    assert sorted[i..] == [] && executed + [] == executed;
    ok := true;
  }

  lemma StaysHighest(rows: Rows, todo: set<string>, was: Version, v: Version)
    requires GoodRows(rows) && Lt(was, v)
    requires forall k {:trigger FromString(k)} | k in rows && k !in todo :: !Lt(was, FromString(k).value)
    ensures forall k {:trigger FromString(k)} | k in rows && k !in todo :: !Lt(v, FromString(k).value)
  {
    forall k | k in rows && k !in todo
      ensures !Lt(v, FromString(k).value)
    {
      if Lt(v, FromString(k).value) {
        LtTransitive(was, v, FromString(k).value);
      }
    }
  }
}
