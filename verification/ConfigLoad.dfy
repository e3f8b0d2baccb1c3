/** Loading the application configuration: provider groups are asked for their providers in
    rounds, each round with the properties merged in the round before, until a round brings
    no provider that still has to be loaded.
 */
module ConfigLoad {
  import opened Text
  import opened Ordering
  import opened Collections

  /** What a configuration is loaded from. A group answers with its providers in order of
      precedence, lowest first, and always the same ones for the same properties. Merging
      normalises keys and may fail; so may loading a provider and resolving placeholders. */
  datatype Env<!P, !Q> = Env(
    groups: seq<Q -> seq<P>>,
    loads: P -> bool,
    merge: seq<P> -> Option<Q>,
    resolve: Q -> Option<Q>,
    empty: Q,
    universe: set<P>)

  datatype Outcome<P, Q> =
    | Failed(loaded: set<P>, calls: seq<P>, rounds: nat)
    | Done(loaded: set<P>, calls: seq<P>, rounds: nat, props: Q, used: seq<P>, providers: seq<P>)

  function Flatten<P, Q>(groups: seq<Q -> seq<P>>, q: Q): (r: seq<P>) {
    if groups == [] then [] else groups[0](q) + Flatten(groups[1..], q)
  }

  function Collect<P, Q>(env: Env<P, Q>, q: Q): (r: seq<P>) {
    Flatten(env.groups, q)
  }

  ghost predicate Known<P, Q(!new)>(env: Env<P, Q>) {
    forall q: Q, p | p in Collect(env, q) :: p in env.universe
  }

  /** Loading the providers of a list that are not loaded yet; `calls` are the Load calls. */
  datatype Pulled<P> = Pulled(ok: bool, loaded: set<P>, calls: seq<P>)

  function Pull<P(==)>(loads: P -> bool, list: seq<P>, loaded: set<P>, calls: seq<P>): (r: Pulled<P>)
    ensures loaded <= r.loaded
    ensures r.ok ==> r.loaded == loaded + SetOf(list)
  {
    if list == [] then Pulled(true, loaded, calls)
    else if list[0] in loaded then Pull(loads, list[1..], loaded, calls)
    else if !loads(list[0]) then Pulled(false, loaded, calls + [list[0]])
    else Pull(loads, list[1..], loaded + {list[0]}, calls + [list[0]])
  }

  function Rounds<P(==), Q(!new)>(env: Env<P, Q>, loaded: set<P>, first: bool, q: Q, used: seq<P>,
                    calls: seq<P>): (r: Outcome<P, Q>)
    requires Known(env)
    decreases env.universe - loaded, first
  {
    var list := Collect(env, q);
    var pulled := Pull(env.loads, list, loaded, calls);
    if !pulled.ok then
      Failed(pulled.loaded, pulled.calls, 1)
    else if pulled.loaded == loaded && !first then
      Done(loaded, pulled.calls, 1, q, used, list)
    else
      match env.merge(list)
      case None => Failed(pulled.loaded, pulled.calls, 1)
      case Some(m) =>
        StillToLoad(env, q, loaded, pulled.loaded);
        var r := Rounds(env, pulled.loaded, false, m, list, pulled.calls);
        r.(rounds := r.rounds + 1)
  }

  lemma StillToLoad<P, Q(!new)>(env: Env<P, Q>, q: Q, loaded: set<P>, now: set<P>)
    requires Known(env) && now == loaded + SetOf(Collect(env, q))
    ensures now != loaded ==> env.universe - now < env.universe - loaded
  {
    if now != loaded {
      var p :| p in now && p !in loaded;
      assert p in Collect(env, q);
      assert p in env.universe - loaded && p !in env.universe - now;
    }
  }

  function LoadAll<P(==), Q(!new)>(env: Env<P, Q>, loaded: set<P>): (r: Outcome<P, Q>)
    requires Known(env)
  {
    Rounds(env, loaded, true, env.empty, [], [])
  }

  /***************************** Every provider is loaded at most once *****************************/

  /** The calls so far went to distinct providers, none of which was loaded before. */
  ghost predicate Tidy<P>(before: set<P>, loaded: set<P>, calls: seq<P>) {
    Distinct(calls) && loaded == before + SetOf(calls) && forall p | p in calls :: p !in before
  }

  /** On failure the last call is the one that failed: its provider is not loaded. */
  ghost predicate TidyFailure<P>(before: set<P>, loaded: set<P>, calls: seq<P>) {
    && calls != []
    && Tidy(before, loaded, calls[..|calls| - 1])
    && calls[|calls| - 1] !in loaded
  }

  lemma TidyMore<P>(before: set<P>, loaded: set<P>, calls: seq<P>, p: P)
    requires Tidy(before, loaded, calls) && p !in loaded
    ensures Tidy(before, loaded + {p}, calls + [p])
  {
    assert forall x :: x in calls + [p] <==> x in calls || x == p;
  }

  lemma TidyFailed<P>(before: set<P>, loaded: set<P>, calls: seq<P>, p: P)
    requires Tidy(before, loaded, calls) && p !in loaded
    ensures TidyFailure(before, loaded, calls + [p])
  {
    assert (calls + [p])[..|calls + [p]| - 1] == calls;
  }

  lemma {:induction false} PullIsTidy<P>(loads: P -> bool, list: seq<P>, before: set<P>, loaded: set<P>, calls: seq<P>)
    requires Tidy(before, loaded, calls)
    ensures var r := Pull(loads, list, loaded, calls);
      if r.ok then Tidy(before, r.loaded, r.calls) else TidyFailure(before, r.loaded, r.calls)
    decreases |list|
  {
    if list == [] {
    } else if list[0] in loaded {
      PullIsTidy(loads, list[1..], before, loaded, calls);
    } else if !loads(list[0]) {
      TidyFailed(before, loaded, calls, list[0]);
    } else {
      TidyMore(before, loaded, calls, list[0]);
      PullIsTidy(loads, list[1..], before, loaded + {list[0]}, calls + [list[0]]);
    }
  }

  ghost predicate LoadedOnce<P, Q>(before: set<P>, r: Outcome<P, Q>) {
    Tidy(before, r.loaded, r.calls) || (r.Failed? && TidyFailure(before, r.loaded, r.calls))
  }

  lemma {:induction false} RoundsAreTidy<P, Q(!new)>(env: Env<P, Q>, before: set<P>, loaded: set<P>, first: bool,
                                              q: Q, used: seq<P>, calls: seq<P>)
    requires Known(env) && Tidy(before, loaded, calls)
    ensures LoadedOnce(before, Rounds(env, loaded, first, q, used, calls))
    decreases env.universe - loaded, first
  {
    var list := Collect(env, q);
    var pulled := Pull(env.loads, list, loaded, calls);
    PullIsTidy(env.loads, list, before, loaded, calls);
    if pulled.ok && (pulled.loaded != loaded || first) && env.merge(list).Some? {
      StillToLoad(env, q, loaded, pulled.loaded);
      RoundsAreTidy(env, before, pulled.loaded, false, env.merge(list).value, list, pulled.calls);
    }
  }

  /** However often a provider is offered, Load is called on it at most once, and never on
      one that was loaded before; what is loaded afterwards is what was loaded before and
      the providers whose Load succeeded. */
  lemma EachLoadedOnce<P, Q(!new)>(env: Env<P, Q>, before: set<P>)
    requires Known(env)
    ensures LoadedOnce(before, LoadAll(env, before))
  {
    RoundsAreTidy(env, before, before, true, env.empty, [], []);
  }

  /***************************** The number of rounds *****************************/

  lemma {:induction false} RoundsAreFew<P, Q(!new)>(env: Env<P, Q>, loaded: set<P>, first: bool, q: Q, used: seq<P>,
                                             calls: seq<P>)
    requires Known(env)
    ensures Rounds(env, loaded, first, q, used, calls).rounds <= |env.universe - loaded| + (if first then 2 else 1)
    decreases env.universe - loaded, first
  {
    var list := Collect(env, q);
    var pulled := Pull(env.loads, list, loaded, calls);
    if pulled.ok && (pulled.loaded != loaded || first) && env.merge(list).Some? {
      StillToLoad(env, q, loaded, pulled.loaded);
      RoundsAreFew(env, pulled.loaded, false, env.merge(list).value, list, pulled.calls);
      if pulled.loaded != loaded {
        SmallerSet(env.universe - pulled.loaded, env.universe - loaded);
      }
    }
  }

  /** Loading ends: after at most two rounds more than there are providers to load. */
  lemma LoadEnds<P, Q(!new)>(env: Env<P, Q>, before: set<P>)
    requires Known(env)
    ensures LoadAll(env, before).rounds <= |env.universe - before| + 2
  {
    RoundsAreFew(env, before, true, env.empty, [], []);
  }

  /***************************** What the result is *****************************/

  /** On success: the properties are the merge of the list used, the providers kept are what
      the groups answer for these properties, and all of them are loaded. */
  ghost predicate Settled<P, Q>(env: Env<P, Q>, r: Outcome<P, Q>) {
    r.Done? ==>
      && env.merge(r.used) == Some(r.props)
      && r.providers == Collect(env, r.props)
      && forall p | p in r.providers :: p in r.loaded
  }

  lemma {:induction false} RoundsSettle<P, Q(!new)>(env: Env<P, Q>, loaded: set<P>, first: bool, q: Q, used: seq<P>,
                                             calls: seq<P>)
    requires Known(env) && (first || env.merge(used) == Some(q))
    ensures Settled(env, Rounds(env, loaded, first, q, used, calls))
    decreases env.universe - loaded, first
  {
    var list := Collect(env, q);
    var pulled := Pull(env.loads, list, loaded, calls);
    if pulled.ok && (pulled.loaded != loaded || first) && env.merge(list).Some? {
      StillToLoad(env, q, loaded, pulled.loaded);
      RoundsSettle(env, pulled.loaded, false, env.merge(list).value, list, pulled.calls);
    }
  }

  lemma LoadSettles<P, Q(!new)>(env: Env<P, Q>, before: set<P>)
    requires Known(env)
    ensures Settled(env, LoadAll(env, before))
  {
    RoundsSettle(env, before, true, env.empty, [], []);
  }

  /***************************** The chain of answers *****************************/

  /** The properties round `n` starts with if nothing fails, from the groups alone. */
  function PropsAt<P, Q>(env: Env<P, Q>, n: nat): Option<Q> {
    if n == 0 then Some(env.empty)
    else
      match PropsAt(env, n - 1)
      case None => None
      case Some(q) => env.merge(Collect(env, q))
  }

  /** What the groups answer in round `n`. */
  function Answer<P, Q>(env: Env<P, Q>, n: nat): seq<P> {
    match PropsAt(env, n)
    case None => []
    case Some(q) => Collect(env, q)
  }

  /** The properties and the answers round by round. */
  datatype Chain<!P, !Q> = Chain(props: nat -> Option<Q>, answer: nat -> seq<P>)

  ghost function ChainOf<P, Q>(env: Env<P, Q>): Chain<P, Q> {
    Chain(n => PropsAt(env, n), n => Answer(env, n))
  }

  /** Round `n` of the chain, and what it hands to the next. */
  ghost predicate Linked<P, Q>(env: Env<P, Q>, ch: Chain<P, Q>, n: nat) {
    match ch.props(n)
    case None => ch.props(n + 1) == None
    case Some(q) => ch.answer(n) == Collect(env, q) && ch.props(n + 1) == env.merge(Collect(env, q))
  }

  ghost predicate IsChain<P, Q>(env: Env<P, Q>, ch: Chain<P, Q>) {
    ch.props(0) == Some(env.empty) && forall n: nat :: Linked(env, ch, n)
  }

  lemma ChainIsChain<P, Q>(env: Env<P, Q>)
    ensures IsChain(env, ChainOf(env))
  {
  }

  /** What is loaded before round `n`. */
  ghost function SeenBy<P, Q>(ch: Chain<P, Q>, before: set<P>, n: nat): set<P> {
    if n == 0 then before else SeenBy(ch, before, n - 1) + SetOf(ch.answer(n - 1))
  }

  /** Round `n + 1` brings nothing that is not loaded. */
  ghost predicate Quiet<P, Q>(ch: Chain<P, Q>, before: set<P>, n: nat) {
    ch.props(n + 1).Some? && SetOf(ch.answer(n + 1)) <= SeenBy(ch, before, n + 1)
  }

  /** Round `n` is the last one that is merged: the next one is the first quiet one, and
      everything that has to be loaded until then can be. */
  ghost predicate LastMerged<P, Q>(env: Env<P, Q>, ch: Chain<P, Q>, before: set<P>, n: nat) {
    && Quiet(ch, before, n) && (forall m: nat | m < n :: !Quiet(ch, before, m))
    && forall p | p in SeenBy(ch, before, n + 1) && p !in before :: env.loads(p)
  }

  lemma {:induction false} SeenGrows<P, Q>(ch: Chain<P, Q>, before: set<P>, m: nat, n: nat)
    requires m <= n
    ensures before <= SeenBy(ch, before, m) <= SeenBy(ch, before, n)
    decreases n
  {
    if m < n {
      SeenGrows(ch, before, m, n - 1);
    } else if n > 0 {
      SeenGrows(ch, before, n - 1, n - 1);
    }
  }

  lemma {:induction false} FailureStays<P, Q>(env: Env<P, Q>, ch: Chain<P, Q>, m: nat, n: nat)
    requires IsChain(env, ch) && m <= n && ch.props(m).None?
    ensures ch.props(n).None?
  {
    if m < n {
      FailureStays(env, ch, m, n - 1);
      assert Linked(env, ch, n - 1);
    }
  }

  lemma {:induction false} PullExactly<P>(loads: P -> bool, list: seq<P>, loaded: set<P>, calls: seq<P>)
    ensures Pull(loads, list, loaded, calls).ok <==> forall p | p in list && p !in loaded :: loads(p)
    decreases |list|
  {
    if list != [] {
      if list[0] in loaded {
        PullExactly(loads, list[1..], loaded, calls);
      } else if loads(list[0]) {
        PullExactly(loads, list[1..], loaded + {list[0]}, calls + [list[0]]);
      } else {
        assert list[0] in list;
      }
    }
  }

  /** The outcome of rounds `i` and later is read off the chain. */
  ghost predicate ReadsOff<P(!new), Q(!new)>(env: Env<P, Q>, ch: Chain<P, Q>, before: set<P>, i: nat, r: Outcome<P,
                             Q>) {
    && (forall n: nat | i <= n + 1 && LastMerged(env, ch, before, n) :: r.Done?)
    && (r.Done? ==> exists n: nat :: i <= n + 1 && LastMerged(env, ch, before, n) && IsAt(ch, n, r))
  }

  /** The outcome of merging in round `n` last. */
  ghost predicate IsAt<P, Q>(ch: Chain<P, Q>, n: nat, r: Outcome<P, Q>) {
    r.Done? && ch.props(n + 1) == Some(r.props) && r.used == ch.answer(n) && r.providers == ch.answer(n + 1)
  }

  ghost predicate AtRound<P, Q>(env: Env<P, Q>, ch: Chain<P, Q>, before: set<P>, i: nat, loaded: set<P>, q: Q,
                                used: seq<P>) {
    && loaded == SeenBy(ch, before, i) && ch.props(i) == Some(q) && ch.answer(i) == Collect(env, q)
    && ch.props(i + 1) == env.merge(Collect(env, q))
    && (i > 0 ==> used == ch.answer(i - 1))
    && (forall m: nat | m + 1 < i :: !Quiet(ch, before, m))
    && forall p | p in loaded && p !in before :: env.loads(p)
  }

  /** The round is the first quiet one. */
  lemma EndsHere<P(!new), Q(!new)>(env: Env<P, Q>, ch: Chain<P, Q>, before: set<P>, i: nat, loaded: set<P>, q: Q,
                   used: seq<P>, r: Outcome<P, Q>)
    requires i > 0 && AtRound(env, ch, before, i, loaded, q, used) && forall p | p in Collect(env, q) :: p in loaded
    requires r.Done? && r.props == q && r.used == used && r.providers == Collect(env, q)
    ensures ReadsOff(env, ch, before, i, r)
  {
    var n := i - 1;
    assert n + 1 == i;
    assert Quiet(ch, before, n);
    assert LastMerged(env, ch, before, n) && IsAt(ch, n, r);
  }

  /** A provider that cannot be loaded ends the chain. */
  lemma CannotLoad<P(!new), Q(!new)>(env: Env<P, Q>, ch: Chain<P, Q>, before: set<P>, i: nat, loaded: set<P>, q: Q,
                     used: seq<P>, r: Outcome<P, Q>)
    requires AtRound(env, ch, before, i, loaded, q, used) && r.Failed?
    requires exists p :: p in Collect(env, q) && p !in loaded && !env.loads(p)
    ensures ReadsOff(env, ch, before, i, r)
  {
    var p :| p in Collect(env, q) && p !in loaded && !env.loads(p);
    assert p in SetOf(ch.answer(i)) && p in SeenBy(ch, before, i + 1);
    SeenGrows(ch, before, 0, i);
    forall n: nat | i <= n + 1
      ensures !LastMerged(env, ch, before, n)
    {
      if n + 1 > i {
        SeenGrows(ch, before, i + 1, n + 1);
      }
    }
  }

  lemma CannotMerge<P(!new), Q(!new)>(env: Env<P, Q>, ch: Chain<P, Q>, before: set<P>, i: nat, loaded: set<P>, q: Q,
                      used: seq<P>, r: Outcome<P, Q>)
    requires IsChain(env, ch) && AtRound(env, ch, before, i, loaded, q, used) && r.Failed?
    requires env.merge(Collect(env, q)).None?
    requires i == 0 || !Quiet(ch, before, i - 1)
    ensures ReadsOff(env, ch, before, i, r)
  {
    forall n: nat | i <= n + 1
      ensures !LastMerged(env, ch, before, n)
    {
      if n + 1 > i {
        FailureStays(env, ch, i + 1, n + 1);
      }
    }
  }

  lemma GoesOn<P(!new), Q(!new)>(env: Env<P, Q>, ch: Chain<P, Q>, before: set<P>, i: nat, r: Outcome<P, Q>,
                 r': Outcome<P, Q>)
    requires i == 0 || !Quiet(ch, before, i - 1)
    requires ReadsOff(env, ch, before, i + 1, r) && r' == r.(rounds := r'.rounds)
    ensures ReadsOff(env, ch, before, i, r')
  {
    if r.Done? {
      var n: nat :| i + 1 <= n + 1 && LastMerged(env, ch, before, n) && IsAt(ch, n, r);
      assert i <= n + 1 && IsAt(ch, n, r');
    }
  }

  lemma {:induction false} RoundsReadOff<P(!new), Q(!new)>(env: Env<P, Q>, ch: Chain<P, Q>, before: set<P>, i: nat,
                                           loaded: set<P>, q: Q, used: seq<P>, calls: seq<P>)
    requires Known(env) && IsChain(env, ch) && AtRound(env, ch, before, i, loaded, q, used)
    ensures ReadsOff(env, ch, before, i, Rounds(env, loaded, i == 0, q, used, calls))
    decreases env.universe - loaded, i == 0
  {
    var list, r := Collect(env, q), Rounds(env, loaded, i == 0, q, used, calls);
    var pulled := Pull(env.loads, list, loaded, calls);
    PullExactly(env.loads, list, loaded, calls);
    if !pulled.ok {
      CannotLoad(env, ch, before, i, loaded, q, used, r);
    } else if pulled.loaded == loaded && i > 0 {
      assert forall p | p in list :: p in pulled.loaded;
      EndsHere(env, ch, before, i, loaded, q, used, r);
    } else {
      NotQuiet(ch, before, i, list, pulled.loaded);
      if env.merge(list).None? {
        CannotMerge(env, ch, before, i, loaded, q, used, r);
      } else {
        StillToLoad(env, q, loaded, pulled.loaded);
        var m := env.merge(list).value;
        NextRound(env, ch, before, i, loaded, q, used, m, pulled.loaded);
        RoundsReadOff(env, ch, before, i + 1, pulled.loaded, m, list, pulled.calls);
        GoesOn(env, ch, before, i, Rounds(env, pulled.loaded, false, m, list, pulled.calls), r);
      }
    }
  }

  lemma NextRound<P(!new), Q(!new)>(env: Env<P, Q>, ch: Chain<P, Q>, before: set<P>, i: nat, loaded: set<P>, q: Q,
                    used: seq<P>, m: Q, now: set<P>)
    requires IsChain(env, ch) && AtRound(env, ch, before, i, loaded, q, used) && env.merge(Collect(env, q)) == Some(m)
    requires now == loaded + SetOf(Collect(env, q)) && forall p | p in Collect(env, q) && p !in loaded :: env.loads(p)
    requires i == 0 || !Quiet(ch, before, i - 1)
    ensures AtRound(env, ch, before, i + 1, now, m, Collect(env, q))
  {
    assert Linked(env, ch, i + 1);
  }

  lemma NotQuiet<P, Q>(ch: Chain<P, Q>, before: set<P>, i: nat, list: seq<P>, now: set<P>)
    requires ch.answer(i) == list && now == SeenBy(ch, before, i) + SetOf(list)
    requires i > 0 ==> now != SeenBy(ch, before, i)
    ensures i == 0 || !Quiet(ch, before, i - 1)
  {
    if i > 0 {
      assert i - 1 + 1 == i;
      var p :| p in now && p !in SeenBy(ch, before, i);
      assert p in SetOf(ch.answer(i));
    }
  }

  /** The outcome is that of the round merged last, if there is one. */
  ghost predicate Decided<P(!new), Q(!new)>(env: Env<P, Q>, ch: Chain<P, Q>, before: set<P>, r: Outcome<P, Q>) {
    && (r.Done? <==> exists n: nat :: LastMerged(env, ch, before, n))
    && forall n: nat | LastMerged(env, ch, before, n) ::
         && IsAt(ch, n, r)
         && (r.used == r.providers <==> ch.answer(n + 1) == ch.answer(n))
         && (env.merge(r.providers) == Some(r.props) <==> ch.props(n + 2) == ch.props(n + 1))
  }

  lemma DecidedByChain<P(!new), Q(!new)>(env: Env<P, Q>, ch: Chain<P, Q>, before: set<P>, r: Outcome<P, Q>)
    requires IsChain(env, ch) && ReadsOff(env, ch, before, 0, r)
    ensures Decided(env, ch, before, r)
  {
    forall n: nat | LastMerged(env, ch, before, n)
      ensures IsAt(ch, n, r)
      ensures env.merge(r.providers) == Some(r.props) <==> ch.props(n + 2) == ch.props(n + 1)
    {
      assert 0 <= n + 1 && LastMerged(env, ch, before, n);
      var m: nat :| 0 <= m + 1 && LastMerged(env, ch, before, m) && IsAt(ch, m, r);
      assert m == n;
      assert Linked(env, ch, n + 1);
    }
  }

  /** Whether loading succeeds, and what it ends with, is decided by the chain of answers.
      The properties are the merge of the providers that are kept exactly if one more merge
      would not change them, and the list merged is the list kept exactly if the last two
      answers are the same. */
  lemma ReflectsExactly<P(!new), Q(!new)>(env: Env<P, Q>, before: set<P>)
    requires Known(env)
    ensures Decided(env, ChainOf(env), before, LoadAll(env, before))
  {
    ChainIsChain(env);
    ReflectsChain(env, ChainOf(env), before);
  }

  lemma ReflectsChain<P(!new), Q(!new)>(env: Env<P, Q>, ch: Chain<P, Q>, before: set<P>)
    requires Known(env) && IsChain(env, ch)
    ensures Decided(env, ch, before, LoadAll(env, before))
  {
    assert Linked(env, ch, 0);
    RoundsReadOff(env, ch, before, 0, before, env.empty, [], []);
    DecidedByChain(env, ch, before, LoadAll(env, before));
  }

  /***************************** Groups that only reveal *****************************/

  /** Merging what was collected only reveals further providers. */
  ghost predicate OnlyReveals<P, Q(!new)>(env: Env<P, Q>) {
    forall q: Q | env.merge(Collect(env, q)).Some? ::
      forall p | p in Collect(env, q) :: p in Collect(env, env.merge(Collect(env, q)).value)
  }

  /** The order of precedence decides how the same providers are listed. */
  ghost predicate Arranged<P, Q(!new)>(env: Env<P, Q>) {
    forall q: Q, m: Q | SetOf(Collect(env, q)) == SetOf(Collect(env, m)) :: Collect(env, q) == Collect(env, m)
  }

  lemma {:induction false} AnswersGrow<P, Q(!new)>(env: Env<P, Q>, ch: Chain<P, Q>, n: nat)
    requires OnlyReveals(env) && IsChain(env, ch) && ch.props(n + 1).Some?
    ensures SeenBy(ch, {}, n + 1) <= SetOf(ch.answer(n)) <= SetOf(ch.answer(n + 1))
  {
    assert Linked(env, ch, n) && Linked(env, ch, n + 1);
    if n > 0 {
      AnswersGrow(env, ch, n - 1);
    }
  }

  /** With groups that only reveal, a forced load, which starts with nothing loaded, always
      ends with the merge of the providers that are kept. */
  lemma ForcedReflects<P(!new), Q(!new)>(env: Env<P, Q>)
    requires Known(env) && OnlyReveals(env) && Arranged(env)
    ensures var r := LoadAll(env, {}); r.Done? ==> r.used == r.providers && env.merge(r.providers) == Some(r.props)
  {
    ChainIsChain(env);
    LoadSettles(env, {});
    ForcedOnChain(env, ChainOf(env));
  }

  lemma ForcedOnChain<P(!new), Q(!new)>(env: Env<P, Q>, ch: Chain<P, Q>)
    requires Known(env) && OnlyReveals(env) && Arranged(env) && IsChain(env, ch)
    ensures var r := LoadAll(env, {}); r.Done? ==> r.used == r.providers
  {
    ReflectsChain(env, ch, {});
    if LoadAll(env, {}).Done? {
      var n: nat :| LastMerged(env, ch, {}, n);
      SameAnswers(env, ch, n);
    }
  }

  lemma SameAnswers<P, Q(!new)>(env: Env<P, Q>, ch: Chain<P, Q>, n: nat)
    requires OnlyReveals(env) && Arranged(env) && IsChain(env, ch) && Quiet(ch, {}, n)
    ensures ch.answer(n + 1) == ch.answer(n)
  {
    AnswersGrow(env, ch, n);
    assert Linked(env, ch, n) && Linked(env, ch, n + 1);
    assert SetOf(ch.answer(n)) == SetOf(ch.answer(n + 1));
  }

  lemma {:induction false} PullOfLoaded<P>(loads: P -> bool, list: seq<P>, loaded: set<P>, calls: seq<P>)
    requires forall p | p in list :: p in loaded
    ensures Pull(loads, list, loaded, calls) == Pulled(true, loaded, calls)
    decreases |list|
  {
    if list != [] {
      PullOfLoaded(loads, list[1..], loaded, calls);
    }
  }

  /** A first round with one provider, and a second in which nothing is left to load. */
  lemma TwoRounds<P, Q(!new)>(env: Env<P, Q>, before: set<P>, a: P, q: Q)
    requires Known(env) && a !in before && env.loads(a)
    requires Collect(env, env.empty) == [a] && env.merge([a]) == Some(q)
    requires forall p | p in Collect(env, q) :: p in before || p == a
    ensures LoadAll(env, before) == Done(before + {a}, [a], 2, q, [a], Collect(env, q))
  {
    assert [] + [a] == [a] && [a][1..] == [];
    assert Pull(env.loads, [a], before, []) == Pulled(true, before + {a}, [a]);
    PullOfLoaded(env.loads, Collect(env, q), before + {a}, [a]);
    assert Rounds(env, before + {a}, false, q, [a], [a]) == Done(before + {a}, [a], 1, q, [a], Collect(env, q));
  }

  /** A provider that was loaded before and is offered only once another one is merged: its
      settings are left out although it is kept. */
  lemma PreloadedIsLeftOut<P, Q(!new)>(env: Env<P, Q>, a: P, b: P, q: Q)
    requires Known(env) && a != b && env.loads(a)
    requires Collect(env, env.empty) == [a] && env.merge([a]) == Some(q) && Collect(env, q) == [a, b]
    ensures var r := LoadAll(env, {b}); r.Done? && r.props == q && r.used == [a] && r.providers == [a, b]
  {
    TwoRounds(env, {b}, a, q);
  }

  /** A provider that is withdrawn once it is merged: its settings stay although it is not
      kept, even in a forced load. */
  lemma WithdrawnStays<P, Q(!new)>(env: Env<P, Q>, a: P, q: Q)
    requires Known(env) && env.loads(a)
    requires Collect(env, env.empty) == [a] && env.merge([a]) == Some(q) && Collect(env, q) == []
    ensures var r := LoadAll(env, {}); r.Done? && r.props == q && r.used == [a] && r.providers == []
  {
    TwoRounds(env, {}, a, q);
  }

  /***************************** The loops *****************************/

  lemma FlattenFrom<P, Q>(groups: seq<Q -> seq<P>>, q: Q, i: nat)
    requires i < |groups|
    ensures Flatten(groups[i..], q) == groups[i](q) + Flatten(groups[i + 1..], q)
  {
    assert groups[i..][1..] == groups[i + 1..];
  }

  /** The unloaded providers of one group, in order, in front of those still to come. */
  method PullGroup<P(==)>(loads: P -> bool, group: seq<P>, ghost rest: seq<P>, loaded: set<P>,
                     calls: seq<P>) returns (r: Pulled<P>, isNew: bool)
    ensures r.ok ==> Pull(loads, group + rest, loaded, calls) == Pull(loads, rest, r.loaded, r.calls)
    ensures !r.ok ==> Pull(loads, group + rest, loaded, calls) == r
    ensures loaded <= r.loaded && (r.ok ==> (isNew <==> r.loaded != loaded))
  {
    r, isNew := Pulled(true, loaded, calls), false;
    var i := 0;
    while i < |group|
      invariant 0 <= i <= |group| && r.ok && loaded <= r.loaded && (isNew <==> r.loaded != loaded)
      invariant Pull(loads, group + rest, loaded, calls) == Pull(loads, group[i..] + rest, r.loaded, r.calls)
    {
      var p := group[i];
      assert (group[i..] + rest)[0] == p && (group[i..] + rest)[1..] == group[i + 1..] + rest;
      if p !in r.loaded {
        if !loads(p) {
          r := Pulled(false, r.loaded, r.calls + [p]);
          return;
        }
        r, isNew := Pulled(true, r.loaded + {p}, r.calls + [p]), true;
      }
      i := i + 1;
    }
    assert group[i..] + rest == rest;
  }

  /** One round: every group is asked and what it brings is loaded. */
  method CollectRound<P(==), Q>(env: Env<P, Q>, q: Q, loaded: set<P>, calls: seq<P>) returns (r: Pulled<P>,
                        providers: seq<P>, hasNew: bool)
    ensures r == Pull(env.loads, Collect(env, q), loaded, calls)
    ensures r.ok ==> providers == Collect(env, q) && (hasNew <==> r.loaded != loaded)
  {
    r, providers, hasNew := Pulled(true, loaded, calls), [], false;
    var i := 0;
    assert env.groups[0..] == env.groups;
    while i < |env.groups|
      invariant 0 <= i <= |env.groups| && r.ok && loaded <= r.loaded && (hasNew <==> r.loaded != loaded)
      invariant Pull(env.loads, Collect(env, q), loaded, calls) == Pull(env.loads, Flatten(env.groups[i..], q), r.loaded, r.calls)
      invariant providers + Flatten(env.groups[i..], q) == Collect(env, q)
    {
      FlattenFrom(env.groups, q, i);
      var group := env.groups[i](q);
      providers := providers + group;
      var isNew;
      r, isNew := PullGroup(env.loads, group, Flatten(env.groups[i + 1..], q), r.loaded, r.calls);
      if !r.ok {
        return;
      }
      hasNew := hasNew || isNew;
      i := i + 1;
    }
    assert env.groups[i..] == [];
  }

  ghost function Later<P, Q>(n: nat, r: Outcome<P, Q>): Outcome<P, Q> {
    r.(rounds := n + r.rounds)
  }

  /** Rounds until one brings nothing new. */
  method RunRounds<P(==), Q(!new)>(env: Env<P, Q>, before: set<P>) returns (r: Outcome<P, Q>)
    requires Known(env)
    ensures r == LoadAll(env, before)
  {
    var loaded, q, used, calls, rounds := before, env.empty, [], [], 0;
    var isFirst := true;
    while true
      invariant LoadAll(env, before) == Later(rounds, Rounds(env, loaded, isFirst, q, used, calls))
      decreases env.universe - loaded, isFirst
    {
      var pulled, providers, hasNew := CollectRound(env, q, loaded, calls);
      rounds := rounds + 1;
      if !pulled.ok {
        return Failed(pulled.loaded, pulled.calls, rounds);
      }
      if !hasNew && !isFirst {
        return Done(loaded, pulled.calls, rounds, q, used, providers);
      }
      var merged := env.merge(providers);
      if merged.None? {
        return Failed(pulled.loaded, pulled.calls, rounds);
      }
      StillToLoad(env, q, loaded, pulled.loaded);
      loaded, q, used, calls, isFirst := pulled.loaded, merged.value, providers, pulled.calls, false;
    }
  }

  method HighestFirst<P>(s: seq<P>) returns (r: seq<P>)
    ensures r == Reversed(s)
  {
    r := s;
    var i := 0;
    while i < |s|
      invariant 0 <= i <= |s| == |r|
      invariant forall k | 0 <= k < i :: r[|s| - 1 - k] == s[k]
    {
      r := r[|s| - i - 1 := s[i]];
      i := i + 1;
    }
    assert forall k | 0 <= k < |s| :: r[k] == s[|s| - 1 - k] by {
      assert forall k | 0 <= k < |s| :: r[k] == r[|s| - 1 - (|s| - 1 - k)];
    }
  }

  /***************************** Precedence *****************************/

  /** A group as it is registered: its order, and what it answers, in no particular order. */
  datatype Group<!P, !Q> = Group(order: Key, ask: Q -> seq<P>)

  /** What a load depends on besides the groups; `profiles` reads the profiles off the
      properties. */
  datatype Source<!P, !Q> = Source(
    precedence: P -> Key,
    loads: P -> bool,
    merge: seq<P> -> Option<Q>,
    resolve: Q -> Option<Q>,
    profiles: Q -> seq<string>,
    empty: Q,
    universe: set<P>)

  /** Lowest precedence first: `OrderedFirstCompareReverse`. */
  function GroupLe<P, Q>(): (Group<P, Q>, Group<P, Q>) -> bool {
    (a: Group<P, Q>, b: Group<P, Q>) => !Less(a.order, b.order)
  }

  function SortGroups<P(!new), Q(!new)>(groups: seq<Group<P, Q>>): seq<Group<P, Q>> {
    StableSort(groups, GroupLe())
  }

  function SortProviders<P(!new)>(precedence: P -> Key, list: seq<P>): seq<P> {
    StableSort(list, (a: P, b: P) => !Less(precedence(a), precedence(b)))
  }

  function AskSorted<P(!new), Q>(precedence: P -> Key, g: Group<P, Q>): Q -> seq<P> {
    (q: Q) => SortProviders(precedence, g.ask(q))
  }

  function Asks<P(!new), Q>(precedence: P -> Key, groups: seq<Group<P, Q>>): seq<Q -> seq<P>> {
    if groups == [] then [] else [AskSorted(precedence, groups[0])] + Asks(precedence, groups[1..])
  }

  function EnvOf<P(!new), Q(!new)>(src: Source<P, Q>, groups: seq<Group<P, Q>>): Env<P, Q> {
    Env(Asks(src.precedence, SortGroups(groups)), src.loads, src.merge, src.resolve, src.empty, src.universe)
  }

  /** Every provider of a group is listed before those of the groups after it, and does not
      outrank any of them. */
  ghost predicate Apart<P, Q>(precedence: P -> Key, groups: seq<Group<P, Q>>, q: Q) {
    forall i, j | 0 <= i < j < |groups| :: Outranked(precedence, groups[i].ask(q), groups[j].ask(q))
  }

  ghost predicate Outranked<P>(precedence: P -> Key, low: seq<P>, high: seq<P>) {
    forall p, r | p in low && r in high :: !Less(precedence(p), precedence(r))
  }

  ghost predicate Ascending<P>(precedence: P -> Key, list: seq<P>) {
    forall i, j | 0 <= i < j < |list| :: !Less(precedence(list[i]), precedence(list[j]))
  }

  /** Priority ordered providers first, then ordered ones, both by number, then the rest. */
  ghost predicate Descending<P>(precedence: P -> Key, list: seq<P>) {
    ByClass(list, precedence)
  }

  lemma {:induction false} FlattenHas<P(!new), Q>(precedence: P -> Key, groups: seq<Group<P, Q>>, q: Q, p: P)
    ensures p in Flatten(Asks(precedence, groups), q) <==> exists i :: 0 <= i < |groups| && p in groups[i].ask(q)
  {
    if groups != [] {
      ConsTail(AskSorted(precedence, groups[0]), Asks(precedence, groups[1..]));
      FlattenHas(precedence, groups[1..], q, p);
      if i :| 0 <= i < |groups| && p in groups[i].ask(q) && i > 0 {
        assert groups[1..][i - 1] == groups[i];
      }
    }
  }

  lemma ProvidersSorted<P(!new)>(precedence: P -> Key, list: seq<P>)
    ensures Ascending(precedence, SortProviders(precedence, list))
    ensures forall p :: p in SortProviders(precedence, list) <==> p in list
  {
    var le := (a: P, b: P) => !Less(precedence(a), precedence(b));
    forall a, b, c
      ensures le(a, b) || le(b, a)
      ensures le(a, b) && le(b, c) ==> le(a, c)
    {
      LessIsTotal(precedence(a), precedence(b), precedence(c));
      LessIsTotal(precedence(c), precedence(b), precedence(a));
    }
    StableSortSorts(list, le);
  }

  /** Providers of a group with the same precedence stay as the group answered them. */
  lemma ProvidersStay<P(!new)>(precedence: P -> Key, list: seq<P>, k: Key)
    ensures multiset(SortProviders(precedence, list)) == multiset(list)
    ensures OfKey(SortProviders(precedence, list), precedence, k) == OfKey(list, precedence, k)
  {
    var le := (a: P, b: P) => !Less(precedence(a), precedence(b));
    forall a, b, c
      ensures le(a, b) || le(b, a)
      ensures le(a, b) && le(b, c) ==> le(a, c)
      ensures Same(a, b, le) <==> precedence(a) == precedence(b)
    {
      LessIsTotal(precedence(a), precedence(b), precedence(c));
      LessIsTotal(precedence(c), precedence(b), precedence(a));
    }
    SortKeepsOfKey(list, precedence, le, k);
  }

  lemma ConcatAscending<P>(precedence: P -> Key, a: seq<P>, b: seq<P>)
    ensures Ascending(precedence, a + b) <==>
            Ascending(precedence, a) && Ascending(precedence, b) && Outranked(precedence, a, b)
  {
    var c := a + b;
    if Ascending(precedence, c) {
      assert forall i | 0 <= i < |a| :: a[i] == c[i];
      forall i, j | 0 <= i < j < |b|
        ensures !Less(precedence(b[i]), precedence(b[j]))
      {
        assert b[i] == c[|a| + i] && b[j] == c[|a| + j];
      }
      forall p, r | p in a && r in b
        ensures !Less(precedence(p), precedence(r))
      {
        var i :| 0 <= i < |a| && a[i] == p;
        var j :| 0 <= j < |b| && b[j] == r;
        assert c[i] == p && c[|a| + j] == r;
      }
    }
  }

  lemma {:induction false} FlattenAscending<P(!new), Q>(precedence: P -> Key, groups: seq<Group<P, Q>>, q: Q)
    ensures Ascending(precedence, Flatten(Asks(precedence, groups), q)) <==> Apart(precedence, groups, q)
  {
    if groups != [] {
      var first, rest := groups[0].ask(q), Flatten(Asks(precedence, groups[1..]), q);
      ConsTail(AskSorted(precedence, groups[0]), Asks(precedence, groups[1..]));
      FlattenAscending(precedence, groups[1..], q);
      ProvidersSorted(precedence, first);
      ConcatAscending(precedence, SortProviders(precedence, first), rest);
      FirstOutranked(precedence, groups, q);
      ApartCons(precedence, groups, q);
    }
  }

  ghost predicate OutrankedByAll<P, Q>(precedence: P -> Key, low: seq<P>, groups: seq<Group<P, Q>>, q: Q) {
    forall j | 0 <= j < |groups| :: Outranked(precedence, low, groups[j].ask(q))
  }

  lemma ApartCons<P, Q>(precedence: P -> Key, groups: seq<Group<P, Q>>, q: Q)
    requires groups != []
    ensures Apart(precedence, groups, q) <==>
            Apart(precedence, groups[1..], q) && OutrankedByAll(precedence, groups[0].ask(q), groups[1..], q)
  {
    var rest := groups[1..];
    if Apart(precedence, groups, q) {
      assert forall j | 0 <= j < |rest| :: rest[j] == groups[j + 1];
    } else {
      var i, j :| 0 <= i < j < |groups| && !Outranked(precedence, groups[i].ask(q), groups[j].ask(q));
      assert rest[j - 1] == groups[j] && (i > 0 ==> rest[i - 1] == groups[i]);
    }
  }

  lemma FirstOutranked<P(!new), Q>(precedence: P -> Key, groups: seq<Group<P, Q>>, q: Q)
    requires groups != []
    ensures var first, rest := groups[0].ask(q), groups[1..];
            Outranked(precedence, SortProviders(precedence, first), Flatten(Asks(precedence, rest), q)) <==>
            OutrankedByAll(precedence, first, rest, q)
  {
    var first, rest := groups[0].ask(q), groups[1..];
    ProvidersSorted(precedence, first);
    forall r
      ensures r in Flatten(Asks(precedence, rest), q) <==> exists j :: 0 <= j < |rest| && r in rest[j].ask(q)
    {
      FlattenHas(precedence, rest, q, r);
    }
  }

  lemma ReversedDescends<P>(precedence: P -> Key, list: seq<P>)
    ensures Descending(precedence, Reversed(list)) <==> Ascending(precedence, list)
  {
    var r := Reversed(list);
    InOrderIsByClass(r, precedence);
    if InOrder(r, precedence) {
      forall i, j | 0 <= i < j < |list|
        ensures !Less(precedence(list[i]), precedence(list[j]))
      {
        assert r[|list| - 1 - i] == list[i] && r[|list| - 1 - j] == list[j];
      }
    }
  }

  function GroupKey<P, Q>(): Group<P, Q> -> Key {
    (g: Group<P, Q>) => g.order
  }

  lemma GroupLeIsPreorder<P(!new), Q(!new)>()
    ensures TotalPreorder(GroupLe<P, Q>())
    ensures forall a: Group<P, Q>, b: Group<P, Q> :: Same(a, b, GroupLe()) <==> a.order == b.order
  {
    forall a: Group<P, Q>, b: Group<P, Q>, c: Group<P, Q>
      ensures GroupLe()(a, b) || GroupLe()(b, a)
      ensures GroupLe()(a, b) && GroupLe()(b, c) ==> GroupLe()(a, c)
      ensures Same(a, b, GroupLe()) <==> a.order == b.order
    {
      LessIsTotal(a.order, b.order, c.order);
      LessIsTotal(c.order, b.order, a.order);
    }
  }

  /** The groups in the order in which they are asked: those without order first, priority
      ordered ones last, and both kinds with an order by decreasing number. Sorting them
      again in a later load changes nothing. */
  lemma GroupsSorted<P(!new), Q(!new)>(groups: seq<Group<P, Q>>)
    ensures var sorted := SortGroups(groups);
            && multiset(sorted) == multiset(groups) && SortGroups(sorted) == sorted
            && ByClass(Reversed(sorted), GroupKey())
  {
    GroupLeIsPreorder<P, Q>();
    StableSortSorts(groups, GroupLe());
    SortOfSorted(SortGroups(groups), GroupLe());
    assert Ascending(GroupKey(), SortGroups(groups));
    ReversedDescends(GroupKey(), SortGroups(groups));
  }

  /** Groups with the same order are asked as they were registered. */
  lemma GroupsStay<P(!new), Q(!new)>(groups: seq<Group<P, Q>>, k: Key)
    ensures OfKey(SortGroups(groups), GroupKey(), k) == OfKey(groups, GroupKey(), k)
  {
    GroupLeIsPreorder<P, Q>();
    SortKeepsOfKey(groups, GroupKey(), GroupLe(), k);
  }

  /** The list that is kept has the highest precedence first, throughout and not only within
      a group, exactly if no provider outranks one of a group that is asked later. */
  lemma KeptInOrder<P(!new), Q(!new)>(src: Source<P, Q>, groups: seq<Group<P, Q>>, q: Q)
    ensures Descending(src.precedence, Reversed(Collect(EnvOf(src, groups), q))) <==>
            Apart(src.precedence, SortGroups(groups), q)
  {
    FlattenAscending(src.precedence, SortGroups(groups), q);
    ReversedDescends(src.precedence, Collect(EnvOf(src, groups), q));
  }

  /** A group that is asked first, because its order is lower, with a provider that outranks
      the one of the other group: it is stored behind that one. */
  lemma KeptOutOfOrder<P(!new), Q(!new)>(src: Source<P, Q>, g: Group<P, Q>, h: Group<P, Q>, q: Q, a: P, b: P)
    requires Less(g.order, h.order) && g.ask(q) == [b] && h.ask(q) == [a]
    requires Less(src.precedence(a), src.precedence(b))
    ensures SortGroups([g, h]) == [h, g]
    ensures Reversed(Collect(EnvOf(src, [g, h]), q)) == [b, a]
    ensures !Descending(src.precedence, [b, a])
  {
    TwoSorted(g, h);
    FlattenTwo(src.precedence, h, g, q);
    OneSorted(src.precedence, a);
    OneSorted(src.precedence, b);
    Swapped(a, b);
    NotDescending(src.precedence, a, b);
  }

  lemma Swapped<P>(a: P, b: P)
    ensures Reversed([a] + [b]) == [b, a]
  {
  }

  lemma NotDescending<P>(precedence: P -> Key, a: P, b: P)
    requires Less(precedence(a), precedence(b))
    ensures !Descending(precedence, [b, a])
  {
    assert [b, a][0] == b && [b, a][1] == a;
    InOrderIsByClass([b, a], precedence);
  }

  lemma FlattenFirst<P(!new), Q>(precedence: P -> Key, groups: seq<Group<P, Q>>, q: Q)
    requires groups != []
    ensures Flatten(Asks(precedence, groups), q) ==
            SortProviders(precedence, groups[0].ask(q)) + Flatten(Asks(precedence, groups[1..]), q)
  {
    ConsTail(AskSorted(precedence, groups[0]), Asks(precedence, groups[1..]));
  }

  lemma FlattenTwo<P(!new), Q>(precedence: P -> Key, g: Group<P, Q>, h: Group<P, Q>, q: Q)
    ensures Flatten(Asks(precedence, [g, h]), q) ==
            SortProviders(precedence, g.ask(q)) + SortProviders(precedence, h.ask(q))
  {
    assert [g, h][1..] == [h] && [h][1..] == [];
    FlattenFirst(precedence, [g, h], q);
    FlattenFirst(precedence, [h], q);
    EmptyRight(SortProviders(precedence, h.ask(q)));
  }

  lemma TwoSorted<P(!new), Q(!new)>(g: Group<P, Q>, h: Group<P, Q>)
    requires Less(g.order, h.order)
    ensures SortGroups([g, h]) == [h, g]
  {
    var le := GroupLe<P, Q>();
    assert [g, h][1..] == [h] && [h][1..] == [];
    assert StableSort([h], le) == Insert(h, [], le) == [h];
    assert StableSort([g, h], le) == Insert(g, [h], le) == [h] + Insert(g, [], le);
  }

  lemma OneSorted<P(!new)>(precedence: P -> Key, p: P)
    ensures SortProviders(precedence, [p]) == [p]
  {
    assert [p][1..] == [];
  }

  /***************************** The configuration *****************************/

  method CollectProfiles(list: seq<string>) returns (profiles: set<string>)
    ensures forall v :: v in profiles <==> v in list && v != ""
  {
    profiles := {};
    for i := 0 to |list|
      invariant forall v :: v in profiles <==> v in list[..i] && v != ""
    {
      if list[i] != "" {
        profiles := profiles + {list[i]};
      }
    }
  }

  /** The configuration object; `loaded` are the IsLoaded flags of the providers. */
  class Config<P(==, !new), Q(!new)> {
    var isLoaded: bool
    var loaded: set<P>
    var groups: seq<Group<P, Q>>
    var props: Q
    var profiles: set<string>
    var providers: seq<P>  // highest precedence first

    constructor (q: Q, registered: seq<Group<P, Q>>, flags: set<P>)
      ensures !isLoaded && loaded == flags && groups == registered && props == q && profiles == {} && providers == []
    {
      isLoaded, loaded, groups, props, profiles, providers := false, flags, registered, q, {}, [];
    }

    /** The rounds, and what is stored when they are over. */
    method LoadFrom(env: Env<P, Q>, read: Q -> seq<string>, force: bool) returns (ok: bool)
      requires Known(env)
      modifies this`isLoaded, this`loaded, this`props, this`profiles, this`providers
      ensures var r := LoadAll(env, if force then old(loaded) - env.universe else old(loaded));
        && loaded == r.loaded && isLoaded == ok
        && (ok <==> r.Done? && env.resolve(r.props).Some?)
        && (ok ==> env.resolve(r.props) == Some(props) && providers == Reversed(r.providers))
        && (!ok ==> props == old(props) && providers == old(providers))
      ensures ok ==> forall v :: v in profiles <==> v in read(props) && v != ""
      ensures !ok ==> profiles == if force then {} else old(profiles)
    {
      if force {
        isLoaded, loaded, profiles := false, loaded - env.universe, {};
      }
      var r := RunRounds(env, loaded);
      loaded, isLoaded, ok := r.loaded, false, false;
      if r.Failed? {
        return;
      }
      var resolved := env.resolve(r.props);
      if resolved.None? {
        return;
      }
      props := resolved.value;
      profiles := CollectProfiles(read(props));
      providers := HighestFirst(r.providers);
      isLoaded, ok := true, true;
    }

    /** A load that fails, wherever it fails, changes neither properties nor providers; the
        profiles are forgotten by a forced load before anything can fail. */
    method Load(src: Source<P, Q>, force: bool) returns (ok: bool)
      requires Known(EnvOf(src, groups))
      modifies this
      ensures groups == SortGroups(old(groups)) && ByClass(Reversed(groups), GroupKey())
      ensures var r := LoadAll(EnvOf(src, old(groups)), if force then old(loaded) - src.universe else old(loaded));
        && loaded == r.loaded && isLoaded == ok
        && (ok <==> r.Done? && src.resolve(r.props).Some?)
        && (ok ==> src.resolve(r.props) == Some(props) && providers == Reversed(r.providers))
        && (!ok ==> props == old(props) && providers == old(providers))
      ensures ok ==> forall v :: v in profiles <==> v in src.profiles(props) && v != ""
      ensures !ok ==> profiles == if force then {} else old(profiles)
    {
      var env := EnvOf(src, groups);
      GroupsSorted(groups);
      groups := SortGroups(groups);
      ok := LoadFrom(env, src.profiles, force);
    }

    /** Forced loads with groups that only reveal end with the merge, resolved, of exactly
        the providers that are kept, whatever happened before. */
    method Reload(src: Source<P, Q>) returns (ok: bool)
      requires var env := EnvOf(src, groups); Known(env) && OnlyReveals(env) && Arranged(env) && loaded <= env.universe
      modifies this
      ensures ok ==> exists q: Q ::
        && src.merge(Reversed(providers)) == Some(q) && src.resolve(q) == Some(props)
        && Reversed(providers) == Collect(EnvOf(src, old(groups)), q)
    {
      ghost var env := EnvOf(src, groups);
      ForcedReflects(env);
      LoadSettles(env, {});
      assert loaded - src.universe == {};
      ok := Load(src, true);
      if ok {
        ReverseTwice(LoadAll(env, {}).providers);
      }
    }
  }
}
