/** What placeholder resolution should compute: a recursive substitution on the initial
    configuration that writes nothing. Defined for configurations whose references are
    ranked, that is, without cycles.
 */
module Substitution {
  import opened Text
  import opened Placeholder
  import opened Resolver

  /** How keys are normalised, and a rank for each normalised key. */
  datatype Graph = Graph(norm: Norm, rank: string -> nat)

  /** Every reference leads to a key of lower rank. */
  ghost predicate Ranked(st: Store, g: Graph) {
    forall k | k in st && st[k].Str? :: RanksBelow(st[k].ts, g, g.rank(k))
  }

  ghost predicate RanksBelow(ts: seq<Token>, g: Graph, bound: nat) {
    forall t | t in ts && t.Ref? :: g.rank(g.norm(t.key)) < bound
  }

  /** The value of leaf `k`, or `None` when it runs into a malformed string. */
  ghost function Pure(st: Store, g: Graph, k: string): Option<Value>
    requires Ranked(st, g)
    decreases g.rank(k), 2, 0
  {
    if k !in st then Some(Nil)
    else
      match st[k]
      case Malformed => None
      case Str(ts) =>
        if Placeholders(ts) == [] then Some(Str(ts))
        else if exists t :: t in ts && t.Ref? && PureRef(st, g, t, g.rank(k)).None? then None
        else if |ts| > 1 then Some(Str(PureTokens(st, g, ts, g.rank(k))))
        else PureRef(st, g, ts[0], g.rank(k))
      case v => Some(v)
  }

  /** What a placeholder stands for; `Some(Nil)` when nothing does. */
  ghost function PureRef(st: Store, g: Graph, t: Token, bound: nat): Option<Value>
    requires Ranked(st, g) && t.Ref? && g.rank(g.norm(t.key)) < bound
    decreases bound, 0, 0
  {
    var v := Pure(st, g, g.norm(t.key));
    if v.Some? && v.value != Nil then v
    else if t.def.Some? then Some(DefaultValue(t.def.value))
    else v
  }

  /** All placeholders replaced at once; those without a value stay as written. */
  ghost function PureTokens(st: Store, g: Graph, ts: seq<Token>, bound: nat): seq<Token>
    requires Ranked(st, g) && RanksBelow(ts, g, bound)
    requires forall t | t in ts && t.Ref? :: PureRef(st, g, t, bound).Some?
    decreases bound, 1, |ts|
  {
    if ts == [] then []
    else PureToken(st, g, ts[0], bound) + PureTokens(st, g, ts[1..], bound)
  }

  ghost function PureToken(st: Store, g: Graph, t: Token, bound: nat): seq<Token>
    requires Ranked(st, g)
    requires t.Ref? ==> g.rank(g.norm(t.key)) < bound && PureRef(st, g, t, bound).Some?
    decreases bound, 1, 0
  {
    if t.Ch? then [t]
    else
      var v := PureRef(st, g, t, bound).value;
      if v == Nil then [t] else Printed(v)
  }

  /** The values of all leaves. */
  type Values = map<string, Option<Value>>

  ghost function PureValues(st: Store, g: Graph): (vs: Values)
    requires Ranked(st, g)
    ensures vs.Keys == st.Keys
  {
    map k | k in st :: Pure(st, g, k)
  }

  function ValueAt(vs: Values, k: string): Option<Value> {
    if k in vs then vs[k] else Some(Nil)
  }

  lemma PureIsValueAt(st: Store, g: Graph, k: string)
    requires Ranked(st, g)
    ensures Pure(st, g, k) == ValueAt(PureValues(st, g), k)
  {
  }

  /** What leaf `k` must hold at the end: its value, or what was written there when it
      has none. */
  function Final(st: Store, vs: Values, k: string): Value
    requires k in st
  {
    match ValueAt(vs, k)
    case Some(v) => if v == Nil then st[k] else v
    case None => st[k]
  }

  /** A placeholder whose parsed default prints as it was written. */
  predicate PrintsBack(t: Token)
    requires t.Ref?
  {
    t.def.Some? ==> t.def.value.Printed() == t.def.value.raw
  }

  /** No key has a colon; parsing ends a key at the first one. */
  ghost predicate PlainKeys(st: Store) {
    forall k | k in st && st[k].Str? :: forall t | t in st[k].ts && t.Ref? :: ':' !in t.key
  }

  /** The placeholder has a default, or its key has a value. */
  ghost predicate Valued(st: Store, g: Graph, bound: nat, t: Token)
    requires Ranked(st, g)
  {
    t.Ref? && g.rank(g.norm(t.key)) < bound && PureRef(st, g, t, bound) != Some(Nil)
  }

  /** The placeholders that have a value are searched for as they are written, and no two
      different ones share a key. */
  ghost predicate Unambiguous(st: Store, g: Graph, bound: nat, ts: seq<Token>)
    requires Ranked(st, g)
  {
    && (forall t | t in ts && Valued(st, g, bound, t) :: PrintsBack(t))
    && (forall t, u | t in ts && u in ts && Valued(st, g, bound, t) && Valued(st, g, bound, u) && t.key == u.key :: t == u)
  }

  ghost predicate ColonFree(ts: seq<Token>) {
    forall t | t in ts && t.Ref? :: ':' !in t.key
  }

  /** Leaves below a rank that are more than one placeholder are not ambiguous. */
  ghost predicate WellFormedBelow(st: Store, g: Graph, bound: nat)
    requires Ranked(st, g)
  {
    && PlainKeys(st)
    && forall k | k in st && st[k].Str? && |st[k].ts| > 1 && g.rank(k) < bound :: Unambiguous(st, g, g.rank(k), st[k].ts)
  }

  ghost predicate WellFormed(st: Store, g: Graph)
    requires Ranked(st, g)
  {
    && PlainKeys(st)
    && forall k | k in st && st[k].Str? && |st[k].ts| > 1 :: Unambiguous(st, g, g.rank(k), st[k].ts)
  }

  /** The placeholder left in a resolved string: no default, and no value to be had. */
  ghost predicate Dead(st: Store, g: Graph, t: Token, bound: nat)
    requires Ranked(st, g)
  {
    && t.Ref? && t.def.None? && ':' !in t.key
    && g.rank(g.norm(t.key)) < bound
    && Pure(st, g, g.norm(t.key)) == Some(Nil)
  }

  ghost predicate OnlyDead(st: Store, g: Graph, v: Value, bound: nat)
    requires Ranked(st, g)
  {
    v.Str? ==> forall t | t in v.ts && t.Ref? :: Dead(st, g, t, bound)
  }

  /** Every placeholder left in a leaf's value is dead. */
  lemma {:induction false} PureLeavesDead(st: Store, g: Graph, k: string)
    requires PlainKeys(st) && Ranked(st, g) && Pure(st, g, k).Some?
    ensures OnlyDead(st, g, Pure(st, g, k).value, g.rank(k))
    decreases g.rank(k), 1, 0
  {
    if k in st && st[k].Str? && Placeholders(st[k].ts) != [] {
      var ts := st[k].ts;
      if |ts| > 1 {
        PureTokensLeaveDead(st, g, ts, g.rank(k));
      } else {
        assert ts[0] in Placeholders(ts);
        PureRefLeavesDead(st, g, ts[0], g.rank(k));
      }
    }
  }

  lemma {:induction false} PureRefLeavesDead(st: Store, g: Graph, t: Token, bound: nat)
    requires PlainKeys(st) && Ranked(st, g) && t.Ref? && g.rank(g.norm(t.key)) < bound
    requires PureRef(st, g, t, bound).Some?
    ensures OnlyDead(st, g, PureRef(st, g, t, bound).value, bound)
    decreases bound, 0, 0
  {
    if Pure(st, g, g.norm(t.key)).Some? {
      PureLeavesDead(st, g, g.norm(t.key));
    }
  }

  lemma {:induction false} PureTokensLeaveDead(st: Store, g: Graph, ts: seq<Token>, bound: nat)
    requires PlainKeys(st) && Ranked(st, g) && RanksBelow(ts, g, bound)
    requires forall t | t in ts && t.Ref? :: ':' !in t.key && PureRef(st, g, t, bound).Some?
    ensures forall t | t in PureTokens(st, g, ts, bound) && t.Ref? :: Dead(st, g, t, bound)
    decreases bound, 0, 1 + |ts|
  {
    if ts != [] {
      PureTokensLeaveDead(st, g, ts[1..], bound);
      if ts[0].Ref? {
        PureRefLeavesDead(st, g, ts[0], bound);
      }
    }
  }
}
