/** Placeholder resolution. Every leaf of the loaded configuration is visited in an
    arbitrary order, references are followed recursively, and each resolved value is
    written back, so that later visits find it already resolved.
 */
module Resolver {
  import opened Text
  import opened Placeholder
  import opened Collections

  /** A leaf: absent or nil, a non-string scalar with the text it prints as, a string,
      or a string whose placeholders are nested. */
  datatype Value = Nil | Scalar(kind: nat, text: string) | Str(ts: seq<Token>) | Malformed

  /** The leaves of a configuration by flat, normalised key. */
  type Store = map<string, Value>

  datatype Result = Ok(value: Value) | Circular | BadSyntax

  /** A placeholder that has been given a value: its key, and the text it is searched by. */
  datatype Entry = Entry(key: string, search: string, value: Value)

  type Norm = string -> string

  /** What a run depends on besides the configuration: how keys are normalised, the keys
      that placeholders may mention, and the order in which a map of resolved placeholders
      is iterated. */
  datatype Run = Run(norm: Norm, universe: set<string>, shuffle: seq<Entry> -> seq<Entry>)

  function Lookup(st: Store, k: string): Value {
    if k in st then st[k] else Nil
  }

  /** Writing a leaf that exists; nil is never written. */
  function SetLeaf(st: Store, k: string, v: Value): Store {
    if v == Nil || k !in st then st else st[k := v]
  }

  function Placeholders(ts: seq<Token>): (phs: seq<Token>)
    ensures forall t :: t in phs <==> t in ts && t.Ref?
    ensures |phs| <= |ts|
  {
    if ts == [] then []
    else (if ts[0].Ref? then [ts[0]] else []) + Placeholders(ts[1..])
  }

  /** Every key the value mentions is among `keys`. */
  predicate RefsIn(v: Value, keys: set<string>) {
    v.Str? ==> TokensIn(v.ts, keys)
  }

  predicate TokensIn(ts: seq<Token>, keys: set<string>) {
    forall t | t in ts && t.Ref? :: t.key in keys
  }

  predicate Within(st: Store, universe: set<string>) {
    forall k | k in st :: RefsIn(st[k], universe)
  }

  function Chars(s: string): (ts: seq<Token>)
    ensures |ts| == |s| && forall i | 0 <= i < |s| :: ts[i] == Ch(s[i])
  {
    seq(|s|, i requires 0 <= i < |s| => Ch(s[i]))
  }

  function DefaultValue(d: Default): Value {
    match d
    case Plain(raw) => Str(Chars(raw))
    case Typed(_, kind, printed) => Scalar(kind, printed)
  }

  /** How a value appears inside a longer string. */
  function Printed(v: Value): seq<Token> {
    match v
    case Str(ts) => ts
    case Scalar(_, text) => Chars(text)
    case _ => []
  }

  /** The text a resolved placeholder is searched by: its parsed default printed back. */
  function SearchText(ph: Token): string
    requires ph.Ref?
  {
    "${" + Body(ph.key, if ph.def.None? then None else Some(ph.def.value.Printed())) + "}"
  }

  /** Storing under the placeholder's key; a later placeholder with the same key wins. */
  function PutEntry(es: seq<Entry>, e: Entry): (r: seq<Entry>)
    ensures forall x :: x in r ==> x in es || x == e
  {
    if es == [] then [e]
    else if es[0].key == e.key then [e] + es[1..]
    else [es[0]] + PutEntry(es[1..], e)
  }

  function ReplaceEntries(ts: seq<Token>, es: seq<Entry>): seq<Token>
    decreases |es|
  {
    if es == [] then ts
    else ReplaceEntries(ReplaceTokens(ts, es[0].search, Printed(es[0].value)), es[1..])
  }

  ghost predicate Shuffles(r: Run) {
    forall es :: multiset(r.shuffle(es)) == multiset(es)
  }

  lemma ShuffleKeeps(r: Run, es: seq<Entry>)
    requires Shuffles(r)
    ensures forall e :: e in r.shuffle(es) <==> e in es
  {
    assert multiset(r.shuffle(es)) == multiset(es);
    forall e
      ensures e in r.shuffle(es) <==> e in es
    {
      assert e in r.shuffle(es) <==> e in multiset(r.shuffle(es));
      assert e in es <==> e in multiset(es);
    }
  }

  function ValueFor(es: seq<Entry>, key: string): (v: Value)
    ensures v == Nil || exists e :: e in es && e.value == v
  {
    if es == [] then Nil
    else if es[0].key == key then es[0].value
    else ValueFor(es[1..], key)
  }

  /** The value of a string once its placeholders have theirs. */
  function Assemble(r: Run, ts: seq<Token>, es: seq<Entry>): Value
    requires ts != []
  {
    if |ts| > 1 then Str(ReplaceEntries(ts, r.shuffle(es)))
    else if ts[0].Ref? then ValueFor(es, ts[0].key)
    else Str(ts)
  }

  lemma {:induction false} ReplaceTokensIn(ts: seq<Token>, pat: string, with: seq<Token>, keys: set<string>)
    requires TokensIn(ts, keys) && TokensIn(with, keys)
    ensures TokensIn(ReplaceTokens(ts, pat, with), keys)
  {
    if ts != [] {
      ReplaceTokensIn(ts[1..], pat, with, keys);
    }
  }

  lemma {:induction false} ReplaceEntriesIn(ts: seq<Token>, es: seq<Entry>, keys: set<string>)
    requires TokensIn(ts, keys) && forall e | e in es :: RefsIn(e.value, keys)
    ensures TokensIn(ReplaceEntries(ts, es), keys)
    decreases |es|
  {
    if es != [] {
      assert es[0] in es;
      ReplaceTokensIn(ts, es[0].search, Printed(es[0].value), keys);
      ReplaceEntriesIn(ReplaceTokens(ts, es[0].search, Printed(es[0].value)), es[1..], keys);
    }
  }

  lemma AssembleIn(r: Run, ts: seq<Token>, es: seq<Entry>, keys: set<string>)
    requires Shuffles(r) && ts != []
    requires TokensIn(ts, keys) && forall e | e in es :: RefsIn(e.value, keys)
    ensures RefsIn(Assemble(r, ts, es), keys)
  {
    ShuffleKeeps(r, es);
    ReplaceEntriesIn(ts, r.shuffle(es), keys);
  }

  /***************************** The run *****************************/

  datatype Outcome = Outcome(st: Store, res: Result)
  datatype Progress = Done(st: Store, es: seq<Entry>) | Stop(st: Store, why: Result)

  /** Resolving the value found under `key`, with write-back. `visited` holds the keys
      being resolved further up. */
  function ResolveValue(r: Run, st: Store, key: string, visited: seq<string>): (o: Outcome)
    requires Shuffles(r) && Within(st, r.universe)
    ensures Within(o.st, r.universe) && o.st.Keys == st.Keys
    ensures o.res.Ok? ==> RefsIn(o.res.value, r.universe)
    decreases |r.universe - SetOf(visited) - {key}|, 1, 0
  {
    var val := Lookup(st, r.norm(key));
    if val.Malformed? then Outcome(st, BadSyntax)
    else if !val.Str? || Placeholders(val.ts) == [] then Outcome(st, Ok(val))
    else
      var path := visited + [key];
      var phs := Placeholders(val.ts);
      if exists ph :: ph in phs && ph.key in path then Outcome(st, Circular)
      else
        assert r.universe - SetOf(path) == r.universe - SetOf(visited) - {key};
        Finish(r, key, val.ts, ResolveAll(r, st, phs, path, []))
  }

  /** Writing the assembled value back. */
  function Finish(r: Run, key: string, ts: seq<Token>, p: Progress): (o: Outcome)
    requires Shuffles(r) && ts != [] && TokensIn(ts, r.universe)
    requires Within(p.st, r.universe)
    requires p.Done? ==> forall e | e in p.es :: RefsIn(e.value, r.universe)
    requires p.Stop? ==> !p.why.Ok?
    ensures Within(o.st, r.universe) && o.st.Keys == p.st.Keys
    ensures o.res.Ok? ==> RefsIn(o.res.value, r.universe)
  {
    match p
    case Stop(st, why) => Outcome(st, why)
    case Done(st, es) =>
      AssembleIn(r, ts, es, r.universe);
      var v := Assemble(r, ts, es);
      Outcome(SetLeaf(st, r.norm(key), v), Ok(v))
  }

  /** Resolving a list of placeholders one after the other. */
  function ResolveAll(r: Run, st: Store, phs: seq<Token>, path: seq<string>, acc: seq<Entry>): (p: Progress)
    requires Shuffles(r) && Within(st, r.universe)
    requires forall ph | ph in phs :: ph.Ref? && ph.key in r.universe && ph.key !in path
    requires forall e | e in acc :: RefsIn(e.value, r.universe)
    ensures Within(p.st, r.universe) && p.st.Keys == st.Keys
    ensures p.Done? ==> forall e | e in p.es :: RefsIn(e.value, r.universe)
    ensures p.Stop? ==> !p.why.Ok?
    decreases |r.universe - SetOf(path)|, 0, |phs|
  {
    if phs == [] then Done(st, acc)
    else
      var ph := phs[0];
      assert r.universe - SetOf(path) - {ph.key} < r.universe - SetOf(path);
      SmallerSet(r.universe - SetOf(path) - {ph.key}, r.universe - SetOf(path));
      var o := ResolveValue(r, st, ph.key, path);
      match Chosen(ph, o.res)
      case Ok(v) => ResolveAll(r, o.st, phs[1..], path,
                               if v == Nil then acc else PutEntry(acc, Entry(ph.key, SearchText(ph), v)))
      case why => Stop(o.st, why)
  }

  /** The value a placeholder stands for: what its key resolved to, else its default;
      `Ok(Nil)` when it has neither. A default also covers an error. */
  function Chosen(ph: Token, res: Result): Result
    requires ph.Ref?
  {
    if res.Ok? && res.value != Nil then res
    else if ph.def.Some? then Ok(DefaultValue(ph.def.value))
    else res
  }

  function Extended(es: seq<Entry>, ph: Token, v: Value): seq<Entry>
    requires ph.Ref?
  {
    if v == Nil then es else PutEntry(es, Entry(ph.key, SearchText(ph), v))
  }

  lemma {:induction false} NoPlaceholders(ts: seq<Token>)
    requires forall t | t in ts :: t.Ch?
    ensures Placeholders(ts) == []
  {
    if ts != [] {
      assert ts[0] in ts;
      NoPlaceholders(ts[1..]);
    }
  }

  lemma ResolveUnfolds(r: Run, st: Store, key: string, visited: seq<string>)
    requires Shuffles(r) && Within(st, r.universe)
    requires Lookup(st, r.norm(key)).Str? && Placeholders(Lookup(st, r.norm(key)).ts) != []
    requires forall ph | ph in Placeholders(Lookup(st, r.norm(key)).ts) :: ph.key !in visited + [key]
    ensures var ts := Lookup(st, r.norm(key)).ts;
            ResolveValue(r, st, key, visited) ==
            Finish(r, key, ts, ResolveAll(r, st, Placeholders(ts), visited + [key], []))
  {
  }

  lemma SameMeasure(universe: set<string>, visited: seq<string>, key: string)
    ensures universe - SetOf(visited + [key]) == universe - SetOf(visited) - {key}
  {
  }

  /** Resolving one more placeholder of a list. */
  lemma OneMore(r: Run, st: Store, phs: seq<Token>, n: nat, path: seq<string>, es: seq<Entry>)
    requires Shuffles(r) && Within(st, r.universe) && n < |phs|
    requires forall ph | ph in phs :: ph.Ref? && ph.key in r.universe && ph.key !in path
    requires forall e | e in es :: RefsIn(e.value, r.universe)
    ensures phs[n] in phs && |r.universe - SetOf(path) - {phs[n].key}| < |r.universe - SetOf(path)|
    ensures var o := ResolveValue(r, st, phs[n].key, path);
            var chosen := Chosen(phs[n], o.res);
            if chosen.Ok?
            then
              && (forall e | e in Extended(es, phs[n], chosen.value) :: RefsIn(e.value, r.universe))
              && ResolveAll(r, st, phs[n..], path, es) ==
                 ResolveAll(r, o.st, phs[n + 1..], path, Extended(es, phs[n], chosen.value))
            else ResolveAll(r, st, phs[n..], path, es) == Stop(o.st, chosen)
  {
    var ph := phs[n];
    assert ph in phs && phs[n..][0] == ph && phs[n..][1..] == phs[n + 1..];
    assert r.universe - SetOf(path) - {ph.key} < r.universe - SetOf(path);
    SmallerSet(r.universe - SetOf(path) - {ph.key}, r.universe - SetOf(path));
  }

  /** Resolving the first placeholder of a list. */
  lemma FirstOne(r: Run, st: Store, phs: seq<Token>, path: seq<string>, es: seq<Entry>)
    requires Shuffles(r) && Within(st, r.universe) && phs != []
    requires forall ph | ph in phs :: ph.Ref? && ph.key in r.universe && ph.key !in path
    requires forall e | e in es :: RefsIn(e.value, r.universe)
    ensures phs[0] in phs && |r.universe - SetOf(path) - {phs[0].key}| < |r.universe - SetOf(path)|
    ensures forall ph | ph in phs[1..] :: ph in phs
    ensures var o := ResolveValue(r, st, phs[0].key, path);
            var chosen := Chosen(phs[0], o.res);
            if chosen.Ok?
            then
              && (forall e | e in Extended(es, phs[0], chosen.value) :: RefsIn(e.value, r.universe))
              && ResolveAll(r, st, phs, path, es) == ResolveAll(r, o.st, phs[1..], path, Extended(es, phs[0], chosen.value))
            else ResolveAll(r, st, phs, path, es) == Stop(o.st, chosen)
  {
    OneMore(r, st, phs, 0, path, es);
    assert phs[0..] == phs;
  }

  /** The check for circular references. */
  method Repeats(keys: seq<string>, path: seq<string>) returns (repeated: bool)
    ensures repeated <==> exists k :: k in keys && k in path
  {
    for i := 0 to |keys|
      invariant forall j | 0 <= j < i :: keys[j] !in path
    {
      if keys[i] in path {
        return true;
      }
    }
    return false;
  }
}
