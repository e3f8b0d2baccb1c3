/** The level registry: every logger caches its effective level, and changes touch only
    the loggers they concern.
 */
module LogLevels {
  import opened Text
  import opened KeyFormat

  datatype Level = Off | Debug | Info | Warn | Error

  /** Configured levels by logger key. */
  type Table = map<string, Level>

  /***************************** Effective levels *****************************/

  /** `p` is `k` or one of its dotted ancestors. */
  predicate Covers(p: string, k: string) {
    p != "" && Under(p, k)
  }

  predicate Under(p: string, k: string) {
    k == p || p + "." <= k
  }

  /** The lookup that drops one dotted part after the other. */
  function Resolve(levels: Table, root: Level, key: string): Level
    decreases |key|
  {
    if key == "" then root
    else if key in levels then levels[key]
    else
      var i := LastIndexOf(key, '.');
      if i <= 0 then root else Resolve(levels, root, key[..i])
  }

  method ResolveLoop(levels: Table, root: Level, key: string) returns (l: Level)
    ensures l == Resolve(levels, root, key)
  {
    var i: int := |key|;
    var prefix := key;
    assert key[..|key|] == key;
    while i > 0
      invariant i <= |prefix|
      invariant i > 0 ==> Resolve(levels, root, key) == Resolve(levels, root, prefix[..i]) && prefix <= key
      invariant i <= 0 ==> Resolve(levels, root, key) == root
    {
      prefix := prefix[..i];
      if prefix in levels {
        return levels[prefix];
      }
      i := LastIndexOf(prefix, '.');
    }
    return root;
  }

  /** The configured level of the longest dotted ancestor, or the root level if none is
      configured. */
  ghost predicate IsEffective(levels: Table, root: Level, key: string, l: Level) {
    if Configured(levels, key) then exists p :: Nearest(levels, key, p) && levels[p] == l else l == root
  }

  ghost predicate Configured(levels: Table, key: string) {
    exists p :: p in levels && Covers(p, key)
  }

  /** `p` is the longest configured ancestor of `key`. */
  ghost predicate Nearest(levels: Table, key: string, p: string) {
    p in levels && Covers(p, key) && forall q | q in levels && Covers(q, key) :: |q| <= |p|
  }

  lemma CoversStep(p: string, key: string)
    requires key != ""
    ensures var i := LastIndexOf(key, '.');
            Covers(p, key) <==> p == key || (i > 0 && Covers(p, key[..i]))
  {
    var i := LastIndexOf(key, '.');
    if Covers(p, key) && p != key {
      assert key[|p|] == (p + ".")[|p|];
      assert forall k | i < k < |key| :: key[k] in key[i + 1..];
      assert p == key[..|p|];
      if |p| < i {
        assert p + "." == key[..|p| + 1] == key[..i][..|p| + 1];
      }
    }
    if i > 0 && Covers(p, key[..i]) {
      if p == key[..i] {
        assert p + "." == key[..i + 1];
      } else {
        assert key[..i] <= key;
      }
    }
  }

  /** The lookup finds the longest configured ancestor. */
  lemma {:induction false} ResolveIsEffective(levels: Table, root: Level, key: string)
    ensures IsEffective(levels, root, key, Resolve(levels, root, key))
    decreases |key|
  {
    if key == "" {
      assert forall p :: !Covers(p, key);
    } else {
      var i := LastIndexOf(key, '.');
      forall p
        ensures Covers(p, key) <==> p == key || (i > 0 && Covers(p, key[..i]))
        ensures Covers(p, key) ==> |p| <= |key|
      {
        CoversStep(p, key);
      }
      if key in levels {
        assert Covers(key, key);
      } else if i > 0 {
        ResolveIsEffective(levels, root, key[..i]);
      }
    }
  }

  lemma SameLength(p: string, q: string, key: string)
    requires Covers(p, key) && Covers(q, key) && |p| == |q|
    ensures p == q
  {
    assert p == key[..|p|] && q == key[..|q|];
  }

  /** There is only one effective level. */
  lemma EffectiveIsUnique(levels: Table, root: Level, key: string, l: Level, l': Level)
    requires IsEffective(levels, root, key, l) && IsEffective(levels, root, key, l')
    ensures l == l'
  {
    if Configured(levels, key) {
      var p :| Nearest(levels, key, p) && levels[p] == l;
      var q :| Nearest(levels, key, q) && levels[q] == l';
      SameLength(p, q, key);
    }
  }

  /** A change at one key is not seen by keys it does not cover. */
  lemma {:induction false} OtherKeysUnaffected(levels: Table, levels': Table, root: Level, changed: string, key: string)
    requires !Covers(changed, key)
    requires forall k | k != changed :: k in levels <==> k in levels'
    requires forall k | k != changed && k in levels :: levels'[k] == levels[k]
    ensures Resolve(levels', root, key) == Resolve(levels, root, key)
    decreases |key|
  {
    if key != "" {
      CoversStep(changed, key);
      var i := LastIndexOf(key, '.');
      if i > 0 {
        OtherKeysUnaffected(levels, levels', root, changed, key[..i]);
      }
    }
  }

  /***************************** The factory *****************************/

  datatype Logger = Logger(name: string, lvl: Level)

  const KEY_DEFAULT := "default"
  const NAME_DEFAULT := "ROOT"

  predicate IsRootKey(key: string) {
    key == "" || key == KEY_DEFAULT || key == CamelToSnakeCase(NAME_DEFAULT)
  }

  type Registry = map<string, Logger>

  /** Every cached level is the effective one. */
  ghost predicate Cached(registry: Registry, levels: Table, root: Level) {
    forall k | k in registry :: registry[k].lvl == Resolve(levels, root, k)
  }

  /** The loggers in `done`, and no others, have been given their effective level. */
  ghost predicate Recomputed(registry: Registry, registry': Registry, levels: Table, root: Level, done: set<string>) {
    && SameNames(registry, registry')
    && forall k | k in registry' :: registry'[k].lvl == if k in done then Resolve(levels, root, k) else registry[k].lvl
  }

  lemma RecomputeOne(registry: Registry, registry': Registry, levels: Table, root: Level, done: set<string>, k: string)
    requires Recomputed(registry, registry', levels, root, done) && k in registry'
    ensures Recomputed(registry, registry'[k := Logger(registry'[k].name, Resolve(levels, root, k))], levels, root, done + {k})
  {
  }

  /** Recomputes the cached level of the loggers in `keys`, in any order. */
  method RecomputeEach(registry: Registry, levels: Table, root: Level, keys: set<string>) returns (r: Registry,
                       affected: nat)
    requires keys <= registry.Keys
    ensures Recomputed(registry, r, levels, root, keys) && affected == |keys|
  {
    r, affected := registry, 0;
    var todo := keys;
    while todo != {}
      invariant todo <= keys && affected == |keys| - |todo|
      invariant Recomputed(registry, r, levels, root, keys - todo)
      decreases |todo|
    {
      var k :| k in todo;
      var effective := ResolveLoop(levels, root, k);
      RecomputeOne(registry, r, levels, root, keys - todo, k);
      assert keys - (todo - {k}) == keys - todo + {k};
      r, todo, affected := r[k := Logger(r[k].name, effective)], todo - {k}, affected + 1;
    }
    assert keys - todo == keys;
  }

  lemma CacheIsDetermined(registry: Registry, registry': Registry, levels: Table, root: Level)
    requires Cached(registry, levels, root) && Cached(registry', levels, root) && SameNames(registry, registry')
    ensures registry == registry'
  {
  }

  function WithLevel(levels: Table, key: string, l: Option<Level>): Table {
    match l
    case Some(level) => levels[key := level]
    case None => levels - {key}
  }

  /** The entry for `key` has been set or taken away, and no other. */
  ghost predicate IsSetAt(was: Table, now: Table, key: string, l: Option<Level>) {
    && (match l case Some(level) => key in now && now[key] == level case None => key !in now)
    && (forall k | k != key :: k in now <==> k in was)
    && (forall k | k != key && k in now :: now[k] == was[k])
  }

  lemma SetAndTakenAway(was: Table, between: Table, now: Table, key: string, l: Level)
    requires IsSetAt(was, between, key, Some(l)) && IsSetAt(between, now, key, None) && key !in was
    ensures now == was
  {
  }

  /** The keys that stand for the root level. */
  lemma RootKeys()
    ensures forall key :: IsRootKey(key) <==> key in {"", "default", "root"}
  {
    assert NAME_DEFAULT[..3] == "ROO" && "ROO"[..2] == "RO" && "RO"[..1] == "R" && "R"[..0] == "";
    assert CamelToSnakeCase("R") == "r" && CamelToSnakeCase("RO") == "ro" && CamelToSnakeCase("ROO") == "roo";
    assert CamelToSnakeCase(NAME_DEFAULT) == "root";
  }

  /** What a logger's level is after the change: a logger whose nearest configured ancestor is
      the changed key, or that has none nearer, gets the new level. */
  lemma SetIsSeen(levels: Table, levels': Table, root: Level, key: string, l: Level, k: string)
    requires IsSetAt(levels, levels', key, Some(l)) && Covers(key, k)
    ensures (forall q | q in levels && Covers(q, k) :: |q| <= |key|) ==> Resolve(levels', root, k) == l
    ensures (exists q :: q in levels && Covers(q, k) && |q| > |key|) ==> Resolve(levels', root, k) == Resolve(levels, root, k)
  {
    ResolveIsEffective(levels', root, k);
    ResolveIsEffective(levels, root, k);
    if forall q | q in levels && Covers(q, k) :: |q| <= |key| {
      assert Nearest(levels', k, key);
      var p :| Nearest(levels', k, p) && levels'[p] == Resolve(levels', root, k);
      SameLength(p, key, k);
    } else {
      var p :| Nearest(levels', k, p) && levels'[p] == Resolve(levels', root, k);
      var q :| Nearest(levels, k, q) && levels[q] == Resolve(levels, root, k);
      assert p in levels && q in levels';
      SameLength(p, q, k);
    }
  }

  function KeysUnder(keys: set<string>, key: string): set<string> {
    set k | k in keys && Under(key, k)
  }

  /** Recomputing the loggers under a changed key is enough. */
  lemma RecomputedUnder(registry: Registry, registry': Registry, levels: Table, root: Level, key: string,
                        l: Option<Level>)
    requires Cached(registry, levels, root)
    requires Recomputed(registry, registry', WithLevel(levels, key, l), root, KeysUnder(registry.Keys, key))
    ensures Cached(registry', WithLevel(levels, key, l), root)
    ensures forall k | k in registry' && !Under(key, k) :: registry'[k] == registry[k]
  {
    var levels' := WithLevel(levels, key, l);
    forall k | k in registry' && !Under(key, k)
      ensures registry'[k].lvl == Resolve(levels', root, k) && registry'[k] == registry[k]
    {
      OtherKeysUnaffected(levels, levels', root, key, k);
    }
  }

  /** Loggers are registered under the key of their name. */
  ghost predicate UnderOwnKeys(registry: Registry) {
    forall k | k in registry :: k == CamelToSnakeCase(registry[k].name)
  }

  lemma AddedIsCached(registry: Registry, levels: Table, root: Level, key: string, l: Logger)
    requires UnderOwnKeys(registry) && l.lvl == Resolve(levels, root, key) && key == CamelToSnakeCase(l.name)
    ensures UnderOwnKeys(registry[key := l])
    ensures Cached(registry, levels, root) ==> Cached(registry[key := l], levels, root)
  {
  }

  class LoggerFactory {
    var rootLevel: Level
    var levels: Table
    var registry: Registry
    var hasCreator: bool  // whether there is a core creator

    ghost predicate Registered()
      reads this
    {
      UnderOwnKeys(registry)
    }

    /** Every cached level is the effective one. */
    ghost predicate Valid()
      reads this
    {
      Registered() && Cached(registry, levels, rootLevel)
    }

    constructor (root: Level, table: Table)
      ensures Valid() && rootLevel == root && levels == table && registry == map[] && hasCreator
    {
      rootLevel, levels, registry, hasCreator := root, table, map[], true;
    }

    /** Nothing is returned where the call of a missing core creator panics. */
    method CreateLogger(name: string) returns (l: Option<Logger>)
      requires Registered()
      modifies this`registry
      ensures Registered() && (old(Valid()) ==> Valid())
      ensures var key := CamelToSnakeCase(name);
              && (l.None? <==> key !in old(registry) && !hasCreator)
              && registry == (if key in old(registry) || !hasCreator then old(registry)
                              else old(registry)[key := Logger(name, Resolve(levels, rootLevel, key))])
              && (l.Some? ==> key in registry && l.value == registry[key])
    {
      var key := ConvertCamelCase(name);
      if key in registry {
        return Some(registry[key]);
      }
      var ll := ResolveLoop(levels, rootLevel, key);
      if !hasCreator {
        return None;
      }
      l := Some(Logger(name, ll));
      AddedIsCached(registry, levels, rootLevel, key, l.value);
      registry := registry[key := l.value];
    }

    /** Recomputes the cached level of the loggers in `keys`, in any order. */
    method Recompute(keys: set<string>) returns (affected: nat)
      requires keys <= registry.Keys && Registered()
      modifies this`registry
      ensures affected == |keys| && Registered() && Recomputed(old(registry), registry, levels, rootLevel, keys)
    {
      registry, affected := RecomputeEach(registry, levels, rootLevel, keys);
    }

    method SetRootLevel(l: Level) returns (affected: nat)
      requires Registered()
      modifies this`rootLevel, this`registry
      ensures Valid() && rootLevel == l && affected == |registry| && SameNames(old(registry), registry)
    {
      rootLevel := l;
      affected := Recompute(registry.Keys);
    }

    /** Setting or unsetting the level of a prefix touches only the loggers under it, and
        every cached level is right afterwards. */
    method SetLevel(prefix: string, l: Option<Level>) returns (affected: nat)
      requires Valid()
      modifies this
      ensures Valid() && SameNames(old(registry), registry) && hasCreator == old(hasCreator)
      ensures var key := CamelToSnakeCase(prefix);
              if l.Some? && key in {"", "default", "root"}
              then rootLevel == l.value && levels == old(levels) && affected == |registry|
              else
                && rootLevel == old(rootLevel)
                && IsSetAt(old(levels), levels, key, l)
                && affected == |KeysUnder(registry.Keys, key)|
                && forall k | k in registry && !Under(key, k) :: registry[k] == old(registry)[k]
    {
      var key := ConvertCamelCase(prefix);
      RootKeys();
      if IsRootKey(key) && l.Some? {
        affected := SetRootLevel(l.value);
      } else {
        affected := SetPrefix(key, l);
      }
    }

    method SetPrefix(key: string, l: Option<Level>) returns (affected: nat)
      requires Valid()
      modifies this`levels, this`registry
      ensures Valid() && SameNames(old(registry), registry)
      ensures levels == WithLevel(old(levels), key, l) && IsSetAt(old(levels), levels, key, l)
      ensures affected == |KeysUnder(registry.Keys, key)|
      ensures forall k | k in registry && !Under(key, k) :: registry[k] == old(registry)[k]
    {
      if l.None? {
        if key in levels {
          levels := levels - {key};
        }
      } else {
        levels := levels[key := l.value];
      }
      assert levels == WithLevel(old(levels), key, l);
      affected := Recompute(KeysUnder(registry.Keys, key));
      RecomputedUnder(old(registry), registry, old(levels), rootLevel, key, l);
    }

    /** Takes over new properties. When building the writers fails, the level tables have
        changed already and the cached levels have not: they are right exactly if the new
        tables give every registered logger the level the old ones gave it. */
    method Refresh(byName: Table, coreBuilds: bool) returns (ok: bool)
      requires Registered()
      modifies this
      ensures ok == coreBuilds == hasCreator && SameNames(old(registry), registry) && Registered()
      ensures rootLevel == if KEY_DEFAULT in byName then byName[KEY_DEFAULT] else Info
      ensures IsConverted(byName, levels)
      ensures if ok then Valid() else registry == old(registry)
      ensures !ok && old(Valid()) ==> (Valid() <==> SameEffective(registry.Keys, old(levels), old(rootLevel), levels, rootLevel))
    {
      rootLevel := if KEY_DEFAULT in byName then byName[KEY_DEFAULT] else Info;
      levels := ConvertNames(byName);
      hasCreator := coreBuilds;
      if !coreBuilds {
        return false;
      }
      var n := Recompute(registry.Keys);
      return true;
    }

    /** The level configuration of the loggers under a prefix and of their dotted ancestors:
        every effective level reported is the direct lookup for its key. */
    method Levels(prefix: string) returns (ret: map<string, LevelConfig>)
      requires Valid()
      ensures forall k :: Wanted(registry, CamelToSnakeCase(prefix), k) ==> k in ret
      ensures forall k | k in ret && !(prefix == "" && k == KEY_DEFAULT) ::
                && Wanted(registry, CamelToSnakeCase(prefix), k)
                && CamelToSnakeCase(ret[k].name) == k
                && ret[k].effective == Resolve(levels, rootLevel, k)
                && ret[k].configured == if k in levels then Some(levels[k]) else None
      ensures prefix == "" ==> KEY_DEFAULT in ret && ret[KEY_DEFAULT] == LevelConfig(NAME_DEFAULT, rootLevel, Some(rootLevel))
    {
      var prefixKey := ConvertCamelCase(prefix);
      var names := CollectNames(registry, prefixKey);
      ret := Populate(registry, levels, rootLevel, names);
      if prefix == "" {
        ret := ret[KEY_DEFAULT := LevelConfig(NAME_DEFAULT, rootLevel, Some(rootLevel))];
      }
    }

    /** Setting a level on a prefix that has none, and unsetting it, changes nothing. */
    method SetThenUnset(prefix: string, l: Level)
      requires Valid()
      requires var key := CamelToSnakeCase(prefix); key !in {"", "default", "root"} && key !in levels
      modifies this
      ensures Valid() && levels == old(levels) && rootLevel == old(rootLevel) && registry == old(registry)
    {
      ghost var key := CamelToSnakeCase(prefix);
      var n := SetLevel(prefix, Some(l));
      ghost var between := levels;
      n := SetLevel(prefix, None);
      SetAndTakenAway(old(levels), between, levels, key, l);
      CacheIsDetermined(old(registry), registry, levels, rootLevel);
    }

    /** A refresh that fails leaves the cached level of a logger wrong if it was to give that
        logger another level. */
    method StaleAfterFailure(name: string, l: Level)
      requires Valid() && name != "" && Resolve(levels, rootLevel, CamelToSnakeCase(name)) != l
      requires hasCreator || CamelToSnakeCase(name) in registry
      modifies this
      ensures var key := CamelToSnakeCase(name);
              key in registry && registry[key].lvl != Resolve(levels, rootLevel, key) && !Valid()
    {
      var logger := CreateLogger(name);
      var ok := Refresh(map[name := l], false);
      ghost var key := CamelToSnakeCase(name);
      NeverEmpty(name);
      assert name in map[name := l];
      assert levels[key] == l;
    }

    /** After a refresh that fails, creating a logger that is not registered panics, until a
        refresh succeeds. */
    method NewLoggerPanics(byName: Table, name: string) returns (failed: Option<Logger>, repaired: Option<Logger>)
      requires Registered() && CamelToSnakeCase(name) !in registry
      modifies this
      ensures failed.None? && repaired.Some? && Valid()
    {
      var ok := Refresh(byName, false);
      failed := CreateLogger(name);
      ok := Refresh(byName, true);
      repaired := CreateLogger(name);
    }

    /** The cached levels are put right again by any change of the root level. */
    method RepairAfterFailure(byName: Table, l: Level)
      requires Valid()
      modifies this
      ensures Valid() && rootLevel == l
    {
      var ok := Refresh(byName, false);
      var n := SetRootLevel(l);
    }
  }

  lemma NeverEmpty(name: string)
    requires name != ""
    ensures CamelToSnakeCase(name) != ""
  {
  }

  /** Both tables give each of the keys the same level. */
  predicate SameEffective(keys: set<string>, levels: Table, root: Level, levels': Table, root': Level) {
    forall k | k in keys :: Resolve(levels, root, k) == Resolve(levels', root', k)
  }

  ghost predicate SameNames(a: Registry, b: Registry) {
    a.Keys == b.Keys && forall k | k in a :: b[k].name == a[k].name
  }

  /** Levels by name turned into levels by key; names with the same key compete. */
  ghost predicate IsConverted(byName: Table, byKey: Table) {
    && (forall k | k in byKey :: exists n :: n in byName && CamelToSnakeCase(n) == k && byName[n] == byKey[k])
    && (forall n | n in byName :: CamelToSnakeCase(n) in byKey)
  }

  method ConvertNames(byName: Table) returns (byKey: Table)
    ensures IsConverted(byName, byKey)
  {
    byKey := map[];
    var todo := byName.Keys;
    while todo != {}
      invariant todo <= byName.Keys
      invariant forall k | k in byKey :: exists n :: n in byName && CamelToSnakeCase(n) == k && byName[n] == byKey[k]
      invariant forall n | n in byName && n !in todo :: CamelToSnakeCase(n) in byKey
      decreases |todo|
    {
      var n :| n in todo;
      todo := todo - {n};
      var key := ConvertCamelCase(n);
      byKey := byKey[key := byName[n]];
    }
  }

  /***************************** Reports *****************************/

  datatype LevelConfig = LevelConfig(name: string, effective: Level, configured: Option<Level>)

  /** A dotted ancestor of some logger's name, if that logger's key has the prefix. */
  ghost predicate Names(registry: Registry, prefixKey: string, p: string) {
    exists r :: r in registry && HasPrefix(r, prefixKey) && Covers(p, registry[r].name)
  }

  ghost predicate Wanted(registry: Registry, prefixKey: string, k: string) {
    exists p :: Names(registry, prefixKey, p) && CamelToSnakeCase(p) == k
  }

  method Populate(registry: Registry, levels: Table, root: Level, names: map<string, string>)
    returns (ret: map<string, LevelConfig>)
    requires Cached(registry, levels, root)
    ensures ret.Keys == names.Keys
    ensures forall k | k in ret :: ret[k] == ConfigOf(levels, root, k, names[k])
  {
    ret := map[];
    var todo := names.Keys;
    while todo != {}
      invariant todo <= names.Keys && ret.Keys == names.Keys - todo
      invariant forall k | k in ret :: ret[k] == ConfigOf(levels, root, k, names[k])
      decreases |todo|
    {
      var k :| k in todo;
      todo := todo - {k};
      var lvl;
      if k in registry {
        lvl := registry[k].lvl;
      } else {
        lvl := ResolveLoop(levels, root, k);
      }
      ret := ret[k := LevelConfig(names[k], lvl, if k in levels then Some(levels[k]) else None)];
    }
  }

  function ConfigOf(levels: Table, root: Level, k: string, name: string): LevelConfig {
    LevelConfig(name, Resolve(levels, root, k), if k in levels then Some(levels[k]) else None)
  }

  /** A name and its dotted ancestors. */
  function Ancestry(name: string): set<string>
    decreases |name|
  {
    if name == "" then {}
    else
      var i := LastIndexOf(name, '.');
      {name} + (if i > 0 then Ancestry(name[..i]) else {})
  }

  lemma {:induction false} AncestryCovers(name: string, p: string)
    ensures p in Ancestry(name) <==> Covers(p, name)
    decreases |name|
  {
    if name != "" {
      CoversStep(p, name);
      var i := LastIndexOf(name, '.');
      if i > 0 {
        AncestryCovers(name[..i], p);
      }
    }
  }

  /** The ancestry of the first `i` characters. */
  function Above(p: string, i: int): set<string>
    requires i <= |p|
  {
    if i > 0 then Ancestry(p[..i]) else {}
  }

  lemma AncestryStep(p: string)
    requires p != ""
    ensures Ancestry(p) == {p} + Above(p, LastIndexOf(p, '.'))
  {
  }

  /** `r` is `names` with `added` stored under their keys. */
  ghost predicate Adds(key: string -> string, names: map<string, string>, added: set<string>, r: map<string, string>) {
    && (forall k | k in r :: (k in names && r[k] == names[k]) || (r[k] in added && key(r[k]) == k))
    && (forall k | k in names :: k in r)
    && (forall p | p in added :: key(p) in r)
  }

  lemma AddsOne(key: string -> string, names: map<string, string>, added: set<string>, r: map<string, string>,
                p: string)
    requires Adds(key, names, added, r)
    ensures Adds(key, names, added + {p}, r[key(p) := p])
  {
  }

  /** Adds the keys of a name and its dotted ancestors. */
  method AddAncestry(names: map<string, string>, name: string) returns (r: map<string, string>)
    ensures Adds(CamelToSnakeCase, names, Ancestry(name), r)
  {
    r := names;
    var p := name;
    var i: int := |name|;
    ghost var done: set<string> := {};
    assert name[..|name|] == name;
    while i > 0
      invariant i <= |p|
      invariant Ancestry(name) == done + Above(p, i)
      invariant Adds(CamelToSnakeCase, names, done, r)
    {
      p := p[..i];
      var key := ConvertCamelCase(p);
      AddsOne(CamelToSnakeCase, names, done, r, p);
      r := r[key := p];
      AncestryStep(p);
      done := done + {p};
      i := LastIndexOf(p, '.');
    }
  }

  method CollectNames(registry: Registry, prefixKey: string) returns (names: map<string, string>)
    ensures forall k | k in names :: Names(registry, prefixKey, names[k]) && CamelToSnakeCase(names[k]) == k
    ensures forall k :: Wanted(registry, prefixKey, k) ==> k in names
  {
    names := map[];
    var todo := registry.Keys;
    while todo != {}
      invariant todo <= registry.Keys
      invariant forall k | k in names :: Names(registry, prefixKey, names[k]) && CamelToSnakeCase(names[k]) == k
      invariant forall r, p | r in registry && r !in todo && HasPrefix(r, prefixKey) && Covers(p, registry[r].name) ::
                  CamelToSnakeCase(p) in names
      decreases |todo|
    {
      var r :| r in todo;
      todo := todo - {r};
      if HasPrefix(r, prefixKey) {
        names := AddAncestry(names, registry[r].name);
        forall p
          ensures p in Ancestry(registry[r].name) <==> Covers(p, registry[r].name)
        {
          AncestryCovers(registry[r].name, p);
        }
      }
    }
  }
}
