/** Property keys and logger keys: camel case is rewritten to lower-case words joined
    by dashes, and dotted keys are rewritten segment by segment. ASCII text only.
 */
module KeyFormat {
  import opened Collections
  import opened Text

  predicate IsUpper(c: char) {
    'A' <= c <= 'Z'
  }

  predicate IsLower(c: char) {
    'a' <= c <= 'z'
  }

  function ToLower(c: char): char {
    if IsUpper(c) then (c as int + 32) as char else c
  }

  /** What one character of `s` becomes. */
  function Converted(s: string, i: nat): string
    requires i < |s|
  {
    if IsUpper(s[i]) && i > 0 && IsLower(s[i - 1]) then ['-', ToLower(s[i])] else [ToLower(s[i])]
  }

  function CamelToSnakeCase(s: string): string {
    if s == "" then "" else CamelToSnakeCase(s[..|s| - 1]) + Converted(s, |s| - 1)
  }

  /** Converts one character at a time, looking back at the one before. */
  method ConvertCamelCase(camelCase: string) returns (converted: string)
    ensures converted == CamelToSnakeCase(camelCase)
  {
    converted := "";
    for pos := 0 to |camelCase|
      invariant converted == CamelToSnakeCase(camelCase[..pos])
    {
      var c := camelCase[pos];
      if IsUpper(c) {
        if pos > 0 && IsLower(camelCase[pos - 1]) {
          converted := converted + "-";
        }
        converted := converted + [ToLower(c)];
      } else {
        converted := converted + [ToLower(c)];
      }
      assert camelCase[..pos + 1][..pos] == camelCase[..pos];
      assert Converted(camelCase[..pos + 1], pos) == Converted(camelCase, pos);
    }
    assert camelCase[..|camelCase|] == camelCase;
  }

  /** The small letter of a capital, found by its place in the alphabet; other characters as
      they are. */
  predicate IsSmallOf(c: char, r: char) {
    if 'A' <= c <= 'Z' then 'a' <= r <= 'z' && r as int - 'a' as int == c as int - 'A' as int else r == c
  }

  /** Character `i` of `s` is at place `at[i]` of `r`, in small. It comes right behind its
      neighbour, except that there is a dash between a small letter and a capital. */
  predicate PlacedAt(s: string, r: string, at: seq<nat>, i: nat)
    requires i < |s| == |at|
  {
    && at[i] < |r| && IsSmallOf(s[i], r[at[i]])
    && if i == 0 then at[0] == 0
       else if 'a' <= s[i - 1] <= 'z' && 'A' <= s[i] <= 'Z' then at[i] == at[i - 1] + 2 && r[at[i - 1] + 1] == '-'
       else at[i] == at[i - 1] + 1
  }

  /** Every character has its place in `r`, and there is nothing else in it. */
  ghost predicate Spread(s: string, r: string, at: seq<nat>) {
    && |at| == |s| && |r| == (if s == "" then 0 else at[|s| - 1] + 1)
    && forall i | 0 <= i < |s| :: PlacedAt(s, r, at, i)
  }

  /** The dash that goes before `c`, if any. */
  function DashBefore(s: string, c: char): string {
    if s != "" && 'a' <= s[|s| - 1] <= 'z' && 'A' <= c <= 'Z' then "-" else ""
  }

  lemma SnakeMore(s: string, c: char)
    ensures CamelToSnakeCase(s + [c]) == CamelToSnakeCase(s) + DashBefore(s, c) + [ToLower(c)]
    ensures IsSmallOf(c, ToLower(c))
  {
    var t := s + [c];
    assert t[..|s|] == s && t[|s|] == c && (s != "" ==> t[|s| - 1] == s[|s| - 1]);
    assert Converted(t, |s|) == DashBefore(s, c) + [ToLower(c)];
    Regroup(CamelToSnakeCase(s), DashBefore(s, c), [ToLower(c)]);
  }

  lemma {:induction false} SnakeSpreads(s: string) returns (at: seq<nat>)
    ensures Spread(s, CamelToSnakeCase(s), at)
  {
    if s == "" {
      at := [];
    } else {
      var init, c := s[..|s| - 1], s[|s| - 1];
      var before := SnakeSpreads(init);
      at := before + [|CamelToSnakeCase(init)| + |DashBefore(init, c)|];
      SpreadMore(init, CamelToSnakeCase(init), before, c, DashBefore(init, c), ToLower(c));
      SnakeMore(init, c);
      assert s == init + [c];
    }
  }

  lemma SpreadMore(s: string, r: string, at: seq<nat>, c: char, dash: string, d: char)
    requires Spread(s, r, at) && IsSmallOf(c, d)
    requires dash == DashBefore(s, c)
    ensures Spread(s + [c], r + dash + [d], at + [|r| + |dash|])
  {
    var s', r', at' := s + [c], r + dash + [d], at + [|r| + |dash|];
    forall i | 0 <= i < |s|
      ensures PlacedAt(s', r', at', i)
    {
      assert PlacedAt(s, r, at, i) && (i > 0 ==> PlacedAt(s, r, at, i - 1));
    }
    assert s != "" ==> PlacedAt(s, r, at, |s| - 1);
    assert PlacedAt(s', r', at', |s|);
  }

  predicate NoUpper(s: string) {
    forall c | c in s :: !IsUpper(c)
  }

  lemma {:induction false} SnakeHasNoUpper(s: string)
    ensures NoUpper(CamelToSnakeCase(s))
  {
    if s != "" {
      SnakeHasNoUpper(s[..|s| - 1]);
    }
  }

  /** The texts the conversion leaves alone are exactly those without capitals. */
  lemma {:induction false} SnakeFixpoint(s: string)
    ensures NoUpper(s) <==> CamelToSnakeCase(s) == s
  {
    if NoUpper(s) {
      if s != "" {
        SnakeFixpoint(s[..|s| - 1]);
        assert s == s[..|s| - 1] + [s[|s| - 1]];
        assert s[|s| - 1] in s;
      }
    } else {
      SnakeHasNoUpper(s);
    }
  }

  /** No dash is ever inserted across a character that is not a small letter. */
  lemma {:induction false} SnakeConcat(a: string, c: char, b: string)
    requires !IsLower(c)
    ensures CamelToSnakeCase(a + [c] + b) == CamelToSnakeCase(a + [c]) + CamelToSnakeCase(b)
  {
    if b == "" {
      EmptyRight(a + [c]);
      EmptyRight(CamelToSnakeCase(a + [c]));
    } else {
      SnakeConcat(a, c, b[..|b| - 1]);
      LastConverted(a, c, b);
      Regroup(CamelToSnakeCase(a + [c]), CamelToSnakeCase(b[..|b| - 1]), Converted(b, |b| - 1));
    }
  }

  lemma LastConverted(a: string, c: char, b: string)
    requires !IsLower(c) && b != ""
    ensures var s := a + [c] + b;
            s[..|s| - 1] == a + [c] + b[..|b| - 1] && Converted(s, |s| - 1) == Converted(b, |b| - 1)
  {
  }

  function SnakeEach(parts: seq<string>): (r: seq<string>)
    ensures |r| == |parts|
    ensures forall i | 0 <= i < |parts| :: r[i] == CamelToSnakeCase(parts[i])
  {
    seq(|parts|, i requires 0 <= i < |parts| => CamelToSnakeCase(parts[i]))
  }

  function NormalizeKey(key: string): string {
    Join(SnakeEach(Split(key, '.')), '.')
  }

  /** Converts one segment at a time and joins them with dots. */
  method NormalizeSegments(key: string) returns (result: string)
    ensures result == NormalizeKey(key)
  {
    var keys := Split(key, '.');
    result := "";
    var i := 0;
    while i < |keys|
      invariant 0 <= i <= |keys|
      invariant i > 0 ==>
                  result == Join(SnakeEach(keys[..i]), '.') + (if i < |keys| then "." else "")
      invariant i == 0 ==> result == ""
    {
      var converted := ConvertCamelCase(keys[i]);
      OneMoreSegment(keys, i);
      result := result + converted;
      if i < |keys| - 1 {
        result := result + ".";
      }
      i := i + 1;
    }
    assert keys[..|keys|] == keys;
  }

  lemma OneMoreSegment(keys: seq<string>, i: nat)
    requires i < |keys|
    ensures Join(SnakeEach(keys[..i + 1]), '.') ==
            (if i > 0 then Join(SnakeEach(keys[..i]), '.') + "." else "") + CamelToSnakeCase(keys[i])
  {
    assert keys[..i + 1] == keys[..i] + [keys[i]];
    SnakeEachConcat(keys[..i], [keys[i]]);
    SnakeEachConcat([keys[i]], []);
    if i > 0 {
      JoinSnoc(SnakeEach(keys[..i]), CamelToSnakeCase(keys[i]), '.');
    }
  }

  lemma NormalizeHead(head: string, tail: string)
    requires '.' !in head
    ensures NormalizeKey(head + "." + tail) == CamelToSnakeCase(head) + "." + NormalizeKey(tail)
  {
    SplitHead(head, '.', tail);
    SnakeEachConcat([head], Split(tail, '.'));
    JoinCons(CamelToSnakeCase(head), SnakeEach(Split(tail, '.')), '.');
  }

  lemma SnakeEachConcat(a: seq<string>, b: seq<string>)
    ensures SnakeEach(a + b) == SnakeEach(a) + SnakeEach(b)
    ensures |a| == 1 ==> SnakeEach(a) == [CamelToSnakeCase(a[0])]
  {
  }

  lemma SnakeDot(head: string, tail: string)
    ensures CamelToSnakeCase(head + "." + tail) == CamelToSnakeCase(head) + "." + CamelToSnakeCase(tail)
  {
    SnakeConcat(head, '.', tail);
    assert (head + ".")[..|head|] == head;
    assert Converted(head + ".", |head|) == ".";
  }

  /** Converting segment by segment is converting the whole key. */
  lemma {:induction false} NormalizeIsSnake(key: string)
    ensures NormalizeKey(key) == CamelToSnakeCase(key)
    decreases |key|
  {
    var at := IndexOf(key, '.');
    if at < 0 {
      SplitOne(key, '.');
    } else {
      var head, tail := key[..at], key[at + 1..];
      assert key == head + "." + tail;
      NormalizeHead(head, tail);
      SnakeDot(head, tail);
      NormalizeIsSnake(tail);
    }
  }

  /** Normalising twice is normalising once, and the normalised keys are exactly the
      keys without capitals. */
  lemma NormalizeIdempotent(key: string)
    ensures NormalizeKey(NormalizeKey(key)) == NormalizeKey(key)
    ensures NormalizeKey(key) == key <==> NoUpper(key)
  {
    NormalizeIsSnake(key);
    NormalizeIsSnake(NormalizeKey(key));
    SnakeHasNoUpper(key);
    SnakeFixpoint(key);
    SnakeFixpoint(CamelToSnakeCase(key));
  }
}
