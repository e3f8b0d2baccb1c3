/** Migration versions: lists of numbers, their order, and their text. */
module Versions {
  import opened Text

  type Version = seq<int>

  /** Every component is a machine integer. */
  predicate IsVersion(v: Version) {
    forall n | n in v :: IsInt(n)
  }

  /** Component by component; a proper prefix comes first. */
  predicate Lt(v: Version, other: Version) {
    if v == [] then other != []
    else if other == [] then false
    else v[0] < other[0] || (v[0] == other[0] && Lt(v[1..], other[1..]))
  }

  method CompareLoop(v: Version, other: Version) returns (lt: bool)
    ensures lt == Lt(v, other) && (lt <==> ComesBefore(v, other))
  {
    LtExactly(v, other);
    var maxLen := |v|;
    if |other| < maxLen {
      maxLen := |other|;
    }
    var n := 0;
    assert v[0..] == v && other[0..] == other;
    while n < maxLen
      invariant 0 <= n <= maxLen
      invariant Lt(v, other) == Lt(v[n..], other[n..])
    {
      if v[n] < other[n] {
        return true;
      }
      if v[n] > other[n] {
        return false;
      }
      assert v[n..][1..] == v[n + 1..] && other[n..][1..] == other[n + 1..];
      n := n + 1;
    }
    return |v| < |other|;
  }

  /** The first difference decides; where there is none, the shorter version comes first. */
  ghost predicate ComesBefore(v: Version, other: Version) {
    v < other || exists i :: 0 <= i < |v| && i < |other| && v[..i] == other[..i] && v[i] < other[i]
  }

  lemma BeforeCons(n: int, v: Version, w: Version)
    ensures ComesBefore([n] + v, [n] + w) <==> ComesBefore(v, w)
  {
    var a, b := [n] + v, [n] + w;
    assert v == a[1..] && w == b[1..];
    if i :| 0 <= i < |v| && i < |w| && v[..i] == w[..i] && v[i] < w[i] {
      assert a[..i + 1] == [n] + v[..i] && b[..i + 1] == [n] + w[..i] && a[i + 1] < b[i + 1];
    }
    if i :| 0 <= i < |a| && i < |b| && a[..i] == b[..i] && a[i] < b[i] {
      assert i > 0 && v[..i - 1] == a[..i][1..] && w[..i - 1] == b[..i][1..] && v[i - 1] < w[i - 1];
    }
  }

  /** With different first components, these decide. */
  lemma FirstDecides(v: Version, w: Version)
    requires v != [] && w != [] && v[0] != w[0]
    ensures ComesBefore(v, w) <==> v[0] < w[0]
  {
    assert v[..0] == w[..0];
    assert forall i | 0 < i <= |v| :: v[..i][0] == v[0];
    assert forall i | 0 < i <= |w| :: w[..i][0] == w[0];
  }

  lemma {:induction false} LtExactly(v: Version, other: Version)
    ensures Lt(v, other) <==> ComesBefore(v, other)
  {
    if v != [] && other != [] {
      if v[0] == other[0] {
        LtExactly(v[1..], other[1..]);
        assert v == [v[0]] + v[1..] && other == [v[0]] + other[1..];
        BeforeCons(v[0], v[1..], other[1..]);
      } else {
        FirstDecides(v, other);
      }
    }
  }

  lemma {:induction false} LtTransitive(a: Version, b: Version, c: Version)
    requires Lt(a, b) && Lt(b, c)
    ensures Lt(a, c)
  {
    if a != [] && a[0] == b[0] == c[0] {
      LtTransitive(a[1..], b[1..], c[1..]);
    }
  }

  /** Of two versions, exactly one of before, after and equal holds. */
  lemma {:induction false} LtTotal(a: Version, b: Version)
    ensures Lt(a, b) || Lt(b, a) || a == b
    ensures !(Lt(a, b) && Lt(b, a)) && !Lt(a, a)
  {
    if a != [] && b != [] {
      LtTotal(a[1..], b[1..]);
      assert a == [a[0]] + a[1..] && b == [b[0]] + b[1..];
    }
    if a != [] {
      LtTotal(a[1..], a[1..]);
    }
  }

  /***************************** Text *****************************/

  function Components(v: Version): (parts: seq<string>)
    ensures |parts| == |v| && forall i | 0 <= i < |v| :: parts[i] == Itoa(v[i])
  {
    seq(|v|, i requires 0 <= i < |v| => Itoa(v[i]))
  }

  function String(v: Version): string {
    if v == [] then "" else Join(Components(v), '.')
  }

  lemma StringOne(n: int)
    ensures String([n]) == Itoa(n)
  {
    assert Components([n]) == [Itoa(n)];
  }

  /** Components are separated by dots. */
  lemma {:induction false} StringConcat(v: Version, w: Version)
    requires v != [] && w != []
    ensures String(v + w) == String(v) + "." + String(w)
    decreases |w|
  {
    var init, n := w[..|w| - 1], w[|w| - 1];
    assert w == init + [n] && v + w == v + init + [n];
    StringMore(v + init, n);
    if init == [] {
      assert v + init == v && w == [n];
      StringOne(n);
    } else {
      StringConcat(v, init);
      StringMore(init, n);
      SameText(String(v), String(init), Itoa(n));
    }
  }

  lemma SameText(a: string, b: string, c: string)
    ensures a + "." + b + "." + c == a + "." + (b + "." + c)
  {
  }

  lemma StringMore(v: Version, n: int)
    requires v != []
    ensures String(v + [n]) == String(v) + "." + Itoa(n)
  {
    assert Components(v + [n]) == Components(v) + [Itoa(n)];
    JoinSnoc(Components(v), Itoa(n), '.');
  }

  /** The loop that writes a dot before every component but the first. */
  method WriteString(v: Version) returns (s: string)
    ensures s == String(v)
  {
    s := "";
    for i := 0 to |v|
      invariant s == String(v[..i]) && (s == "" <==> i == 0)
    {
      AtoiItoa(v[i]);
      if i > 0 {
        JoinSnoc(Components(v[..i]), Itoa(v[i]), '.');
      }
      assert Components(v[..i + 1]) == Components(v[..i]) + [Itoa(v[i])];
      if |s| > 0 {
        s := s + ".";
      }
      s := s + Itoa(v[i]);
    }
    assert v[..|v|] == v;
  }

  /** All components parsed, or nothing. */
  function ParseAll(parts: seq<string>): Option<Version> {
    if parts == [] then Some([])
    else
      match Atoi(parts[0])
      case None => None
      case Some(n) =>
        match ParseAll(parts[1..])
        case None => None
        case Some(rest) => Some([n] + rest)
  }

  function FromString(source: string): Option<Version> {
    ParseAll(Split(source, '.'))
  }

  method ReadString(source: string) returns (r: Option<Version>)
    ensures r == FromString(source)
  {
    var parts := Split(source, '.');
    var numbers: Version := [];
    var i := 0;
    ghost var goal := ParseAll(parts);
    assert parts[0..] == parts;
    assert goal.Some? ==> [] + goal.value == goal.value;
    while i < |parts|
      invariant 0 <= i <= |parts|
      invariant goal == After(numbers, ParseAll(parts[i..]))
    {
      assert parts[i..][1..] == parts[i + 1..];
      match Atoi(parts[i]) {
        case None => return None;
        case Some(n) =>
          var rest := ParseAll(parts[i + 1..]);
          assert rest.Some? ==> (numbers + [n]) + rest.value == numbers + ([n] + rest.value);
          numbers := numbers + [n];
      }
      i := i + 1;
    }
    assert parts[i..] == [] && numbers + [] == numbers;
    return Some(numbers);
  }

  function After(numbers: Version, rest: Option<Version>): Option<Version> {
    if rest.Some? then Some(numbers + rest.value) else None
  }

  lemma {:induction false} ParseComponents(v: Version)
    requires IsVersion(v)
    ensures ParseAll(Components(v)) == Some(v)
  {
    if v != [] {
      AtoiItoa(v[0]);
      assert v[0] in v;
      ParseComponents(v[1..]);
      assert Components(v)[1..] == Components(v[1..]);
      assert v == [v[0]] + v[1..];
    }
  }

  lemma DotFree(n: int)
    ensures '.' !in Itoa(n)
  {
    AtoiItoa(n);
  }

  /** Parsing undoes printing exactly for versions with at least one component. */
  lemma RoundTrip(v: Version)
    requires IsVersion(v)
    ensures FromString(String(v)) == Some(v) <==> v != []
  {
    if v == [] {
      assert Split("", '.') == [""];
      assert Atoi("") == None;
    } else {
      forall i | 0 <= i < |v|
        ensures '.' !in Components(v)[i]
      {
        DotFree(v[i]);
      }
      SplitJoin(Components(v), '.');
      ParseComponents(v);
    }
  }

  /** Different versions have different texts. */
  lemma StringInjective(v: Version, w: Version)
    requires IsVersion(v) && IsVersion(w) && String(v) == String(w)
    ensures v == w
  {
    RoundTrip(v);
    RoundTrip(w);
    assert v == [] || w == [] ==> FromString(String(v)).None? || v == w;
  }
}
