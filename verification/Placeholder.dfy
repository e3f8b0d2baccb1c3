/** Placeholder syntax: `${key}` and `${key:default}` inside a property string. The
    scanner with its bracket stack, and the text replacement that substitutes values,
    are related here to strings seen as sequences of tokens.
 */
module Placeholder {
  import opened Collections
  import opened Text

  /** A default as written, and what guessing its type made of it: the same text, or a
      typed scalar that prints as `printed`. */
  datatype Default = Plain(raw: string) | Typed(raw: string, kind: nat, printed: string)
  {
    /** What formatting the parsed default with `%v` gives. */
    function Printed(): string {
      match this
      case Plain(raw) => raw
      case Typed(_, _, printed) => printed
    }
  }

  /** A literal character, or a reference. A string is a unique sequence of these. */
  datatype Token = Ch(c: char) | Ref(key: string, def: Option<Default>)

  function Body(key: string, def: Option<string>): string {
    match def
    case None => key
    case Some(d) => key + ":" + d
  }

  function RawDefault(t: Token): Option<string>
    requires t.Ref?
  {
    match t.def
    case None => None
    case Some(d) => Some(d.raw)
  }

  function TokenText(t: Token): (s: string)
    ensures |s| > 0
  {
    match t
    case Ch(c) => [c]
    case Ref(key, _) => "${" + Body(key, RawDefault(t)) + "}"
  }

  function Render(ts: seq<Token>): string {
    if ts == [] then "" else TokenText(ts[0]) + Render(ts[1..])
  }

  lemma RenderCons(t: Token, ts: seq<Token>)
    ensures Render([t] + ts) == TokenText(t) + Render(ts)
  {
    assert ([t] + ts)[1..] == ts;
  }

  lemma {:induction false} RenderConcat(a: seq<Token>, b: seq<Token>)
    ensures Render(a + b) == Render(a) + Render(b)
  {
    if a == [] {
      assert a + b == b;
    } else {
      var t, rest := a[0], a[1..];
      calc {
        Render(a + b);
        { assert a + b == [t] + (rest + b); RenderCons(t, rest + b); }
        TokenText(t) + Render(rest + b);
        { RenderConcat(rest, b); Regroup(TokenText(t), Render(rest), Render(b)); }
        (TokenText(t) + Render(rest)) + Render(b);
        Render(a) + Render(b);
      }
    }
  }

  /***************************** Scanning *****************************/

  datatype Found = Found(key: string, def: Option<string>)
  datatype Parsed = Nested | Parsed(found: seq<Found>, embedded: bool)

  predicate OpensAt(s: string, i: int) {
    0 <= i && i + 1 < |s| && s[i] == '$' && s[i + 1] == '{'
  }

  /** The text between the brackets, cut at its first colon. */
  function FoundIn(body: string): Found {
    var colon := IndexOf(body, ':');
    if colon < 0 then Found(body, None) else Found(body[..colon], Some(body[colon + 1..]))
  }

  /** `open` holds the index of the bracket of a `${` that is not closed before `i`. */
  predicate OpenBefore(s: string, i: nat, open: Option<nat>) {
    i <= |s| && (open.Some? ==> open.value <= i && open.value < |s| && s[open.value] == '{')
  }

  function Prepend(ph: Found, embeds: bool, rest: Parsed): Parsed {
    match rest
    case Nested => Nested
    case Parsed(found, embedded) => Parsed([ph] + found, embeds || embedded)
  }

  /** What the scanner reports from position `i` on. */
  function Scan(s: string, i: nat, open: Option<nat>): Parsed
    requires OpenBefore(s, i, open)
    decreases |s| - i
  {
    if i == |s| then Parsed([], false)
    else if OpensAt(s, i) then
      if open.Some? then Nested else Scan(s, i + 1, Some(i + 1))
    else if s[i] == '}' && open.Some? then
      Prepend(FoundIn(s[open.value + 1..i]), open.value > 1 || i < |s| - 1, Scan(s, i + 1, None))
    else Scan(s, i + 1, open)
  }

  method ParsePlaceHolder(strValue: string) returns (found: seq<Found>, embedded: bool, nested: bool)
    ensures nested <==> Scan(strValue, 0, None).Nested?
    ensures !nested ==> Scan(strValue, 0, None) == Parsed(found, embedded)
  {
    var stack: seq<nat> := [];
    found, embedded, nested := [], false, false;
    var i := 0;
    ghost var report := Scan(strValue, 0, None);
    while i < |strValue|
      invariant 0 <= i <= |strValue|
      invariant |stack| <= 1 && !nested
      invariant OpenBefore(strValue, i, Top(stack))
      invariant report == Continue(strValue, i, stack, found, embedded)
    {
      if OpensAt(strValue, i) {
        stack := stack + [i + 1];
        if |stack| > 1 {
          nested := true;
          return;
        }
      }
      if strValue[i] == '}' && |stack| >= 1 {
        var left := stack[|stack| - 1];
        stack := stack[..|stack| - 1];
        var ph := FoundIn(strValue[left + 1..i]);
        ContinueClosing(strValue, i, left, found, embedded);
        found := found + [ph];
        if left > 1 || i < |strValue| - 1 {
          embedded := true;
        }
      }
      i := i + 1;
    }
  }

  function Top(stack: seq<nat>): Option<nat> {
    if stack == [] then None else Some(stack[|stack| - 1])
  }

  /** The final report, given what the loop has gathered before position `i`. */
  function Continue(s: string, i: nat, stack: seq<nat>, found: seq<Found>, embedded: bool): Parsed
    requires OpenBefore(s, i, Top(stack))
  {
    match Scan(s, i, Top(stack))
    case Nested => Nested
    case Parsed(more, e) => Parsed(found + more, embedded || e)
  }

  lemma ContinueClosing(s: string, i: nat, left: nat, found: seq<Found>, embedded: bool)
    requires OpenBefore(s, i, Some(left)) && i < |s| && s[i] == '}'
    ensures Continue(s, i, [left], found, embedded) ==
            Continue(s, i + 1, [], found + [FoundIn(s[left + 1..i])], embedded || left > 1 || i < |s| - 1)
  {
    var ph := FoundIn(s[left + 1..i]);
    var rest := Scan(s, i + 1, None);
    assert rest.Parsed? ==> found + ([ph] + rest.found) == (found + [ph]) + rest.found;
  }

  /** A second `${` before the first one is closed. */
  ghost predicate HasNested(s: string, from: nat) {
    exists i, j :: from <= i < j && OpensAt(s, i) && OpensAt(s, j) && '}' !in s[i..j]
  }

  /** A `${` ahead of every closing bracket. */
  ghost predicate OpensFirst(s: string, from: nat) {
    exists j :: from <= j && OpensAt(s, j) && '}' !in s[from..j]
  }

  lemma OpensFirstStep(s: string, i: nat)
    requires i < |s|
    ensures OpensFirst(s, i) <==> OpensAt(s, i) || (s[i] != '}' && OpensFirst(s, i + 1))
  {
    if OpensFirst(s, i) && !OpensAt(s, i) {
      var j :| i <= j && OpensAt(s, j) && '}' !in s[i..j];
      assert s[i..j] == [s[i]] + s[i + 1..j];
    }
    if OpensAt(s, i) {
      assert s[i..i] == "";
    }
    if s[i] != '}' && OpensFirst(s, i + 1) {
      var j :| i + 1 <= j && OpensAt(s, j) && '}' !in s[i + 1..j];
      assert s[i..j] == [s[i]] + s[i + 1..j];
    }
  }

  lemma HasNestedStep(s: string, i: nat)
    requires i < |s|
    ensures HasNested(s, i) <==> HasNested(s, i + 1) || (OpensAt(s, i) && OpensFirst(s, i + 1))
  {
    if HasNested(s, i) && !HasNested(s, i + 1) {
      var k, j :| i <= k < j && OpensAt(s, k) && OpensAt(s, j) && '}' !in s[k..j];
      assert k == i && s[i..j] == [s[i]] + s[i + 1..j];
    }
    if OpensAt(s, i) && OpensFirst(s, i + 1) {
      var j :| i + 1 <= j && OpensAt(s, j) && '}' !in s[i + 1..j];
      assert s[i..j] == [s[i]] + s[i + 1..j];
    }
  }

  lemma {:induction false} ScanNested(s: string, i: nat, open: Option<nat>)
    requires OpenBefore(s, i, open)
    ensures Scan(s, i, open).Nested? <==> HasNested(s, i) || (open.Some? && OpensFirst(s, i))
    decreases |s| - i
  {
    if i < |s| {
      OpensFirstStep(s, i);
      HasNestedStep(s, i);
      if OpensAt(s, i) {
        if open.None? {
          ScanNested(s, i + 1, Some(i + 1));
        }
      } else if s[i] == '}' && open.Some? {
        ScanNested(s, i + 1, None);
      } else {
        ScanNested(s, i + 1, open);
      }
    }
  }

  /** The scanner refuses a string exactly when a second `${` comes before the next `}`. */
  lemma ParseFailsExactlyOnNesting(s: string)
    ensures Scan(s, 0, None).Nested? <==> HasNested(s, 0)
  {
    ScanNested(s, 0, None);
  }

  /** A placeholder that opens at `i` is closed by the bracket at `j`. */
  predicate Closed(s: string, i: nat, j: nat) {
    OpensAt(s, i) && ClosedFrom(s, i + 2, j)
  }

  /** The first closing bracket from `i` on is at `j`. */
  predicate ClosedFrom(s: string, i: nat, j: nat) {
    i <= j < |s| && s[j] == '}' && '}' !in s[i..j]
  }

  /** `f` is found from position `i` on, and stands at `a` to `b`. */
  predicate FoundAt(s: string, i: nat, open: Option<nat>, f: Found, a: nat, b: nat) {
    || (i <= a && Closed(s, a, b) && f == FoundIn(s[a + 2..b]))
    || (open.Some? && a + 1 == open.value && ClosedFrom(s, i, b) && open.value < b && f == FoundIn(s[open.value + 1..b]))
  }

  ghost predicate SomewhereFound(s: string, i: nat, open: Option<nat>, f: Found) {
    exists a: nat, b: nat :: FoundAt(s, i, open, f, a, b)
  }

  lemma ClosedFromStep(s: string, i: nat, j: nat)
    requires i < |s|
    ensures ClosedFrom(s, i, j) <==> if s[i] == '}' then j == i else ClosedFrom(s, i + 1, j)
  {
    if i < j < |s| {
      assert s[i..j] == [s[i]] + s[i + 1..j];
    }
  }

  /** Stepping over one character; the bracket of an opening is not a closing one. */
  lemma FoundStep(s: string, i: nat, open: Option<nat>, f: Found, a: nat, b: nat)
    requires i < |s| && OpenBefore(s, i, open) && !(OpensAt(s, i) && open.Some?)
    ensures FoundAt(s, i, open, f, a, b) <==>
            if OpensAt(s, i) then FoundAt(s, i + 1, Some(i + 1), f, a, b)
            else if s[i] == '}' && open.Some?
            then (a + 1 == open.value && b == i && f == FoundIn(s[open.value + 1..i])) || FoundAt(s, i + 1, None, f, a, b)
            else FoundAt(s, i + 1, open, f, a, b)
  {
    ClosedFromStep(s, i, b);
    if OpensAt(s, i) {
      ClosedFromStep(s, i + 1, b);
    }
  }

  lemma SomewhereStep(s: string, i: nat, open: Option<nat>, f: Found)
    requires i < |s| && OpenBefore(s, i, open) && !(OpensAt(s, i) && open.Some?) && (open.Some? ==> open.value > 0)
    ensures SomewhereFound(s, i, open, f) <==>
            if OpensAt(s, i) then SomewhereFound(s, i + 1, Some(i + 1), f)
            else if s[i] == '}' && open.Some?
            then f == FoundIn(s[open.value + 1..i]) || SomewhereFound(s, i + 1, None, f)
            else SomewhereFound(s, i + 1, open, f)
  {
    var j, next := i + 1, if OpensAt(s, i) then Some(i + 1) else if s[i] == '}' && open.Some? then None else open;
    if a: nat, b: nat :| FoundAt(s, i, open, f, a, b) {
      FoundStep(s, i, open, f, a, b);
    }
    if a: nat, b: nat :| FoundAt(s, j, next, f, a, b) {
      FoundStep(s, i, open, f, a, b);
    }
    if open.Some? && s[i] == '}' {
      FoundStep(s, i, open, f, open.value - 1, i);
    }
  }

  /** What the scanner finds in a text without nesting, closed or not: exactly the bodies of
      the openings that are closed, each up to the next closing bracket. */
  lemma {:induction false} ScanFinds(s: string, i: nat, open: Option<nat>, f: Found)
    requires OpenBefore(s, i, open) && (open.Some? ==> open.value > 0) && Scan(s, i, open).Parsed?
    ensures f in Scan(s, i, open).found <==> SomewhereFound(s, i, open, f)
    decreases |s| - i
  {
    if i < |s| {
      SomewhereStep(s, i, open, f);
      if OpensAt(s, i) {
        ScanFinds(s, i + 1, Some(i + 1), f);
      } else if s[i] == '}' && open.Some? {
        ScanFinds(s, i + 1, None, f);
      } else {
        ScanFinds(s, i + 1, open, f);
      }
    }
  }

  /** In a text without nesting, closed or not, exactly the openings that are closed are
      found, each with what stands between it and the next closing bracket. */
  lemma ScanFindsClosed(s: string, f: Found)
    requires !HasNested(s, 0)
    ensures Scan(s, 0, None).Parsed?
    ensures f in Scan(s, 0, None).found <==>
            exists a: nat, b: nat :: Closed(s, a, b) && f == FoundIn(s[a + 2..b])
  {
    ParseFailsExactlyOnNesting(s);
    ScanFinds(s, 0, None, f);
    if a: nat, b: nat :| Closed(s, a, b) && f == FoundIn(s[a + 2..b]) {
      assert FoundAt(s, 0, None, f, a, b);
    }
    if a: nat, b: nat :| FoundAt(s, 0, None, f, a, b) {
      assert Closed(s, a, b);
    }
  }

  /** The text between the brackets is the key, and behind its first colon the default. */
  lemma FoundInExactly(body: string)
    ensures var f := FoundIn(body); body == Body(f.key, f.def) && ':' !in f.key && (f.def.None? <==> ':' !in body)
  {
    var colon := IndexOf(body, ':');
    if colon >= 0 {
      assert body == body[..colon] + ":" + body[colon + 1..];
    }
  }

  /***************************** Round trip *****************************/

  ghost predicate NoOpening(s: string) {
    forall i :: !OpensAt(s, i)
  }

  /** Keys and defaults the syntax can carry. */
  ghost predicate ValidRef(t: Token)
    requires t.Ref?
  {
    && ':' !in t.key
    && '}' !in Body(t.key, RawDefault(t))
    && NoOpening(Body(t.key, RawDefault(t)))
  }

  /** Literal text without `${`, references the syntax can carry. */
  ghost predicate ValidTokens(ts: seq<Token>) {
    ts == [] ||
    (&& (ts[0].Ref? ==> ValidRef(ts[0]))
     && (|ts| > 1 && ts[0] == Ch('$') ==> ts[1] != Ch('{'))
     && ValidTokens(ts[1..]))
  }

  /** The references of a string, in order. */
  function References(ts: seq<Token>): seq<Found> {
    if ts == [] then []
    else (if ts[0].Ref? then [Found(ts[0].key, RawDefault(ts[0]))] else []) + References(ts[1..])
  }

  lemma {:induction false} ScanBody(s: string, i: nat, end: nat, left: nat)
    requires i <= end < |s| && OpenBefore(s, i, Some(left)) && left < end
    requires s[end] == '}' && forall k | i <= k < end :: s[k] != '}' && !OpensAt(s, k)
    ensures Scan(s, i, Some(left)) == Scan(s, end, Some(left))
    decreases end - i
  {
    if i < end {
      ScanBody(s, i + 1, end, left);
    }
  }

  lemma FoundInBody(t: Token)
    requires t.Ref? && ':' !in t.key
    ensures FoundIn(Body(t.key, RawDefault(t))) == Found(t.key, RawDefault(t))
  {
    var body := Body(t.key, RawDefault(t));
    var colon := IndexOf(body, ':');
    if t.def.Some? {
      assert body[|t.key|] == ':';
      assert body[..|t.key|] == t.key && body[|t.key| + 1..] == t.def.value.raw;
    }
  }

  /** One whole placeholder inside a text. */
  lemma ScanPlaceholder(s: string, i: nat, body: string)
    requires i + |body| + 3 <= |s|
    requires OpensAt(s, i) && s[i + 2..i + 2 + |body|] == body && s[i + 2 + |body|] == '}'
    requires '}' !in body && NoOpening(body)
    ensures var end := i + 3 + |body|;
            Scan(s, i, None) == Prepend(FoundIn(body), i > 0 || end < |s|, Scan(s, end, None))
  {
    var left, end := i + 1, i + 2 + |body|;
    forall k | left <= k < end
      ensures s[k] != '}' && !OpensAt(s, k)
    {
      if k > left {
        var b := k - left - 1;
        assert s[k] == body[b] && body[b] in body;
        assert !OpensAt(body, b);
        assert k + 1 < end ==> s[k + 1] == body[b + 1];
      }
    }
    ScanBody(s, left, end, left);
    assert Scan(s, i, None) == Scan(s, left, Some(left));
  }

  lemma Slice(s: string, a: nat, b: nat, c: nat, d: nat)
    requires a <= b <= |s| && c <= d <= b - a
    ensures s[a..b][c..d] == s[a + c..a + d]
  {
    var t := s[a..b];
    forall k | 0 <= k < d - c
      ensures t[c..d][k] == s[a + c..a + d][k]
    {
      assert t[c..d][k] == t[c + k] == s[a + (c + k)];
    }
  }

  lemma ScanRef(s: string, i: nat, t: Token)
    requires t.Ref? && ValidRef(t)
    requires i + |TokenText(t)| <= |s| && s[i..i + |TokenText(t)|] == TokenText(t)
    ensures var end := i + |TokenText(t)|;
            Scan(s, i, None) ==
            Prepend(Found(t.key, RawDefault(t)), i > 0 || end < |s|, Scan(s, end, None))
  {
    var body, text := Body(t.key, RawDefault(t)), TokenText(t);
    assert text == "${" + body + "}";
    assert s[i] == text[0] && s[i + 1] == text[1] && s[i + 2 + |body|] == text[2 + |body|];
    assert text[2..2 + |body|] == body;
    Slice(s, i, i + |text|, 2, 2 + |body|);
    ScanPlaceholder(s, i, body);
    FoundInBody(t);
  }

  lemma RenderAt(s: string, i: nat, ts: seq<Token>)
    requires i <= |s| && s[i..] == Render(ts) && ts != []
    ensures var next := i + |TokenText(ts[0])|;
            && next <= |s| && s[i..next] == TokenText(ts[0]) && s[next..] == Render(ts[1..])
            && (next < |s| <==> |ts| > 1)
  {
    CutAt(s, i, TokenText(ts[0]), Render(ts[1..]));
    RenderEmpty(ts[1..]);
  }

  lemma RenderEmpty(ts: seq<Token>)
    ensures Render(ts) == "" <==> ts == []
  {
  }

  lemma CutAt(s: string, i: nat, text: string, rest: string)
    requires i <= |s| && s[i..] == text + rest
    ensures i + |text| <= |s| && s[i..i + |text|] == text && s[i + |text|..] == rest && (i + |text| < |s| <==> rest != "")
  {
    assert s[i..i + |text|] == s[i..][..|text|];
    assert s[i + |text|..] == s[i..][|text|..];
  }

  lemma ScanChar(s: string, i: nat, ts: seq<Token>)
    requires ValidTokens(ts) && i <= |s| && s[i..] == Render(ts)
    requires ts != [] && ts[0].Ch?
    ensures i + |TokenText(ts[0])| <= |s|
    ensures Scan(s, i, None) == Scan(s, i + |TokenText(ts[0])|, None)
  {
    RenderAt(s, i, ts);
    assert s[i] == s[i..i + 1][0];
    if |ts| > 1 {
      RenderAt(s, i + 1, ts[1..]);
      var next := i + 1 + |TokenText(ts[1])|;
      assert s[i + 1] == s[i + 1..next][0] == TokenText(ts[1])[0];
    }
  }

  /** What scanning the rendering of `ts` from position `i` must report. */
  function Report(ts: seq<Token>, i: nat): Parsed {
    Parsed(References(ts), References(ts) != [] && (i > 0 || |ts| > 1))
  }

  lemma ReportStep(ts: seq<Token>, i: nat, next: nat)
    requires ts != [] && next > i
    ensures Report(ts, i) ==
            if ts[0].Ref?
            then Prepend(Found(ts[0].key, RawDefault(ts[0])), i > 0 || |ts| > 1, Report(ts[1..], next))
            else Report(ts[1..], next)
  {
    if ts[0].Ch? && |ts| == 1 {
      assert ts[1..] == [];
    }
  }

  lemma {:induction false} ScanRender(s: string, i: nat, ts: seq<Token>)
    requires ValidTokens(ts) && i <= |s| && s[i..] == Render(ts)
    ensures Scan(s, i, None) == Report(ts, i)
    decreases |ts|
  {
    if ts == [] {
      assert i == |s|;
    } else {
      var next := i + |TokenText(ts[0])|;
      RenderAt(s, i, ts);
      ScanRender(s, next, ts[1..]);
      ReportStep(ts, i, next);
      if ts[0].Ref? {
        ScanRefAt(s, i, ts);
      } else {
        ScanChar(s, i, ts);
      }
    }
  }

  lemma ScanRefAt(s: string, i: nat, ts: seq<Token>)
    requires ValidTokens(ts) && i <= |s| && s[i..] == Render(ts) && ts != [] && ts[0].Ref?
    ensures i + |TokenText(ts[0])| <= |s|
    ensures Scan(s, i, None) ==
            Prepend(Found(ts[0].key, RawDefault(ts[0])), i > 0 || |ts| > 1, Scan(s, i + |TokenText(ts[0])|, None))
  {
    RenderAt(s, i, ts);
    ScanRef(s, i, ts[0]);
  }

  /** Scanning undoes rendering: the references come back in order with their defaults,
      and the string counts as embedded exactly when it is more than one placeholder. */
  lemma ParseUndoesRender(ts: seq<Token>)
    requires ValidTokens(ts)
    ensures Scan(Render(ts), 0, None) == Parsed(References(ts), References(ts) != [] && |ts| > 1)
  {
    ScanRender(Render(ts), 0, ts);
  }

  lemma ReferencesCons(u: Token, ts: seq<Token>)
    requires u.Ref?
    ensures References([u] + ts) == [Found(u.key, RawDefault(u))] + References(ts)
  {
    ConsTail(u, ts);
  }

  lemma OneRef(u: Token)
    requires u.Ref? && ValidRef(u)
    ensures ValidTokens([u]) && Render([u]) == TokenText(u) && References([u]) == [Found(u.key, RawDefault(u))]
    ensures PlaceholderText(TokenText(u))
  {
    EmptyRight([u]);
    RenderCons(u, []);
    EmptyRight(TokenText(u));
    ReferencesCons(u, []);
    EmptyRight([Found(u.key, RawDefault(u))]);
    assert [u][1..] == [] && TokenText(u) == "${" + Body(u.key, RawDefault(u)) + "}";
  }

  /** A text that is one placeholder. */
  lemma LoneScan(u: Token)
    requires u.Ref? && ValidRef(u)
    ensures Scan(TokenText(u), 0, None) == Parsed([Found(u.key, RawDefault(u))], false)
  {
    OneRef(u);
    ParseUndoesRender([u]);
  }

  /***************************** Replacement *****************************/

  /** `strings.Replace` without a limit, for a non-empty pattern. */
  function ReplaceAll(s: string, pat: string, sub: string): string
    requires pat != ""
  {
    if |s| < |pat| then s
    else if pat <= s then sub + ReplaceAll(s[|pat|..], pat, sub)
    else [s[0]] + ReplaceAll(s[1..], pat, sub)
  }

  /** The same on tokens: every reference written as `pat` gives way to `with`. */
  function ReplaceTokens(ts: seq<Token>, pat: string, with: seq<Token>): seq<Token> {
    if ts == [] then []
    else (if ts[0].Ref? && TokenText(ts[0]) == pat then with else [ts[0]])
         + ReplaceTokens(ts[1..], pat, with)
  }

  /** The text of one placeholder: nothing opens or closes inside. */
  ghost predicate PlaceholderText(s: string) {
    exists body :: s == "${" + body + "}" && NoOpening(body) && '}' !in body
  }

  /** A dollar is followed by another character than a bracket. */
  predicate Quiet(s: string) {
    forall k | 0 <= k < |s| && s[k] == '$' :: k + 1 < |s| && s[k + 1] != '{'
  }

  /** Literal text without `${`, and references that can be written and searched for. */
  ghost predicate Written(ts: seq<Token>) {
    ts == [] ||
    (&& (ts[0].Ref? ==> PlaceholderText(TokenText(ts[0])))
     && (|ts| > 1 && ts[0] == Ch('$') ==> ts[1] != Ch('{'))
     && Written(ts[1..]))
  }

  lemma {:induction false} ReplaceSkip(a: string, s: string, pat: string, sub: string)
    requires Quiet(a) && |pat| >= 2 && pat[0] == '$' && pat[1] == '{'
    ensures ReplaceAll(a + s, pat, sub) == a + ReplaceAll(s, pat, sub)
  {
    if a == "" {
      assert a + s == s;
    } else {
      ReplaceSkip(a[1..], s, pat, sub);
      HeadOfConcat(a, s);
      NoMatchAt(a, s, pat);
      ReplaceOne(a + s, pat, sub);
      HeadOfConcat(a, ReplaceAll(s, pat, sub));
    }
  }

  lemma NoMatchAt(a: string, s: string, pat: string)
    requires Quiet(a) && a != "" && |pat| >= 2 && pat[0] == '$' && pat[1] == '{'
    ensures !(pat <= a + s)
  {
    assert (a + s)[0] == a[0];
    if a[0] == '$' {
      assert (a + s)[1] == a[1];
    }
  }

  lemma ReplaceHit(pat: string, s: string, sub: string)
    requires pat != ""
    ensures ReplaceAll(pat + s, pat, sub) == sub + ReplaceAll(s, pat, sub)
  {
    assert (pat + s)[|pat|..] == s;
  }

  lemma PlaceholderShape(s: string) returns (body: string)
    requires PlaceholderText(s)
    ensures s == "${" + body + "}" && NoOpening(body) && '}' !in body
    ensures |s| == |body| + 3 && s[0] == '$' && s[1] == '{' && s[|s| - 1] == '}'
    ensures Quiet(s[1..])
    ensures forall k | 0 <= k < |s| - 1 :: s[k] != '}'
  {
    body :| s == "${" + body + "}" && NoOpening(body) && '}' !in body;
    forall k | 2 <= k < |s| - 1
      ensures s[k] == body[k - 2] && s[k] in body
    {
    }
    BodyIsQuiet(body);
    assert s[1..] == "{" + body + "}";
  }

  lemma BodyIsQuiet(body: string)
    requires NoOpening(body)
    ensures Quiet("{" + body + "}")
  {
    var s := "{" + body + "}";
    forall k | 0 <= k < |s| && s[k] == '$'
      ensures k + 1 < |s| && s[k + 1] != '{'
    {
      assert 1 <= k <= |body| && s[k] == body[k - 1];
      if k < |body| {
        assert s[k + 1] == body[k];
        assert !OpensAt(body, k - 1);
      }
    }
  }

  /** No placeholder text is a proper prefix of another one. */
  lemma PlaceholderPrefixFree(text: string, s: string, pat: string)
    requires PlaceholderText(text) && PlaceholderText(pat) && pat <= text + s
    ensures pat == text
  {
    var b := PlaceholderShape(text);
    var c := PlaceholderShape(pat);
    var last := (if |pat| < |text| then |pat| else |text|) - 1;
    assert pat[last] == (text + s)[last] == text[last];
    assert (text + s)[..|text|] == text;
  }

  lemma ReplaceMiss(text: string, s: string, pat: string, sub: string)
    requires PlaceholderText(text) && PlaceholderText(pat) && pat != text
    ensures ReplaceAll(text + s, pat, sub) == text + ReplaceAll(s, pat, sub)
  {
    var b := PlaceholderShape(text);
    var c := PlaceholderShape(pat);
    if pat <= text + s {
      PlaceholderPrefixFree(text, s, pat);
    }
    HeadOfConcat(text, s);
    ReplaceOne(text + s, pat, sub);
    ReplaceSkip(text[1..], s, pat, sub);
    HeadOfConcat(text, ReplaceAll(s, pat, sub));
  }

  /** One character is copied where the pattern does not match. */
  lemma ReplaceOne(s: string, pat: string, sub: string)
    requires s != "" && pat != "" && !(pat <= s)
    ensures ReplaceAll(s, pat, sub) == [s[0]] + ReplaceAll(s[1..], pat, sub)
  {
    assert s == [s[0]] + s[1..];
  }

  /** No placeholder begins at a literal. */
  lemma LiteralStays(ts: seq<Token>, pat: string)
    requires Written(ts) && ts != [] && ts[0].Ch? && |pat| >= 2 && pat[0] == '$' && pat[1] == '{'
    ensures !(pat <= TokenText(ts[0]) + Render(ts[1..]))
  {
    var s := TokenText(ts[0]) + Render(ts[1..]);
    assert s[0] == ts[0].c;
    if |ts| > 1 && ts[0].c == '$' {
      assert s[1] == Render(ts[1..])[0] == TokenText(ts[1])[0];
    }
  }

  /** Replacing placeholder text in a rendered string is replacing tokens. */
  lemma {:induction false} ReplaceIsTokenwise(ts: seq<Token>, pat: string, with: seq<Token>)
    requires Written(ts) && PlaceholderText(pat)
    ensures ReplaceAll(Render(ts), pat, Render(with)) == Render(ReplaceTokens(ts, pat, with))
  {
    var sub := Render(with);
    var body := PlaceholderShape(pat);
    if ts != [] {
      var text, rest := TokenText(ts[0]), ts[1..];
      ReplaceIsTokenwise(rest, pat, with);
      RenderConcat(if ts[0].Ref? && text == pat then with else [ts[0]], ReplaceTokens(rest, pat, with));
      RenderCons(ts[0], []);
      if ts[0].Ch? {
        LiteralStays(ts, pat);
        ReplaceOne(text + Render(rest), pat, sub);
        HeadOfConcat(text, Render(rest));
      } else if text == pat {
        ReplaceHit(pat, Render(rest), sub);
      } else {
        ReplaceMiss(text, Render(rest), pat, sub);
      }
    }
  }
}
