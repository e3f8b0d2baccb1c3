/** Strings are handled as text by the program and as tokens by the model. The two agree as
    long as no replacement brings a literal dollar before a literal bracket. When one does is
    said exactly, and two ways to keep a whole configuration from it are shown to be kept by
    resolution.
 */
module StringLevel {
  import opened Collections
  import opened Text
  import opened Placeholder
  import opened Resolver

  /** `fmt.Sprint` of a resolved value. */
  function Sprint(v: Value): string {
    Render(Printed(v))
  }

  /** The loop of `strings.Replace` calls. */
  function ReplaceTexts(s: string, es: seq<Entry>): string
    requires forall e | e in es :: e.search != ""
    decreases |es|
  {
    if es == [] then s
    else assert es[0] in es; ReplaceTexts(ReplaceAll(s, es[0].search, Sprint(es[0].value)), es[1..])
  }

  /** No replacement in the series makes literal text read `${`. */
  ghost predicate StaysWritten(ts: seq<Token>, es: seq<Entry>)
    decreases |es|
  {
    && Written(ts)
    && (es == [] ||
        (&& PlaceholderText(es[0].search)
         && StaysWritten(ReplaceTokens(ts, es[0].search, Printed(es[0].value)), es[1..])))
  }

  /** Replacing on text, one placeholder after the other, is replacing on tokens. */
  lemma {:induction false} TextsFollowTokens(ts: seq<Token>, es: seq<Entry>)
    requires StaysWritten(ts, es)
    ensures forall e | e in es :: e.search != ""
    ensures ReplaceTexts(Render(ts), es) == Render(ReplaceEntries(ts, es))
    decreases |es|
  {
    if es != [] {
      var e := es[0];
      ReplaceIsTokenwise(ts, e.search, Printed(e.value));
      TextsFollowTokens(ReplaceTokens(ts, e.search, Printed(e.value)), es[1..]);
    }
  }

  lemma {:induction false} RenderChars(s: string)
    ensures Render(Chars(s)) == s
  {
    if s != "" {
      RenderChars(s[1..]);
      assert Chars(s)[1..] == Chars(s[1..]);
      assert s == [s[0]] + s[1..];
    }
  }

  /***************************** When a replacement makes `${` *****************************/

  predicate EndsInDollar(ts: seq<Token>) {
    ts != [] && ts[|ts| - 1] == Ch('$')
  }

  predicate BeginsWithBracket(ts: seq<Token>) {
    ts != [] && ts[0] == Ch('{')
  }

  lemma {:induction false} WrittenConcat(a: seq<Token>, b: seq<Token>)
    ensures Written(a + b) <==> Written(a) && Written(b) && !(EndsInDollar(a) && BeginsWithBracket(b))
  {
    if a == [] {
      EmptyLeft(b);
    } else {
      HeadOfConcat(a, b);
      WrittenConcat(a[1..], b);
      assert |a| > 1 ==> (a + b)[1] == a[1];
      assert |a| == 1 && b != [] ==> (a + b)[1] == b[0];
    }
  }

  predicate Replaced(t: Token, pat: string) {
    t.Ref? && TokenText(t) == pat
  }

  /** At position `i` a literal dollar is, or a value that ends in one is put. */
  predicate DollarAt(ts: seq<Token>, pat: string, with: seq<Token>, i: nat)
    requires i < |ts|
  {
    if Replaced(ts[i], pat) then EndsInDollar(with) else ts[i] == Ch('$')
  }

  /** At position `j` a literal bracket is, or a value that begins with one is put. */
  predicate BracketAt(ts: seq<Token>, pat: string, with: seq<Token>, j: nat)
    requires j < |ts|
  {
    if Replaced(ts[j], pat) then BeginsWithBracket(with) else ts[j] == Ch('{')
  }

  /** Nothing is left between positions `i` and `j`. */
  predicate GoneBetween(ts: seq<Token>, pat: string, with: seq<Token>, i: int, j: nat)
    requires -1 <= i && j <= |ts|
  {
    (i + 1 < j ==> with == []) && forall k | i < k < j :: Replaced(ts[k], pat)
  }

  /** The dollar at `i` comes to stand right before the bracket at `j`. */
  predicate MeetsAt(ts: seq<Token>, pat: string, with: seq<Token>, i: int, j: int) {
    && 0 <= i < j < |ts|
    && DollarAt(ts, pat, with, i) && BracketAt(ts, pat, with, j) && GoneBetween(ts, pat, with, i, j)
  }

  ghost predicate Meets(ts: seq<Token>, pat: string, with: seq<Token>) {
    exists i, j :: MeetsAt(ts, pat, with, i, j)
  }

  /** The first thing left is the bracket at `j`. */
  predicate FirstLeft(ts: seq<Token>, pat: string, with: seq<Token>, j: int) {
    0 <= j < |ts| && BracketAt(ts, pat, with, j) && GoneBetween(ts, pat, with, -1, j)
  }

  ghost predicate Opens(ts: seq<Token>, pat: string, with: seq<Token>) {
    exists j :: FirstLeft(ts, pat, with, j)
  }

  lemma GoneTail(ts: seq<Token>, pat: string, with: seq<Token>, i: int, j: nat)
    requires ts != [] && -1 <= i < j < |ts[1..]|
    ensures GoneBetween(ts[1..], pat, with, i, j) <==> GoneBetween(ts, pat, with, i + 1, j + 1)
  {
    if GoneBetween(ts[1..], pat, with, i, j) {
      forall k | i + 1 < k < j + 1
        ensures Replaced(ts[k], pat)
      {
        assert ts[1..][k - 1] == ts[k];
        assert Replaced(ts[1..][k - 1], pat);
      }
    }
    if GoneBetween(ts, pat, with, i + 1, j + 1) {
      forall k | i < k < j
        ensures Replaced(ts[1..][k], pat)
      {
        assert ts[1..][k] == ts[k + 1];
        assert Replaced(ts[k + 1], pat);
      }
    }
  }

  lemma FirstLeftTail(ts: seq<Token>, pat: string, with: seq<Token>, j: int)
    requires ts != [] && j > 0
    ensures FirstLeft(ts, pat, with, j) <==>
            Replaced(ts[0], pat) && with == [] && FirstLeft(ts[1..], pat, with, j - 1)
  {
    if j < |ts| {
      assert ts[1..][j - 1] == ts[j];
      GoneTail(ts, pat, with, -1, j - 1);
      GoneFromStart(ts, pat, with, j);
    }
  }

  lemma GoneFromStart(ts: seq<Token>, pat: string, with: seq<Token>, j: nat)
    requires 0 < j < |ts|
    ensures GoneBetween(ts, pat, with, -1, j) <==>
            Replaced(ts[0], pat) && with == [] && GoneBetween(ts, pat, with, 0, j)
  {
    if GoneBetween(ts, pat, with, -1, j) {
      assert Replaced(ts[0], pat);
    }
  }

  lemma MeetsAtTail(ts: seq<Token>, pat: string, with: seq<Token>, i: int, j: int)
    requires ts != []
    ensures i > 0 ==> (MeetsAt(ts, pat, with, i, j) <==> MeetsAt(ts[1..], pat, with, i - 1, j - 1))
    ensures MeetsAt(ts, pat, with, 0, j) <==> DollarAt(ts, pat, with, 0) && FirstLeft(ts[1..], pat, with, j - 1)
  {
    if 0 <= i < j < |ts| {
      assert ts[1..][j - 1] == ts[j];
      GoneTail(ts, pat, with, i - 1, j - 1);
      if i > 0 {
        assert ts[1..][i - 1] == ts[i];
      }
    }
    if 0 < j < |ts| {
      assert ts[1..][j - 1] == ts[j];
      GoneTail(ts, pat, with, -1, j - 1);
    }
  }

  lemma OpensTail(ts: seq<Token>, pat: string, with: seq<Token>)
    requires ts != []
    ensures Opens(ts, pat, with) <==>
            BracketAt(ts, pat, with, 0) || (Replaced(ts[0], pat) && with == [] && Opens(ts[1..], pat, with))
  {
    if j :| FirstLeft(ts, pat, with, j) && j > 0 {
      FirstLeftTail(ts, pat, with, j);
    }
    if BracketAt(ts, pat, with, 0) {
      assert FirstLeft(ts, pat, with, 0);
    }
    if j :| Replaced(ts[0], pat) && with == [] && FirstLeft(ts[1..], pat, with, j) {
      FirstLeftTail(ts, pat, with, j + 1);
    }
  }

  lemma {:induction false} OpensExactly(ts: seq<Token>, pat: string, with: seq<Token>)
    ensures BeginsWithBracket(ReplaceTokens(ts, pat, with)) <==> Opens(ts, pat, with)
  {
    if ts != [] {
      OpensExactly(ts[1..], pat, with);
      OpensTail(ts, pat, with);
      if Replaced(ts[0], pat) && with == [] {
        EmptyLeft(ReplaceTokens(ts[1..], pat, with));
      }
    }
  }

  lemma MeetsTail(ts: seq<Token>, pat: string, with: seq<Token>)
    requires ts != []
    ensures Meets(ts, pat, with) <==>
            (DollarAt(ts, pat, with, 0) && Opens(ts[1..], pat, with)) || Meets(ts[1..], pat, with)
  {
    if i, j :| MeetsAt(ts, pat, with, i, j) {
      MeetsAtTail(ts, pat, with, i, j);
    }
    if j :| DollarAt(ts, pat, with, 0) && FirstLeft(ts[1..], pat, with, j) {
      MeetsAtTail(ts, pat, with, 0, j + 1);
    }
    if i, j :| MeetsAt(ts[1..], pat, with, i, j) {
      MeetsAtTail(ts, pat, with, i + 1, j + 1);
    }
  }

  /** One replacement makes literal text read `${` exactly if a literal dollar, of the string
      or at the end of the value, comes to stand before a literal bracket, of the string or
      at the beginning of the value, with nothing but placeholders of empty value between. */
  lemma {:induction false} WrittenExactly(ts: seq<Token>, pat: string, with: seq<Token>)
    requires Written(ts) && Written(with)
    ensures Written(ReplaceTokens(ts, pat, with)) <==> !Meets(ts, pat, with)
  {
    if ts != [] {
      var rest := ReplaceTokens(ts[1..], pat, with);
      WrittenExactly(ts[1..], pat, with);
      OpensExactly(ts[1..], pat, with);
      MeetsTail(ts, pat, with);
      if Replaced(ts[0], pat) {
        WrittenConcat(with, rest);
      } else {
        WrittenConcat([ts[0]], rest);
        assert [ts[0]][1..] == [];
      }
    }
  }

  /***************************** Two ways to keep them apart *****************************/

  /** Every literal dollar is followed by another literal than a bracket. */
  ghost predicate NoOpenDollar(ts: seq<Token>) {
    ts == [] ||
    (&& (if ts[0].Ref? then PlaceholderText(TokenText(ts[0]))
         else ts[0].c == '$' ==> |ts| > 1 && ts[1].Ch? && ts[1].c != '{')
     && NoOpenDollar(ts[1..]))
  }

  /** Every literal bracket is preceded by another literal than a dollar; `after` says that
      such a literal comes before the text. */
  ghost predicate NoOpenBracket(ts: seq<Token>, after: bool) {
    ts == [] ||
    (if ts[0].Ref? then PlaceholderText(TokenText(ts[0])) && NoOpenBracket(ts[1..], false)
     else (ts[0].c == '{' ==> after) && NoOpenBracket(ts[1..], ts[0].c != '$'))
  }

  /** Either dollars or brackets may stand at the ends of texts and next to placeholders,
      not both. */
  ghost predicate Tame(dollars: bool, ts: seq<Token>) {
    if dollars then NoOpenBracket(ts, false) else NoOpenDollar(ts)
  }

  lemma {:induction false} BracketsConcat(a: seq<Token>, b: seq<Token>, after: bool)
    requires NoOpenBracket(a, after) && NoOpenBracket(b, false)
    ensures NoOpenBracket(a + b, after)
  {
    if a == [] {
      EmptyLeft(b);
      MoreBefore(b, after);
    } else {
      HeadOfConcat(a, b);
      BracketsConcat(a[1..], b, IsPlain(a[0]));
    }
  }

  predicate IsPlain(t: Token) {
    t.Ch? && t.c != '$'
  }

  lemma MoreBefore(ts: seq<Token>, after: bool)
    requires NoOpenBracket(ts, false)
    ensures NoOpenBracket(ts, after)
  {
  }

  lemma {:induction false} DollarsConcat(a: seq<Token>, b: seq<Token>)
    requires NoOpenDollar(a) && NoOpenDollar(b)
    ensures NoOpenDollar(a + b)
  {
    if a == [] {
      EmptyLeft(b);
    } else {
      HeadOfConcat(a, b);
      DollarsConcat(a[1..], b);
      assert |a| > 1 ==> (a + b)[1] == a[1];
    }
  }

  lemma DollarsCons(t: Token, ts: seq<Token>)
    requires NoOpenDollar(ts)
    requires if t.Ref? then PlaceholderText(TokenText(t)) else t.c == '$' ==> ts != [] && ts[0].Ch? && ts[0].c != '{'
    ensures NoOpenDollar([t] + ts)
  {
    ConsTail(t, ts);
  }

  lemma {:induction false} ReplaceKeepsDollars(ts: seq<Token>, pat: string, with: seq<Token>)
    requires NoOpenDollar(ts) && NoOpenDollar(with)
    ensures NoOpenDollar(ReplaceTokens(ts, pat, with))
    ensures ts != [] && ts[0].Ch? ==> ReplaceTokens(ts, pat, with) != [] && ReplaceTokens(ts, pat, with)[0] == ts[0]
  {
    if ts != [] {
      ReplaceKeepsDollars(ts[1..], pat, with);
      if Replaced(ts[0], pat) {
        DollarsConcat(with, ReplaceTokens(ts[1..], pat, with));
      } else {
        DollarsCons(ts[0], ReplaceTokens(ts[1..], pat, with));
      }
    }
  }

  lemma {:induction false} ReplaceKeepsBrackets(ts: seq<Token>, pat: string, with: seq<Token>, after: bool)
    requires NoOpenBracket(ts, after) && NoOpenBracket(with, false)
    ensures NoOpenBracket(ReplaceTokens(ts, pat, with), after)
  {
    if ts != [] {
      ReplaceKeepsBrackets(ts[1..], pat, with, IsPlain(ts[0]));
      if Replaced(ts[0], pat) {
        MoreBefore(with, after);
        BracketsConcat(with, ReplaceTokens(ts[1..], pat, with), after);
      } else {
        ConsTail(ts[0], ReplaceTokens(ts[1..], pat, with));
      }
    }
  }

  lemma ReplaceKeepsTame(dollars: bool, ts: seq<Token>, pat: string, with: seq<Token>)
    requires Tame(dollars, ts) && Tame(dollars, with)
    ensures Tame(dollars, ReplaceTokens(ts, pat, with))
  {
    if dollars {
      ReplaceKeepsBrackets(ts, pat, with, false);
    } else {
      ReplaceKeepsDollars(ts, pat, with);
    }
  }

  lemma {:induction false} DollarsAreWritten(ts: seq<Token>)
    requires NoOpenDollar(ts)
    ensures Written(ts)
  {
    if ts != [] {
      DollarsAreWritten(ts[1..]);
    }
  }

  lemma {:induction false} BracketsAreWritten(ts: seq<Token>, after: bool)
    requires NoOpenBracket(ts, after)
    ensures Written(ts)
  {
    if ts != [] {
      BracketsAreWritten(ts[1..], IsPlain(ts[0]));
    }
  }

  lemma TameIsWritten(dollars: bool, ts: seq<Token>)
    requires Tame(dollars, ts)
    ensures Written(ts)
  {
    if dollars {
      BracketsAreWritten(ts, false);
    } else {
      DollarsAreWritten(ts);
    }
  }

  /** Texts kept apart in either way stay so. */
  lemma {:induction false} TameStaysWritten(dollars: bool, ts: seq<Token>, es: seq<Entry>)
    requires Tame(dollars, ts) && forall e | e in es :: PlaceholderText(e.search) && Tame(dollars, Printed(e.value))
    ensures StaysWritten(ts, es) && Tame(dollars, ReplaceEntries(ts, es))
    decreases |es|
  {
    TameIsWritten(dollars, ts);
    if es != [] {
      var e := es[0];
      assert e in es;
      ReplaceKeepsTame(dollars, ts, e.search, Printed(e.value));
      TameStaysWritten(dollars, ReplaceTokens(ts, e.search, Printed(e.value)), es[1..]);
    }
  }

  lemma WritableRef(t: Token)
    requires t.Ref? && PlaceholderText(TokenText(t)) && ':' !in t.key
    ensures ValidRef(t)
  {
    var body := PlaceholderShape(TokenText(t));
    var own := Body(t.key, RawDefault(t));
    assert TokenText(t)[2..|TokenText(t)| - 1] == own;
    assert TokenText(t)[2..|TokenText(t)| - 1] == body;
  }

  function FoundEach(phs: seq<Token>): seq<Found>
    requires forall ph | ph in phs :: ph.Ref?
  {
    seq(|phs|, i requires 0 <= i < |phs| => assert phs[i] in phs; Found(phs[i].key, RawDefault(phs[i])))
  }

  lemma FoundEachCons(ph: Token, phs: seq<Token>)
    requires ph.Ref? && forall x | x in phs :: x.Ref?
    ensures FoundEach([ph] + phs) == [Found(ph.key, RawDefault(ph))] + FoundEach(phs)
  {
    assert forall i | 0 <= i < |phs| :: ([ph] + phs)[i + 1] == phs[i];
  }

  lemma {:induction false} ReferencesArePlaceholders(ts: seq<Token>)
    ensures References(ts) == FoundEach(Placeholders(ts))
  {
    if ts != [] {
      ReferencesArePlaceholders(ts[1..]);
      if ts[0].Ref? {
        FoundEachCons(ts[0], Placeholders(ts[1..]));
      } else {
        assert Placeholders(ts) == Placeholders(ts[1..]);
      }
    }
  }

  lemma {:induction false} WrittenIsValid(ts: seq<Token>)
    requires Written(ts) && forall t | t in ts && t.Ref? :: ':' !in t.key
    ensures ValidTokens(ts)
  {
    if ts != [] {
      assert ts[0] in ts;
      if ts[0].Ref? {
        WritableRef(ts[0]);
      }
      WrittenIsValid(ts[1..]);
    }
  }

  /** The scanner finds the placeholders of the token sequence, in order, and calls the
      string embedded exactly when it has another token. */
  lemma ScannerSeesTokens(ts: seq<Token>)
    requires ValidTokens(ts)
    ensures Scan(Render(ts), 0, None) ==
            Parsed(FoundEach(Placeholders(ts)), Placeholders(ts) != [] && |ts| > 1)
  {
    ParseUndoesRender(ts);
    ReferencesArePlaceholders(ts);
  }

  /***************************** Resolution keeps strings so *****************************/

  /** How the type of a default is guessed, and which way dollars and brackets are kept
      apart. */
  datatype Style = Style(parse: string -> Default, dollars: bool)

  predicate TameText(dollars: bool, s: string) {
    if dollars then (s != "" ==> s[0] != '{') && forall k | 0 < k < |s| && s[k] == '{' :: s[k - 1] != '$'
    else Quiet(s)
  }

  /** A placeholder that can be written and searched for, with its default as parsed. */
  ghost predicate RefOk(style: Style, t: Token) {
    && t.Ref? && ':' !in t.key && PlaceholderText(TokenText(t)) && PlaceholderText(SearchText(t))
    && (t.def.Some? ==> t.def.value == style.parse(t.def.value.raw) && TameText(style.dollars, t.def.value.Printed()))
  }

  ghost predicate RefsOk(style: Style, ts: seq<Token>) {
    forall t | t in ts && t.Ref? :: RefOk(style, t)
  }

  ghost predicate Sound(style: Style, ts: seq<Token>) {
    Tame(style.dollars, ts) && RefsOk(style, ts)
  }

  ghost predicate GoodValue(style: Style, v: Value) {
    match v
    case Str(ts) => Sound(style, ts)
    case Scalar(_, text) => TameText(style.dollars, text)
    case Nil => true
    case Malformed => false
  }

  ghost predicate GoodStore(style: Style, st: Store) {
    forall k | k in st :: st[k].Malformed? || GoodValue(style, st[k])
  }

  ghost predicate GoodEntry(style: Style, e: Entry) {
    GoodValue(style, e.value) && e.value != Nil && PlaceholderText(e.search)
  }

  lemma {:induction false} CharsKeepDollars(s: string)
    requires Quiet(s)
    ensures NoOpenDollar(Chars(s))
  {
    if s != "" {
      CharsKeepDollars(s[1..]);
      assert Chars(s)[1..] == Chars(s[1..]);
    }
  }

  lemma {:induction false} CharsKeepBrackets(s: string, after: bool)
    requires (s != "" && s[0] == '{' ==> after) && forall k | 0 < k < |s| && s[k] == '{' :: s[k - 1] != '$'
    ensures NoOpenBracket(Chars(s), after)
  {
    if s != "" {
      assert forall k | 0 <= k < |s[1..]| :: s[1..][k] == s[k + 1];
      CharsKeepBrackets(s[1..], s[0] != '$');
      assert Chars(s)[1..] == Chars(s[1..]) && Chars(s)[0] == Ch(s[0]);
    }
  }

  lemma CharsAreTame(dollars: bool, s: string)
    requires TameText(dollars, s)
    ensures Tame(dollars, Chars(s))
  {
    if dollars {
      CharsKeepBrackets(s, false);
    } else {
      CharsKeepDollars(s);
    }
  }

  lemma PrintedIsSound(style: Style, v: Value)
    requires GoodValue(style, v)
    ensures Sound(style, Printed(v))
  {
    if v.Scalar? {
      CharsAreTame(style.dollars, v.text);
    }
  }

  lemma {:induction false} ReplaceKeepsRefs(style: Style, ts: seq<Token>, pat: string, with: seq<Token>)
    requires RefsOk(style, ts) && RefsOk(style, with)
    ensures RefsOk(style, ReplaceTokens(ts, pat, with))
  {
    if ts != [] {
      ReplaceKeepsRefs(style, ts[1..], pat, with);
    }
  }

  lemma ReplaceKeepsSound(style: Style, ts: seq<Token>, pat: string, with: seq<Token>)
    requires Sound(style, ts) && Sound(style, with)
    ensures Sound(style, ReplaceTokens(ts, pat, with))
  {
    ReplaceKeepsTame(style.dollars, ts, pat, with);
    ReplaceKeepsRefs(style, ts, pat, with);
  }

  lemma {:induction false} EntriesKeepSound(style: Style, ts: seq<Token>, es: seq<Entry>)
    requires Sound(style, ts) && forall e | e in es :: GoodEntry(style, e)
    ensures Sound(style, ReplaceEntries(ts, es))
    decreases |es|
  {
    if es != [] {
      assert GoodEntry(style, es[0]);
      PrintedIsSound(style, es[0].value);
      ReplaceKeepsSound(style, ts, es[0].search, Printed(es[0].value));
      EntriesKeepSound(style, ReplaceTokens(ts, es[0].search, Printed(es[0].value)), es[1..]);
    }
  }

  lemma AssembleIsGood(r: Run, style: Style, ts: seq<Token>, es: seq<Entry>)
    requires Shuffles(r) && ts != [] && Sound(style, ts) && forall e | e in es :: GoodEntry(style, e)
    ensures GoodValue(style, Assemble(r, ts, es))
  {
    ShuffleKeeps(r, es);
    EntriesKeepSound(style, ts, r.shuffle(es));
  }

  lemma DefaultIsGood(style: Style, ph: Token)
    requires RefOk(style, ph) && ph.def.Some?
    ensures GoodValue(style, DefaultValue(ph.def.value))
  {
    if ph.def.value.Plain? {
      CharsAreTame(style.dollars, ph.def.value.raw);
    }
  }

  /** The leaves are good and those that held something still do. */
  ghost predicate KeepsGood(style: Style, st: Store, st': Store) {
    GoodStore(style, st') && st'.Keys == st.Keys && forall k | k in st && st[k] != Nil :: st'[k] != Nil
  }

  lemma WriteKeepsGood(style: Style, st: Store, st': Store, k: string, v: Value)
    requires KeepsGood(style, st, st') && GoodValue(style, v)
    ensures KeepsGood(style, st, SetLeaf(st', k, v))
  {
  }

  /** Resolution keeps every string such that text and tokens agree. */
  lemma {:induction false} ResolveKeepsSound(r: Run, style: Style, st: Store, key: string, visited: seq<string>)
    requires Shuffles(r) && Within(st, r.universe) && GoodStore(style, st)
    ensures var o := ResolveValue(r, st, key, visited);
            KeepsGood(style, st, o.st) && (o.res.Ok? ==> GoodValue(style, o.res.value))
    decreases |r.universe - SetOf(visited) - {key}|, 1, 0
  {
    var val := Lookup(st, r.norm(key));
    if val.Str? && Placeholders(val.ts) != [] {
      var phs, path := Placeholders(val.ts), visited + [key];
      if forall ph | ph in phs :: ph.key !in path {
        ResolveUnfolds(r, st, key, visited);
        SameMeasure(r.universe, visited, key);
        AllKeepSound(r, style, st, phs, path, []);
        FinishKeepsSound(r, style, st, key, val.ts, ResolveAll(r, st, phs, path, []));
      }
    } else {
      PlainStays(r, style, st, key, visited);
    }
  }

  lemma PlainStays(r: Run, style: Style, st: Store, key: string, visited: seq<string>)
    requires Shuffles(r) && Within(st, r.universe) && GoodStore(style, st)
    requires var val := Lookup(st, r.norm(key)); val.Str? ==> Placeholders(val.ts) == []
    ensures var o := ResolveValue(r, st, key, visited);
            o.st == st && (o.res.Ok? ==> GoodValue(style, o.res.value))
  {
  }

  lemma FinishKeepsSound(r: Run, style: Style, st: Store, key: string, ts: seq<Token>, p: Progress)
    requires Shuffles(r) && ts != [] && TokensIn(ts, r.universe) && Sound(style, ts)
    requires Within(p.st, r.universe) && KeepsGood(style, st, p.st)
    requires p.Done? ==> forall e | e in p.es :: RefsIn(e.value, r.universe) && GoodEntry(style, e)
    requires p.Stop? ==> !p.why.Ok?
    ensures var o := Finish(r, key, ts, p);
            KeepsGood(style, st, o.st) && (o.res.Ok? ==> GoodValue(style, o.res.value))
  {
    if p.Done? {
      AssembleIsGood(r, style, ts, p.es);
      WriteKeepsGood(style, st, p.st, r.norm(key), Assemble(r, ts, p.es));
    }
  }

  lemma {:induction false} AllKeepSound(r: Run, style: Style, st: Store, phs: seq<Token>, path: seq<string>,
                                        acc: seq<Entry>)
    requires Shuffles(r) && Within(st, r.universe) && GoodStore(style, st) && RefsOk(style, phs)
    requires forall ph | ph in phs :: ph.Ref? && ph.key in r.universe && ph.key !in path
    requires forall e | e in acc :: RefsIn(e.value, r.universe) && GoodEntry(style, e)
    ensures var p := ResolveAll(r, st, phs, path, acc);
            KeepsGood(style, st, p.st) && (p.Done? ==> forall e | e in p.es :: GoodEntry(style, e))
    decreases |r.universe - SetOf(path)|, 0, |phs|
  {
    if phs != [] {
      var ph := phs[0];
      FirstOne(r, st, phs, path, acc);
      ResolveKeepsSound(r, style, st, ph.key, path);
      var o := ResolveValue(r, st, ph.key, path);
      if Chosen(ph, o.res).Ok? {
        ChosenIsGood(style, ph, o.res);
        AllKeepSound(r, style, o.st, phs[1..], path, Extended(acc, ph, Chosen(ph, o.res).value));
      }
    }
  }

  lemma ChosenIsGood(style: Style, ph: Token, res: Result)
    requires RefOk(style, ph) && (res.Ok? ==> GoodValue(style, res.value)) && Chosen(ph, res).Ok?
    ensures GoodValue(style, Chosen(ph, res).value)
  {
    if ph.def.Some? {
      DefaultIsGood(style, ph);
    }
  }
}
