/** The conversion of camel case on text beyond ASCII. The loop counts bytes but looks back
    in the sequence of characters, so behind a character of several bytes it looks at the
    wrong place, or past the end.
 */
module CamelCase {
  import opened Collections
  import opened Text
  import opened KeyFormat

  /** Which characters are capitals and small letters, and what lowering makes of them. */
  datatype Letters = Letters(upper: char -> bool, lower: char -> bool, toLower: char -> char)

  ghost predicate NoDashes(l: Letters) {
    forall c | l.upper(c) :: l.toLower(c) != '-'
  }

  /** The number of bytes of a character in UTF-8. */
  function Width(c: char): (w: nat)
    ensures 1 <= w <= 4
  {
    var n := c as int;
    if n < 0x80 then 1 else if n < 0x800 then 2 else if n < 0x1_0000 then 3 else 4
  }

  /** The number of bytes before character `i`. */
  function Offset(s: string, i: nat): (n: nat)
    requires i <= |s|
    ensures n >= i
  {
    if i == 0 then 0 else Offset(s, i - 1) + Width(s[i - 1])
  }

  /** Looking back from a capital stays within the text. */
  predicate InRange(l: Letters, s: string, i: nat)
    requires i < |s|
  {
    l.upper(s[i]) ==> Offset(s, i) <= |s|
  }

  /** Whether a dash is put before character `i`. */
  predicate DashPut(l: Letters, s: string, i: nat)
    requires i < |s| && InRange(l, s, i)
  {
    l.upper(s[i]) && i > 0 && l.lower(s[Offset(s, i) - 1])
  }

  /** Whether there should be one: a capital that follows a small letter. */
  predicate DashDue(l: Letters, s: string, i: nat)
    requires i < |s|
  {
    l.upper(s[i]) && i > 0 && l.lower(s[i - 1])
  }

  predicate AllInRange(l: Letters, s: string) {
    forall i | 0 <= i < |s| :: InRange(l, s, i)
  }

  function DashesPut(l: Letters, s: string): (d: seq<bool>)
    requires AllInRange(l, s)
    ensures |d| == |s| && forall i | 0 <= i < |s| :: d[i] == DashPut(l, s, i)
  {
    seq(|s|, i requires 0 <= i < |s| => DashPut(l, s, i))
  }

  function DashesDue(l: Letters, s: string): (d: seq<bool>)
    ensures |d| == |s| && forall i | 0 <= i < |s| :: d[i] == DashDue(l, s, i)
  {
    seq(|s|, i requires 0 <= i < |s| => DashDue(l, s, i))
  }

  function Piece(l: Letters, c: char, dash: bool): string {
    if dash then ['-', l.toLower(c)] else [l.toLower(c)]
  }

  /** The text in small letters, with a dash before the marked characters. */
  function Lowered(l: Letters, s: string, dashes: seq<bool>): string
    requires |dashes| == |s|
  {
    if s == "" then "" else Piece(l, s[0], dashes[0]) + Lowered(l, s[1..], dashes[1..])
  }

  lemma {:induction false} LoweredLast(l: Letters, s: string, dashes: seq<bool>, c: char, dash: bool)
    requires |dashes| == |s|
    ensures Lowered(l, s + [c], dashes + [dash]) == Lowered(l, s, dashes) + Piece(l, c, dash)
  {
    if s == "" {
      assert ([c])[1..] == "" && s + [c] == [c] && dashes + [dash] == [dash];
    } else {
      HeadOfConcat(s, [c]);
      HeadOfConcat(dashes, [dash]);
      LoweredLast(l, s[1..], dashes[1..], c, dash);
    }
  }

  /** One more character of a marked text. */
  lemma LoweredNext(l: Letters, s: string, dashes: seq<bool>, n: nat)
    requires |dashes| == |s| && n < |s|
    ensures Lowered(l, s[..n + 1], dashes[..n + 1]) == Lowered(l, s[..n], dashes[..n]) + Piece(l, s[n], dashes[n])
  {
    LoweredLast(l, s[..n], dashes[..n], s[n], dashes[n]);
    assert s[..n + 1] == s[..n] + [s[n]] && dashes[..n + 1] == dashes[..n] + [dashes[n]];
  }

  /** The dashes put before the first `n` characters. */
  ghost predicate Marked(l: Letters, s: string, n: nat, dashes: seq<bool>)
    requires n <= |s|
  {
    |dashes| == n && forall j | 0 <= j < n :: InRange(l, s, j) && dashes[j] == DashPut(l, s, j)
  }

  lemma MarkedNext(l: Letters, s: string, n: nat, dashes: seq<bool>)
    requires n < |s| && Marked(l, s, n, dashes) && InRange(l, s, n)
    ensures Marked(l, s, n + 1, dashes + [DashPut(l, s, n)])
  {
  }

  /** Converts character by character; nothing is returned where looking back fails. */
  method ConvertText(l: Letters, s: string) returns (r: Option<string>)
    ensures r.Some? <==> AllInRange(l, s)
    ensures r.Some? ==> r.value == Lowered(l, s, DashesPut(l, s))
  {
    var converted, offset := "", 0;
    ghost var dashes: seq<bool> := [];
    for i := 0 to |s|
      invariant offset == Offset(s, i) && Marked(l, s, i, dashes)
      invariant converted == Lowered(l, s[..i], dashes)
    {
      var c := s[i];
      if l.upper(c) {
        if offset > |s| {
          assert !InRange(l, s, i);
          return None;
        }
        if offset > 0 && l.lower(s[offset - 1]) {
          converted := converted + ['-'];
        }
      }
      converted := converted + [l.toLower(c)];
      LoweredLast(l, s[..i], dashes, c, DashPut(l, s, i));
      MarkedNext(l, s, i, dashes);
      assert s[..i + 1] == s[..i] + [c];
      dashes := dashes + [DashPut(l, s, i)];
      offset := offset + Width(c);
    }
    assert s[..|s|] == s && dashes == DashesPut(l, s);
    return Some(converted);
  }

  /** Different marks on capitals are visible in the result. */
  lemma {:induction false} MarksShow(l: Letters, s: string, a: seq<bool>, b: seq<bool>)
    requires NoDashes(l) && |a| == |b| == |s|
    requires forall i | 0 <= i < |s| && (a[i] || b[i]) :: l.upper(s[i])
    ensures Lowered(l, s, a) == Lowered(l, s, b) <==> a == b
  {
    if s != "" && a[0] == b[0] {
      MarksShow(l, s[1..], a[1..], b[1..]);
      SameHead(Piece(l, s[0], a[0]), Lowered(l, s[1..], a[1..]), Lowered(l, s[1..], b[1..]));
      assert a == [a[0]] + a[1..] && b == [b[0]] + b[1..];
    } else if s != "" {
      assert Lowered(l, s, a)[0] != Lowered(l, s, b)[0];
    }
  }

  lemma SameHead(h: string, a: string, b: string)
    ensures h + a == h + b <==> a == b
  {
    assert (h + a)[|h|..] == a && (h + b)[|h|..] == b;
  }

  /** From a capital, the place looked at is within the text, and a small letter exactly if
      the character before is one. */
  predicate LooksRight(l: Letters, s: string, i: nat)
    requires i < |s|
  {
    l.upper(s[i]) && i > 0 ==> Offset(s, i) <= |s| && l.lower(s[Offset(s, i) - 1]) == l.lower(s[i - 1])
  }

  lemma PutIsDue(l: Letters, s: string, i: nat)
    requires i < |s|
    ensures LooksRight(l, s, i) <==> InRange(l, s, i) && DashPut(l, s, i) == DashDue(l, s, i)
  {
  }

  /** The conversion does what it should exactly if it looks right from every character. */
  lemma ConvertsExactly(l: Letters, s: string)
    requires NoDashes(l)
    ensures (AllInRange(l, s) && Lowered(l, s, DashesPut(l, s)) == Lowered(l, s, DashesDue(l, s))) <==>
            forall i | 0 <= i < |s| :: LooksRight(l, s, i)
  {
    forall i | 0 <= i < |s|
      ensures LooksRight(l, s, i) <==> InRange(l, s, i) && DashPut(l, s, i) == DashDue(l, s, i)
    {
      PutIsDue(l, s, i);
    }
    if AllInRange(l, s) {
      MarksAgree(l, s);
    }
  }

  lemma MarksAgree(l: Letters, s: string)
    requires NoDashes(l) && AllInRange(l, s)
    ensures Lowered(l, s, DashesPut(l, s)) == Lowered(l, s, DashesDue(l, s)) <==>
            forall i | 0 <= i < |s| :: DashPut(l, s, i) == DashDue(l, s, i)
  {
    var a, b := DashesPut(l, s), DashesDue(l, s);
    forall i | 0 <= i < |s| && (a[i] || b[i])
      ensures l.upper(s[i])
    {
      assert DashPut(l, s, i) || DashDue(l, s, i);
    }
    MarksShow(l, s, a, b);
    if forall i | 0 <= i < |s| :: DashPut(l, s, i) == DashDue(l, s, i) {
      assert a == b;
    }
  }

  /***************************** ASCII text *****************************/

  ghost predicate AsUsual(l: Letters) {
    forall c: char | c < 128 as char :: l.upper(c) == IsUpper(c) && l.lower(c) == IsLower(c) && l.toLower(c) == ToLower(c)
  }

  predicate Ascii(s: string) {
    forall c | c in s :: c < 128 as char
  }

  lemma {:induction false} OneByteEach(s: string, i: nat)
    requires Ascii(s) && i <= |s|
    ensures Offset(s, i) == i
  {
    if i > 0 {
      assert s[i - 1] in s;
      OneByteEach(s, i - 1);
    }
  }

  lemma {:induction false} DueOnAscii(l: Letters, s: string)
    requires AsUsual(l) && Ascii(s)
    ensures Lowered(l, s, DashesDue(l, s)) == CamelToSnakeCase(s)
  {
    if s != "" {
      var n := |s| - 1;
      assert s[n] in s && (n > 0 ==> s[n - 1] in s);
      assert forall c | c in s[..n] :: c in s;
      DueOnAscii(l, s[..n]);
      LoweredNext(l, s, DashesDue(l, s), n);
      assert s[..n + 1] == s && DashesDue(l, s)[..n + 1] == DashesDue(l, s);
      assert DashesDue(l, s)[..n] == DashesDue(l, s[..n]);
    }
  }

  /** On ASCII text the bytes are the characters. */
  lemma AsciiConverts(l: Letters, s: string)
    requires AsUsual(l) && Ascii(s)
    ensures AllInRange(l, s) && Lowered(l, s, DashesPut(l, s)) == CamelToSnakeCase(s)
  {
    forall i | 0 <= i < |s|
      ensures Offset(s, i) == i
    {
      OneByteEach(s, i);
    }
    assert DashesPut(l, s) == DashesDue(l, s);
    DueOnAscii(l, s);
  }

  /** Two characters of two bytes and a capital: looking back fails. */
  lemma LooksPastTheEnd(l: Letters, c: char, d: char)
    requires Width(c) == 2 && l.upper(d)
    ensures !AllInRange(l, [c, c, d])
  {
    var s := [c, c, d];
    assert Offset(s, 2) == Offset(s, 1) + 2 == Offset(s, 0) + 4;
    assert !InRange(l, s, 2);
  }

  /** A small letter of two bytes before a capital: the dash between them is left out. */
  lemma DashLeftOut(l: Letters, c: char, d: char)
    requires NoDashes(l) && Width(c) == 2 && l.lower(c) && !l.upper(c) && l.upper(d) && !l.lower(d)
    ensures var s := [c, d];
            && DashesDue(l, s) == [false, true]
            && AllInRange(l, s) && Lowered(l, s, DashesPut(l, s)) != Lowered(l, s, DashesDue(l, s))
  {
    var s := [c, d];
    assert Offset(s, 1) == Offset(s, 0) + 2 == 2;
    assert InRange(l, s, 0) && InRange(l, s, 1) && !LooksRight(l, s, 1);
    ConvertsExactly(l, s);
  }
}
