/** The tenant relation as strings in a lexicographically sorted set. Each relation is a
    text `spo:subject:predicate:object`, and the objects of a subject are found by a range
    of texts.
 */
module TenantIndex {
  import opened Text

  const IS_PARENT_OF := "is-parent-of"
  const IS_CHILDREN_OF := "is-children-of"
  const MAX_CHAR: char := '\U{00ffff}'

  /** Byte order of UTF-8 texts, which is the order of their characters. */
  predicate LexLe(a: string, b: string) {
    a == "" || (b != "" && (a[0] < b[0] || (a[0] == b[0] && LexLe(a[1..], b[1..]))))
  }

  predicate LexLt(a: string, b: string) {
    a != b && LexLe(a, b)
  }

  predicate InRange(x: string, lo: string, hi: string) {
    LexLe(lo, x) && LexLe(x, hi)
  }

  /** A range that starts at a text and ends at an extension of it holds exactly the
      extensions up to that end. */
  lemma {:induction false} PrefixRange(x: string, lo: string, tail: string)
    ensures InRange(x, lo, lo + tail) <==> lo <= x && LexLe(x[|lo|..], tail)
  {
    if lo == "" {
      assert lo + tail == tail && x[0..] == x;
    } else if x != "" {
      PrefixRange(x[1..], lo[1..], tail);
      assert (lo + tail)[0] == lo[0] && (lo + tail)[1..] == lo[1..] + tail;
      if x[0] == lo[0] {
        assert lo <= x <==> lo[1..] <= x[1..] by {
          assert x == [x[0]] + x[1..] && lo == [lo[0]] + lo[1..];
        }
        assert lo <= x ==> x[|lo|..] == x[1..][|lo| - 1..];
      }
    }
  }

  /** `BuildSpsString` without and with an object. */
  function Query(subject: string, predicate_: string): string {
    "spo:" + subject + ":" + predicate_
  }

  function Triple(subject: string, predicate_: string, object_: string): string {
    Query(subject, predicate_) + ":" + object_
  }

  /** Ids the texts can carry: no colon, nothing above the end of the range. */
  predicate ValidId(id: string) {
    id != "" && ':' !in id && forall c | c in id :: c < MAX_CHAR
  }

  predicate IsPredicate(p: string) {
    p == IS_PARENT_OF || p == IS_CHILDREN_OF
  }

  lemma {:induction false} CutAtColon(a: string, b: string, a': string, b': string)
    requires ':' !in a && ':' !in a' && a + ":" + b <= a' + ":" + b'
    ensures a == a' && b <= b'
  {
    var s, t := a + ":" + b, a' + ":" + b';
    assert s[0] == (if a == "" then ':' else a[0]) && (a != "" ==> a[0] in a);
    assert t[0] == (if a' == "" then ':' else a'[0]) && (a' != "" ==> a'[0] in a');
    assert s[0] == t[0];
    if a == "" {
      assert s[1..] == b && t[1..] == b';
      assert s[1..] <= t[1..];
    } else {
      assert s[0] == a[0] && t[0] == a'[0];
      assert s[1..] == a[1..] + ":" + b && t[1..] == a'[1..] + ":" + b';
      CutAtColon(a[1..], b, a'[1..], b');
      assert a == [a[0]] + a[1..] && a' == [a'[0]] + a'[1..];
    }
  }

  lemma TripleShape(s: string, p: string, o: string)
    ensures Query(s, p) == "spo" + ":" + (s + ":" + p)
    ensures Triple(s, p, o) == "spo" + ":" + (s + ":" + (p + ":" + o))
  {
    assert "spo:" == "spo" + ":";
  }

  /** Neither predicate begins like the other one followed by an object. */
  lemma PredicatesDiffer(p: string, p': string, o: string)
    requires IsPredicate(p) && IsPredicate(p')
    ensures p <= p' + ":" + o <==> p == p'
  {
    var s := p' + ":" + o;
    assert s[3] == p'[3];
  }

  lemma {:induction false} BelowMax(id: string)
    requires forall c | c in id :: c < MAX_CHAR
    ensures LexLe(":" + id, ":" + [MAX_CHAR])
  {
    assert (":" + id)[1..] == id && (":" + [MAX_CHAR])[1..] == [MAX_CHAR];
    assert id != "" ==> id[0] in id;
  }

  /** The range queried for a subject and a predicate holds exactly the relations with that
      subject and that predicate. */
  lemma RangeIsExact(s: string, p: string, s': string, p': string, o': string)
    requires ':' !in s && ':' !in s' && IsPredicate(p) && IsPredicate(p') && ValidId(o')
    ensures InRange(Triple(s', p', o'), Query(s, p), Triple(s, p, [MAX_CHAR])) <==> s == s' && p == p'
  {
    var lo, x := Query(s, p), Triple(s', p', o');
    var tail := ":" + [MAX_CHAR];
    assert Triple(s, p, [MAX_CHAR]) == lo + tail;
    PrefixRange(x, lo, tail);
    TripleShape(s, p, "");
    TripleShape(s', p', o');
    if lo <= x {
      CutAtColon("spo", s + ":" + p, "spo", s' + ":" + (p' + ":" + o'));
      CutAtColon(s, p, s', p' + ":" + o');
      PredicatesDiffer(p, p', o');
    }
    if s == s' && p == p' {
      assert x[|lo|..] == ":" + o';
      BelowMax(o');
    }
  }

  /** `GetObjectOfSpo`: the fourth of exactly four parts. */
  function ObjectOf(spo: string): Option<string> {
    var parts := Split(spo, ':');
    if |parts| == 4 then Some(parts[3]) else None
  }

  /** The object is recovered from the text. */
  lemma ObjectOfTriple(s: string, p: string, o: string)
    requires ':' !in s && IsPredicate(p) && ':' !in o
    ensures ObjectOf(Triple(s, p, o)) == Some(o)
  {
    TripleShape(s, p, o);
    SplitHead("spo", ':', s + ":" + (p + ":" + o));
    SplitHead(s, ':', p + ":" + o);
    SplitHead(p, ':', o);
    SplitOne(o, ':');
  }

  lemma TripleInjective(s: string, p: string, o: string, s': string, p': string, o': string)
    requires ':' !in s && ':' !in s' && IsPredicate(p) && IsPredicate(p') && ':' !in o && ':' !in o'
    requires Triple(s, p, o) == Triple(s', p', o')
    ensures s == s' && p == p' && o == o'
  {
    TripleShape(s, p, o);
    TripleShape(s', p', o');
    CutAtColon("spo", s + ":" + (p + ":" + o), "spo", s' + ":" + (p' + ":" + o'));
    CutAtColon("spo", s' + ":" + (p' + ":" + o'), "spo", s + ":" + (p + ":" + o));
    CutAtColon(s, p + ":" + o, s', p' + ":" + o');
    CutAtColon(p, o, p', o');
  }
}
