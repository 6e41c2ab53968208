/** The identity of a direct thread: scope, unordered pair of users, subject. */
module DirectKey {
  import opened Text

  const SEPARATOR: char := '\U{1f}'

  predicate Clean(s: string) {
    SEPARATOR !in s
  }

  function Sorted(a: string, b: string): (string, string) {
    if AtMost(a, b) then (a, b) else (b, a)
  }

  /** The key of a thread that is about nothing, spelled as it was before subjects existed. */
  function PairKey(scope: string, a: string, b: string): string {
    var (lo, hi) := Sorted(a, b);
    scope + [SEPARATOR] + lo + [SEPARATOR] + hi
  }

  function Key(scope: string, a: string, b: string, subjectType: string, subjectKey: string): string {
    if subjectType != "" || subjectKey != ""
    then PairKey(scope, a, b) + [SEPARATOR] + subjectType + [SEPARATOR] + subjectKey
    else PairKey(scope, a, b)
  }

  /** `"\x1f".join(parts)`. */
  function Join(parts: seq<string>): string
    requires parts != []
  {
    if |parts| == 1 then parts[0] else parts[0] + [SEPARATOR] + Join(parts[1..])
  }

  /** The segments `Key` is made of: three without a subject, five with one. */
  function Segments(scope: string, a: string, b: string, subjectType: string, subjectKey: string): (parts: seq<string>)
    ensures |parts| >= 3
  {
    var (lo, hi) := Sorted(a, b);
    if subjectType != "" || subjectKey != ""
    then [scope, lo, hi, subjectType, subjectKey]
    else [scope, lo, hi]
  }

  lemma JoinTwo(a: string, b: string)
    ensures Join([a, b]) == a + [SEPARATOR] + b
  {
  }

  lemma JoinThree(a: string, b: string, c: string)
    ensures Join([a, b, c]) == a + [SEPARATOR] + b + [SEPARATOR] + c
  {
    JoinTwo(b, c);
    assert [a, b, c][1..] == [b, c];
    assert a + [SEPARATOR] + (b + [SEPARATOR] + c) == a + [SEPARATOR] + b + [SEPARATOR] + c;
  }

  lemma {:induction false} JoinConcat(p: seq<string>, q: seq<string>)
    requires p != [] && q != []
    ensures Join(p + q) == Join(p) + [SEPARATOR] + Join(q)
  {
    if |p| == 1 {
      assert (p + q)[1..] == q;
    } else {
      JoinConcat(p[1..], q);
      assert (p + q)[1..] == p[1..] + q;
      var head, rest := p[0] + [SEPARATOR], Join(p[1..]);
      assert head + (rest + [SEPARATOR] + Join(q)) == head + rest + [SEPARATOR] + Join(q);
    }
  }

  lemma KeyIsJoin(scope: string, a: string, b: string, subjectType: string, subjectKey: string)
    ensures Key(scope, a, b, subjectType, subjectKey) == Join(Segments(scope, a, b, subjectType, subjectKey))
  {
    var (lo, hi) := Sorted(a, b);
    JoinThree(scope, lo, hi);
    if subjectType != "" || subjectKey != "" {
      JoinTwo(subjectType, subjectKey);
      JoinConcat([scope, lo, hi], [subjectType, subjectKey]);
      assert [scope, lo, hi] + [subjectType, subjectKey] == [scope, lo, hi, subjectType, subjectKey];
      var pair := PairKey(scope, a, b);
      assert pair + [SEPARATOR] + (subjectType + [SEPARATOR] + subjectKey)
        == pair + [SEPARATOR] + subjectType + [SEPARATOR] + subjectKey;
    }
  }

  /** A clean head is read back from the text in front of the first separator. */
  lemma HeadIsReadBack(a: string, b: string, restA: string, restB: string)
    requires Clean(a) && Clean(b)
    requires a + [SEPARATOR] + restA == b + [SEPARATOR] + restB
    ensures a == b && restA == restB
  {
    var t, u := a + [SEPARATOR] + restA, b + [SEPARATOR] + restB;
    assert t[|a|] == SEPARATOR && u[|b|] == SEPARATOR;
    assert |a| == |b|;
    assert a == t[..|a|] == u[..|b|] == b;
    assert restA == t[|a| + 1..] == u[|b| + 1..] == restB;
  }

  lemma JoinShowsSeparator(p: seq<string>)
    requires |p| > 1
    ensures SEPARATOR in Join(p)
  {
    assert Join(p)[|p[0]|] == SEPARATOR;
  }

  /** Every segment in front of the last is clean. */
  predicate HeadsClean(parts: seq<string>) {
    forall i | 0 <= i < |parts| - 1 :: Clean(parts[i])
  }

  /** What follows the last separator may hold anything, unless the other join goes on longer. */
  lemma {:induction false} JoinIsInjective(p: seq<string>, q: seq<string>)
    requires p != [] && q != [] && HeadsClean(p) && HeadsClean(q)
    requires |p| < |q| ==> Clean(p[|p| - 1])
    requires |q| < |p| ==> Clean(q[|q| - 1])
    requires Join(p) == Join(q)
    ensures p == q
    decreases |p|
  {
    if |p| > 1 {
      JoinShowsSeparator(p);
    }
    if |q| > 1 {
      JoinShowsSeparator(q);
    }
    if |p| == 1 && |q| == 1 {
      assert p == [p[0]] && q == [q[0]];
    } else if |p| > 1 && |q| > 1 {
      HeadIsReadBack(p[0], q[0], Join(p[1..]), Join(q[1..]));
      JoinIsInjective(p[1..], q[1..]);
      assert p == [p[0]] + p[1..] && q == [q[0]] + q[1..];
    }
  }

  lemma KeyIsSymmetric(scope: string, a: string, b: string, subjectType: string, subjectKey: string)
    ensures Key(scope, a, b, subjectType, subjectKey) == Key(scope, b, a, subjectType, subjectKey)
  {
    OrderTotal(a, b);
  }

  /** Equal keys name the same scope, the same two people and the same subject; in particular a
      thread about nothing never collides with a thread about something. Scope, ids and type must be
      clean. The subject key, which a client spells, is last and may hold anything. */
  lemma KeyIsInjective(
    scope: string, a: string, b: string, subjectType: string, subjectKey: string,
    scope': string, a': string, b': string, subjectType': string, subjectKey': string)
    requires Clean(scope) && Clean(a) && Clean(b) && Clean(subjectType)
    requires Clean(scope') && Clean(a') && Clean(b') && Clean(subjectType')
    requires Key(scope, a, b, subjectType, subjectKey) == Key(scope', a', b', subjectType', subjectKey')
    ensures scope == scope' && subjectType == subjectType' && subjectKey == subjectKey'
    ensures (a == a' && b == b') || (a == b' && b == a')
    ensures {a, b} == {a', b'}
  {
    KeyIsJoin(scope, a, b, subjectType, subjectKey);
    KeyIsJoin(scope', a', b', subjectType', subjectKey');
    var p, q := Segments(scope, a, b, subjectType, subjectKey), Segments(scope', a', b', subjectType', subjectKey');
    JoinIsInjective(p, q);
    assert p[0] == q[0] && p[1] == q[1] && p[2] == q[2];
    if |p| == 5 {
      assert p[3] == q[3] && p[4] == q[4];
    }
  }

  // Each of the other components must stay clean, or two identities share a key.

  /** A scope that carries the separator makes a thread about nothing share its key with a thread
      about something. */
  lemma SeparatorInScopeCollides()
    ensures Key("s\U{1f}a\U{1f}b", "k", "t", "", "") == Key("s", "a", "b", "k", "t")
  {
    assert AtMost("k", "t") && AtMost("a", "b");
    assert PairKey("s", "a", "b") == "s\U{1f}a\U{1f}b";
  }

  /** So does a user id. */
  lemma SeparatorInIdCollides()
    ensures Key("s", "a", "b\U{1f}k\U{1f}t", "", "") == Key("s", "a", "b", "k", "t")
  {
    assert AtMost("a", "b") && AtMost("a", "b\U{1f}k\U{1f}t");
    assert PairKey("s", "a", "b") == "s\U{1f}a\U{1f}b";
  }

  /** A type that carries it can be cut there, whatever the rest of the identity is. */
  lemma SeparatorInTypeCollides(scope: string, a: string, b: string, t1: string, t2: string, k: string)
    ensures Key(scope, a, b, t1 + [SEPARATOR] + t2, k) == Key(scope, a, b, t1, t2 + [SEPARATOR] + k)
  {
    var pair := PairKey(scope, a, b) + [SEPARATOR];
    assert pair + (t1 + [SEPARATOR] + t2) + [SEPARATOR] + k == pair + t1 + [SEPARATOR] + (t2 + [SEPARATOR] + k);
  }
}
