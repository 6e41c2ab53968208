/** Strings as the module handles them: Python's `strip`, substring search, and the total
    order that `sorted` puts on the string form of two user ids. */
module Text {

  datatype Option<+T> = None | Some(value: T)

  /** The characters `str.strip` removes. */
  predicate IsSpace(c: char) {
    || '\t' <= c <= '\r'
    || '\U{1c}' <= c <= ' '
    || c == '\U{85}' || c == '\U{a0}' || c == '\U{1680}' || c == '\U{2028}' || c == '\U{2029}'
    || c == '\U{202f}' || c == '\U{205f}' || c == '\U{3000}'
    || '\U{2000}' <= c <= '\U{200a}'
  }

  /** Index of the first character that survives `strip`. */
  function LeftEdge(s: string): (lo: nat)
    ensures lo <= |s|
    ensures forall k | 0 <= k < lo :: IsSpace(s[k])
    ensures lo < |s| ==> !IsSpace(s[lo])
  {
    if s != "" && IsSpace(s[0]) then 1 + LeftEdge(s[1..]) else 0
  }

  /** One past the last character that survives `strip`. */
  function RightEdge(s: string): (hi: nat)
    ensures hi <= |s|
    ensures forall k | hi <= k < |s| :: IsSpace(s[k])
    ensures hi > 0 ==> !IsSpace(s[hi - 1])
  {
    if s != "" && IsSpace(s[|s| - 1]) then RightEdge(s[..|s| - 1]) else |s|
  }

  /** `s.strip()`. */
  function Strip(s: string): string {
    if LeftEdge(s) < RightEdge(s) then s[LeftEdge(s)..RightEdge(s)] else ""
  }

  predicate Trimmed(s: string) {
    s == "" || (!IsSpace(s[0]) && !IsSpace(s[|s| - 1]))
  }

  lemma StripTrims(s: string)
    ensures Trimmed(Strip(s))
    ensures Trimmed(s) ==> Strip(s) == s
  {
    var lo, hi := LeftEdge(s), RightEdge(s);
    if lo < hi {
      assert Strip(s)[0] == s[lo] && Strip(s)[|Strip(s)| - 1] == s[hi - 1];
    }
    if s != "" && Trimmed(s) {
      assert lo == 0 && hi == |s|;
    }
  }

  predicate Occurs(needle: string, hay: string, at: nat) {
    at + |needle| <= |hay| && forall k | 0 <= k < |needle| :: needle[k] == hay[at + k]
  }

  /** `needle in hay`. */
  ghost predicate Contains(hay: string, needle: string) {
    exists at: nat :: Occurs(needle, hay, at)
  }

  /** Character-wise case folding: `lower()` on the Python side, `icontains` on the SQL side. */
  function FoldCase(fold: char -> char, s: string): (r: string)
    ensures |r| == |s|
  {
    seq(|s|, i requires 0 <= i < |s| => fold(s[i]))
  }

  /** A folding that does not turn visible characters into spaces or back. */
  ghost predicate KeepsSpaces(fold: char -> char) {
    forall c: char {:trigger fold(c)} :: IsSpace(fold(c)) <==> IsSpace(c)
  }

  lemma SliceMatches(hay: string, needle: string, lo: nat, hi: nat)
    requires lo <= hi <= |hay| && Contains(hay[lo..hi], needle)
    ensures Contains(hay, needle)
  {
    var at: nat :| Occurs(needle, hay[lo..hi], at);
    assert Occurs(needle, hay, lo + at);
  }

  /** A match that starts and ends on visible characters lies between the edges. */
  lemma MatchLiesInside(hay: string, needle: string, lo: nat, hi: nat)
    requires lo <= |hay| && hi <= |hay| && needle != "" && Contains(hay, needle)
    requires forall k | 0 <= k < lo :: hay[k] != needle[0]
    requires forall k | hi <= k < |hay| :: hay[k] != needle[|needle| - 1]
    ensures lo < hi && Contains(hay[lo..hi], needle)
  {
    var at: nat :| Occurs(needle, hay, at);
    var last := |needle| - 1;
    assert needle[0] == hay[at + 0] && needle[last] == hay[at + last];
    assert lo <= at && at + last < hi;
    assert Occurs(needle, hay[lo..hi], at - lo);
  }

  lemma FoldedSlice(fold: char -> char, s: string, lo: nat, hi: nat)
    requires lo <= hi <= |s|
    ensures FoldCase(fold, s[lo..hi]) == FoldCase(fold, s)[lo..hi]
  {
  }

  /** Stripping the haystack cannot lose a trimmed, non-empty needle, and cannot add one. */
  lemma StripKeepsMatches(fold: char -> char, hay: string, needle: string)
    requires KeepsSpaces(fold) && needle != "" && Trimmed(needle)
    ensures Contains(FoldCase(fold, hay), FoldCase(fold, needle)) <==>
      Contains(FoldCase(fold, Strip(hay)), FoldCase(fold, needle))
  {
    var lo, hi := LeftEdge(hay), RightEdge(hay);
    var h, n := FoldCase(fold, hay), FoldCase(fold, needle);
    assert IsSpace(n[0]) == IsSpace(needle[0]) && IsSpace(n[|n| - 1]) == IsSpace(needle[|n| - 1]);
    assert forall k | 0 <= k < |h| :: IsSpace(h[k]) <==> IsSpace(hay[k]);
    assert lo >= hi ==> FoldCase(fold, Strip(hay)) == "";
    if Contains(h, n) {
      MatchLiesInside(h, n, lo, hi);
    }
    if lo < hi {
      FoldedSlice(fold, hay, lo, hi);
      if Contains(h[lo..hi], n) {
        SliceMatches(h, n, lo, hi);
      }
    } else if Contains("", n) {
      EmptyHoldsNothing(n);
    }
  }

  lemma EmptyHoldsNothing(needle: string)
    requires Contains("", needle)
    ensures needle == ""
  {
    var at: nat :| Occurs(needle, "", at);
  }

  lemma ContainsSelf(s: string)
    ensures Contains(s, s)
  {
    assert Occurs(s, s, 0);
  }

  lemma ContainsTrans(a: string, b: string, c: string)
    requires Contains(a, b) && Contains(b, c)
    ensures Contains(a, c)
  {
    var i: nat :| Occurs(b, a, i);
    var j: nat :| Occurs(c, b, j);
    assert forall k | 0 <= k < |c| :: c[k] == b[j + k] == a[i + (j + k)];
    assert Occurs(c, a, i + j);
  }

  /** `a <= b` on strings, code point by code point. */
  predicate AtMost(a: string, b: string) {
    a == "" || (b != "" && (a[0] < b[0] || (a[0] == b[0] && AtMost(a[1..], b[1..]))))
  }

  lemma {:induction false} OrderTotal(a: string, b: string)
    ensures AtMost(a, b) || AtMost(b, a)
    ensures AtMost(a, b) && AtMost(b, a) ==> a == b
  {
    if a != "" && b != "" {
      OrderTotal(a[1..], b[1..]);
      assert a == [a[0]] + a[1..] && b == [b[0]] + b[1..];
    }
  }
}
