/** Python string primitives the scraper relies on: `in`, `find`, `rfind`,
    `count`, `endswith`, `replace(c, "")` and slicing with possibly negative
    bounds.  `find`/`rfind` return -1 for a missing pattern, exactly as in
    Python, because the long-form extraction depends on that value. */
module Strings {

  /** `p` occurs in `s` starting at index `i`. */
  predicate OccursAt(s: string, p: string, i: int) {
    0 <= i && i + |p| <= |s| && s[i..i + |p|] == p
  }

  /** The least index at or after `k` where `p` occurs, or -1. */
  function FindFrom(s: string, p: string, k: nat): (r: int)
    ensures r == -1 || (k <= r && OccursAt(s, p, r))
    decreases |s| - k
  {
    if k + |p| > |s| then -1
    else if s[k..k + |p|] == p then k
    else FindFrom(s, p, k + 1)
  }

  /** `FindFrom` finds the first occurrence: none is skipped, and -1 means none at all. */
  lemma {:induction false} FindFromFirst(s: string, p: string, k: nat)
    ensures var r := FindFrom(s, p, k);
      forall j :: k <= j && (r == -1 || j < r) ==> !OccursAt(s, p, j)
    decreases |s| - k
  {
    if k + |p| <= |s| && s[k..k + |p|] != p {
      FindFromFirst(s, p, k + 1);
    }
  }

  /** `s.find(p)` */
  function Find(s: string, p: string): int {
    FindFrom(s, p, 0)
  }

  /** `p` occurs somewhere in `s`. */
  predicate Occurs(s: string, p: string) {
    exists i | 0 <= i <= |s| - |p| :: OccursAt(s, p, i)
  }

  /** `p in s`, decided by the search; `ContainsIffOccurs` ties it to `Occurs`. */
  predicate Contains(s: string, p: string) {
    Find(s, p) != -1
  }

  /** The greatest index at or before `k` where `p` occurs, or -1. */
  function RFindDown(s: string, p: string, k: nat): (r: int)
    requires k + |p| <= |s|
    ensures r == -1 || (r <= k && OccursAt(s, p, r))
    ensures forall j :: r < j <= k ==> !OccursAt(s, p, j)
    decreases k
  {
    if s[k..k + |p|] == p then k
    else if k == 0 then -1
    else RFindDown(s, p, k - 1)
  }

  /** `s.rfind(p)` */
  function RFind(s: string, p: string): (r: int)
    ensures r == -1 || OccursAt(s, p, r)
    ensures forall j :: r < j ==> !OccursAt(s, p, j)
  {
    if |p| > |s| then -1 else RFindDown(s, p, |s| - |p|)
  }

  /** `s.count(c)` for a one-character pattern. */
  function Count(s: string, c: char): nat {
    multiset(s)[c]
  }

  /** `s.endswith(suffix)` */
  predicate EndsWith(s: string, suffix: string) {
    |suffix| <= |s| && s[|s| - |suffix|..] == suffix
  }

  /** `s[k:]` with Python's reading of a negative or out-of-range `k`. */
  function SliceFrom(s: string, k: int): (r: string)
    ensures |r| <= |s| && r == s[|s| - |r|..]
  {
    if k < 0 then (if -k >= |s| then s else s[|s| + k..])
    else if k >= |s| then []
    else s[k..]
  }

  /** `s[:k]` with Python's reading of a negative or out-of-range `k`. */
  function SliceTo(s: string, k: int): (r: string)
    ensures |r| <= |s| && r == s[..|r|]
  {
    if k < 0 then (if -k >= |s| then [] else s[..|s| + k])
    else if k >= |s| then s
    else s[..k]
  }

  /** `s.replace(c, "")` for a one-character pattern. */
  function RemoveChar(s: string, c: char): (r: string)
    ensures c !in r
    ensures forall x :: x != c ==> multiset(r)[x] == multiset(s)[x]
    ensures c !in s ==> r == s
    decreases |s|
  {
    if |s| == 0 then []
    else
      assert s == [s[0]] + s[1..];
      (if s[0] == c then [] else [s[0]]) + RemoveChar(s[1..], c)
  }

  /** The search finds `p` exactly when `p` occurs in `s`. */
  lemma ContainsIffOccurs(s: string, p: string)
    ensures Contains(s, p) <==> Occurs(s, p)
  {
    FindFromFirst(s, p, 0);
    if Find(s, p) != -1 {
      assert OccursAt(s, p, Find(s, p));
    }
  }

  /** When the first character of `p` never occurs in `a`, the first
      occurrence of `p` in `a + p + b` is the one right after `a`. */
  lemma {:induction false} FindAfterHeadFree(a: string, p: string, b: string)
    requires |p| > 0 && p[0] !in a
    ensures Find(a + p + b, p) == |a|
  {
    var s := a + p + b;
    assert s[|a|..|a| + |p|] == p;
    assert OccursAt(s, p, |a|);
    FindFromFirst(s, p, 0);
    forall j | 0 <= j < |a|
      ensures !OccursAt(s, p, j)
    {
      assert s[j] == a[j] != p[0];
      assert s[j..j + |p|][0] == s[j];
    }
  }

  /** An occurrence of `p` cannot start inside a prefix that lacks `p[0]`. */
  lemma {:induction false} ContainsPastHeadFree(a: string, b: string, p: string)
    requires |p| > 0 && p[0] !in a
    ensures Contains(a + b, p) <==> Contains(b, p)
  {
    OccursPastHeadFree(a, b, p);
    ContainsIffOccurs(a + b, p);
    ContainsIffOccurs(b, p);
  }

  lemma {:induction false} OccursPastHeadFree(a: string, b: string, p: string)
    requires |p| > 0 && p[0] !in a
    ensures Occurs(a + b, p) <==> Occurs(b, p)
  {
    var s := a + b;
    if Occurs(s, p) {
      var i :| 0 <= i <= |s| - |p| && OccursAt(s, p, i);
      assert s[i..i + |p|][0] == s[i] == p[0];
      assert s[i..i + |p|] == b[i - |a|..i - |a| + |p|];
      assert OccursAt(b, p, i - |a|);
    }
    if Occurs(b, p) {
      var i :| 0 <= i <= |b| - |p| && OccursAt(b, p, i);
      assert s[i + |a|..i + |a| + |p|] == b[i..i + |p|];
      assert OccursAt(s, p, i + |a|);
    }
  }

  /** No occurrence of `p` in a string whose characters all lie outside `p[0]`. */
  lemma HeadFreeNotContains(s: string, p: string)
    requires |p| > 0 && p[0] !in s
    ensures !Contains(s, p)
  {
    ContainsPastHeadFree(s, [], p);
    assert s + [] == s;
    assert Find([], p) == -1;
  }
}
