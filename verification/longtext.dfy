/** Long posts (`get_long_weibo`).  The detail page of a post embeds the full
    status inside a script.  The scraper keeps the text from the first
    `"status":` anchor, cuts it before the last `"hotScheme"` anchor, cuts
    that before its last comma, and wraps the rest in braces so that it reads
    as a JSON object.  `find` and `rfind` answer -1 for a missing anchor, and
    a slice bound of -1 drops one character. */
module LongText {
  import opened Strings

  const StatusAnchor: string := "\"status\":"
  const SchemeAnchor: string := "\"hotScheme\""

  /** The braced payload cut out of a detail page.  Whatever the page holds,
      the result is a pair of braces around one contiguous piece of it. */
  function ExtractPayload(html: string): (r: string)
    ensures |r| >= 2 && r[0] == '{' && r[|r| - 1] == '}'
    ensures Occurs(html, r[1..|r| - 1])
  {
    var h1 := SliceFrom(html, Find(html, StatusAnchor));
    var h2 := SliceTo(h1, RFind(h1, SchemeAnchor));
    var h3 := SliceTo(h2, RFind(h2, ","));
    NestedSlice(html, h1, h2, h3);
    var r := "{" + h3 + "}";
    assert r[1..|r| - 1] == h3;
    r
  }

  /** A prefix of a suffix of `s` is a piece of `s`. */
  lemma NestedSlice(s: string, a: string, b: string, c: string)
    requires |a| <= |s| && a == s[|s| - |a|..]
    requires |b| <= |a| && b == a[..|b|]
    requires |c| <= |b| && c == b[..|c|]
    ensures Occurs(s, c)
  {
    var i := |s| - |a|;
    assert c == s[i..i + |c|];
    assert OccursAt(s, c, i);
  }

  /** A page without the `"status":` anchor yields the empty object: the cut
      keeps at most the last character, which cannot hold `"hotScheme"`. */
  lemma MissingStatusAnchor(html: string)
    requires !Contains(html, StatusAnchor)
    ensures ExtractPayload(html) == "{}"
  {
    var h1 := SliceFrom(html, -1);
    assert |h1| <= 1;
    assert RFind(h1, SchemeAnchor) == -1;
    assert SliceTo(h1, -1) == [];
    assert RFind([], ",") == -1;
  }

  /** An occurrence in `y` is an occurrence in `x + y`, shifted by `|x|`. */
  lemma OccursShift(x: string, y: string, p: string, j: int)
    requires 0 <= j
    ensures OccursAt(x + y, p, |x| + j) <==> OccursAt(y, p, j)
  {
    if j + |p| <= |y| {
      assert (x + y)[|x| + j..|x| + j + |p|] == y[j..j + |p|];
    }
  }

  /** The first occurrence of `p` is at `k` when `p` occurs there and at no
      earlier index. */
  lemma FindIsFirst(s: string, p: string, k: nat)
    requires OccursAt(s, p, k)
    requires forall i | 0 <= i < k :: !OccursAt(s, p, i)
    ensures Find(s, p) == k
  {
    FindFromFirst(s, p, 0);
  }

  /** The last occurrence of `p` is at `k` when `p` occurs there and at no
      later index. */
  lemma RFindIsLast(s: string, p: string, k: nat)
    requires OccursAt(s, p, k)
    requires forall j | k < j :: !OccursAt(s, p, j)
    ensures RFind(s, p) == k
  {
  }

  /** The last `"hotScheme"` of `body + SchemeAnchor + tail` is the displayed
      one when `tail` starts no later copy. */
  lemma SchemeCut(body: string, tail: string)
    requires forall j | 0 < j :: !OccursAt(SchemeAnchor + tail, SchemeAnchor, j)
    ensures RFind(body + (SchemeAnchor + tail), SchemeAnchor) == |body|
  {
    var s := body + (SchemeAnchor + tail);
    OccursShift(body, SchemeAnchor + tail, SchemeAnchor, 0);
    forall j | |body| < j
      ensures !OccursAt(s, SchemeAnchor, j)
    {
      OccursShift(body, SchemeAnchor + tail, SchemeAnchor, j - |body|);
    }
    RFindIsLast(s, SchemeAnchor, |body|);
  }

  /** The last comma of `head + "," + ws` is the displayed one when `ws` has
      none. */
  lemma CommaCut(head: string, ws: string)
    requires ',' !in ws
    ensures RFind(head + "," + ws, ",") == |head|
  {
    var s := head + "," + ws;
    assert s[|head|..|head| + 1] == ",";
    forall j | |head| < j
      ensures !OccursAt(s, ",", j)
    {
      if j < |s| {
        assert s[j] == ws[j - |head| - 1];
        assert s[j..j + 1][0] == s[j];
      }
    }
    RFindIsLast(s, ",", |head|);
  }

  /** The cut at the first `"status":` keeps the text from that anchor on. */
  lemma StatusCut(pre: string, h1: string)
    requires |h1| >= |StatusAnchor| && h1[..|StatusAnchor|] == StatusAnchor
    requires forall i | 0 <= i < |pre| :: !OccursAt(pre + h1, StatusAnchor, i)
    ensures SliceFrom(pre + h1, Find(pre + h1, StatusAnchor)) == h1
  {
    OccursShift(pre, h1, StatusAnchor, 0);
    FindIsFirst(pre + h1, StatusAnchor, |pre|);
    assert (pre + h1)[|pre|..] == h1;
  }

  /** `ExtractPayload` through its three cuts. */
  lemma PayloadOfCuts(html: string, h1: string, h2: string, h3: string)
    requires SliceFrom(html, Find(html, StatusAnchor)) == h1
    requires SliceTo(h1, RFind(h1, SchemeAnchor)) == h2
    requires SliceTo(h2, RFind(h2, ",")) == h3
    ensures ExtractPayload(html) == "{" + h3 + "}"
  {
  }

  /** On a well-formed detail page -- the status object after the first
      `"status":` anchor, a comma, then text without a comma up to the last
      `"hotScheme"` -- the payload is exactly `{"status":` followed by the
      object and a closing brace. */
  lemma WellFormedPage(html: string, pre: string, fields: string, ws: string, tail: string)
    requires html == pre + StatusAnchor + fields + "," + ws + SchemeAnchor + tail
    requires forall i | 0 <= i < |pre| :: !OccursAt(html, StatusAnchor, i)
    requires ',' !in ws
    requires forall j | 0 < j :: !OccursAt(SchemeAnchor + tail, SchemeAnchor, j)
    ensures ExtractPayload(html) == "{" + StatusAnchor + fields + "}"
  {
    var head := StatusAnchor + fields;
    var body := head + "," + ws;
    var h1 := body + (SchemeAnchor + tail);
    assert html == pre + h1;
    StatusCut(pre, h1);
    SchemeCut(body, tail);
    assert SliceTo(h1, |body|) == body;
    CommaCut(head, ws);
    assert SliceTo(body, |head|) == head;
    PayloadOfCuts(html, h1, body, head);
    Braced(StatusAnchor, fields);
  }

  lemma Braced(x: string, y: string)
    ensures "{" + (x + y) + "}" == "{" + x + y + "}"
  {
    assert "{" + (x + y) == "{" + x + y;
  }
}
