/** Post text cleanup (`clean_text`): three regular-expression passes, each
    deleting every match of a pattern of the shape `o[^c]+c` -- an opener,
    at least one character other than the closer, then the closer -- followed
    by `str.strip()`.  The passes are, in order, markup tags `<...>`, topics
    `#...#` and mentions `@name ` (the mention includes its trailing space). */
module TextCleaner {

  /** The characters `str.isspace()` accepts, which `str.strip()` removes. */
  predicate IsSpace(c: char) {
    || c == ' ' || '\t' <= c <= '\r' || '\U{1C}' <= c <= '\U{1F}'
    || c == '\U{85}' || c == '\U{A0}' || c == '\U{1680}'
    || '\U{2000}' <= c <= '\U{200A}' || c == '\U{2028}' || c == '\U{2029}'
    || c == '\U{202F}' || c == '\U{205F}' || c == '\U{3000}'
  }

  /** `o[^c]+c` matches at index `i`.  The run `[^c]+` is greedy and cannot
      cross a closer, so a match exists exactly when the character after the
      opener is not the closer and a closer follows somewhere later. */
  predicate SpanAt(s: string, i: nat, o: char, c: char) {
    i + 1 < |s| && s[i] == o && s[i + 1] != c && c in s[i + 2..]
  }

  /** No index of `s` starts a match. */
  predicate SpanFree(s: string, o: char, c: char) {
    forall i: nat | i < |s| :: !SpanAt(s, i, o, c)
  }

  /** The first index of `c` in `s`. */
  function IndexOf(s: string, c: char): (k: nat)
    requires c in s
    ensures k < |s| && s[k] == c && c !in s[..k]
  {
    if s[0] == c then 0
    else
      assert s == [s[0]] + s[1..];
      var k := 1 + IndexOf(s[1..], c);
      assert s[..k] == [s[0]] + s[1..][..k - 1];
      k
  }

  /** One past the closer of the match at index 0: the match is `s[..e]`
      and its only closer is the last character. */
  function SpanEnd(s: string, o: char, c: char): (e: nat)
    requires SpanAt(s, 0, o, c)
    ensures 3 <= e <= |s| && s[e - 1] == c && c !in s[1..e - 1]
  {
    var e := 3 + IndexOf(s[2..], c);
    assert s[1..e - 1] == [s[1]] + s[2..][..e - 3];
    e
  }

  /** `re.sub(o + "[^" + c + "]+" + c, "", s)`: the scan goes left to right;
      a match is dropped and the scan resumes after its closer, any other
      character is kept. */
  function RemoveSpans(s: string, o: char, c: char): (r: string)
    ensures |r| <= |s|
    decreases |s|
  {
    if |s| == 0 then []
    else if SpanAt(s, 0, o, c) then RemoveSpans(s[SpanEnd(s, o, c)..], o, c)
    else [s[0]] + RemoveSpans(s[1..], o, c)
  }

  /** A pass only deletes characters: every character of the output, with
      its multiplicity, comes from the input. */
  lemma {:induction false} RemoveSpansSubset(s: string, o: char, c: char)
    ensures multiset(RemoveSpans(s, o, c)) <= multiset(s)
    decreases |s|
  {
    if |s| == 0 {
    } else if SpanAt(s, 0, o, c) {
      var e := SpanEnd(s, o, c);
      RemoveSpansSubset(s[e..], o, c);
      assert s == s[..e] + s[e..];
    } else {
      RemoveSpansSubset(s[1..], o, c);
      assert s == [s[0]] + s[1..];
    }
  }

  /** `s.lstrip()` */
  function StripLeft(s: string): (r: string)
    ensures |r| <= |s| && r == s[|s| - |r|..]
    ensures forall i :: 0 <= i < |s| - |r| ==> IsSpace(s[i])
    ensures |r| > 0 ==> !IsSpace(r[0])
    decreases |s|
  {
    if |s| > 0 && IsSpace(s[0]) then StripLeft(s[1..]) else s
  }

  /** `s.rstrip()` */
  function StripRight(s: string): (r: string)
    ensures |r| <= |s| && r == s[..|r|]
    ensures forall i :: |r| <= i < |s| ==> IsSpace(s[i])
    ensures |r| > 0 ==> !IsSpace(r[|r| - 1])
    decreases |s|
  {
    if |s| > 0 && IsSpace(s[|s| - 1]) then StripRight(s[..|s| - 1]) else s
  }

  /** `s.strip()`: the slice of `s` left once the whitespace at both ends is
      cut off; all of `s` is cut when it is whitespace only. */
  function Strip(s: string): (r: string)
    ensures exists a, b | 0 <= a <= b <= |s| ::
      && r == s[a..b]
      && (forall i | 0 <= i < a :: IsSpace(s[i]))
      && (forall i | b <= i < |s| :: IsSpace(s[i]))
    ensures |r| > 0 ==> !IsSpace(r[0]) && !IsSpace(r[|r| - 1])
  {
    var l := StripLeft(s);
    var r := StripRight(l);
    assert r == s[|s| - |l|..|s| - |l| + |r|];
    r
  }

  /** `clean_text(text)`: the result has no whitespace at either end and
      holds no markup tag and no mention; it only deletes characters
      (`CleanTextSubset`).  Topics can survive: see
      `TopicPassNotIdempotent`. */
  function CleanText(s: string): (r: string)
    ensures |r| > 0 ==> !IsSpace(r[0]) && !IsSpace(r[|r| - 1])
    ensures SpanFree(r, '<', '>') && SpanFree(r, '@', ' ')
  {
    var tags := RemoveSpans(s, '<', '>');
    var topics := RemoveSpans(tags, '#', '#');
    var mentions := RemoveSpans(topics, '@', ' ');
    RemoveSpansSpanFree(s, '<', '>');
    RemoveSpansKeepsSpanFree(tags, '#', '#', '<', '>');
    RemoveSpansKeepsSpanFree(topics, '@', ' ', '<', '>');
    RemoveSpansSpanFree(topics, '@', ' ');
    StripSpanFree(mentions, '<', '>');
    StripSpanFree(mentions, '@', ' ');
    Strip(mentions)
  }

  // ----- Matches and slices -----

  /** A match in a slice is a match in the whole string. */
  lemma SliceSpanAt(s: string, a: nat, b: nat, i: nat, o: char, c: char)
    requires a <= b <= |s|
    ensures SpanAt(s[a..b], i, o, c) ==> SpanAt(s, a + i, o, c)
  {
    var t := s[a..b];
    if SpanAt(t, i, o, c) {
      var k :| i + 2 <= k < |t| && t[k] == c;
      assert s[a + k] == c;
      assert s[a + i + 2..][k - i - 2] == c;
    }
  }

  /** Removing characters at either end never creates a match. */
  lemma SliceSpanFree(s: string, a: nat, b: nat, o: char, c: char)
    requires a <= b <= |s| && SpanFree(s, o, c)
    ensures SpanFree(s[a..b], o, c)
  {
    forall i: nat
      ensures !SpanAt(s[a..b], i, o, c)
    {
      SliceSpanAt(s, a, b, i, o, c);
    }
  }

  /** Matches in `[x] + r` past index 0 are the matches of `r`, shifted. */
  lemma ConsSpanAt(x: char, r: string, i: nat, o: char, c: char)
    ensures SpanAt([x] + r, i + 1, o, c) <==> SpanAt(r, i, o, c)
  {
    if i + 1 < |r| {
      assert ([x] + r)[i + 3..] == r[i + 2..];
    }
  }

  /** A string without the opener has no match. */
  lemma NoOpenerSpanFree(s: string, o: char, c: char)
    requires o !in s
    ensures SpanFree(s, o, c)
  {
    forall i: nat | i < |s|
      ensures s[i] != o
    {
    }
  }

  lemma InTail(r: string, x: char)
    requires |r| > 0 && x in r[1..]
    ensures x in r
  {
    var k :| 0 <= k < |r[1..]| && r[1..][k] == x;
    assert r[k + 1] == x;
  }

  // ----- One pass -----

  /** Putting `x` in front of a match-free string creates no match unless
      `x` is the opener and what follows it could complete one. */
  lemma ConsSpanFree(x: char, rest: string, o: char, c: char)
    requires SpanFree(rest, o, c)
    requires x == o && |rest| > 0 ==> rest[0] == c || c !in rest[1..]
    ensures SpanFree([x] + rest, o, c)
  {
    var r := [x] + rest;
    forall i: nat | i < |r|
      ensures !SpanAt(r, i, o, c)
    {
      if i > 0 {
        ConsSpanAt(x, rest, i - 1, o, c);
      } else if x == o && |rest| > 0 {
        assert r[2..] == rest[1..];
      }
    }
  }

  /** When opener and closer differ, no match survives a pass. */
  lemma {:induction false} RemoveSpansSpanFree(s: string, o: char, c: char)
    requires o != c
    ensures SpanFree(RemoveSpans(s, o, c), o, c)
    decreases |s|
  {
    if |s| == 0 {
    } else if SpanAt(s, 0, o, c) {
      RemoveSpansSpanFree(s[SpanEnd(s, o, c)..], o, c);
    } else {
      RemoveSpansSpanFree(s[1..], o, c);
      if s[0] == o && |s| >= 2 {
        FollowerKept(s, o, c, c);
      }
      ConsSpanFree(s[0], RemoveSpans(s[1..], o, c), o, c);
    }
  }

  /** A pass for one pattern creates no match of another pattern whose
      opener and closer both differ from its own opener. */
  lemma {:induction false} RemoveSpansKeepsSpanFree(s: string, o: char, c: char, o2: char, c2: char)
    requires SpanFree(s, o2, c2) && o != o2 && o != c2
    ensures SpanFree(RemoveSpans(s, o, c), o2, c2)
    decreases |s|
  {
    if |s| == 0 {
    } else if SpanAt(s, 0, o, c) {
      var e := SpanEnd(s, o, c);
      SliceSpanFree(s, e, |s|, o2, c2);
      assert s[e..|s|] == s[e..];
      RemoveSpansKeepsSpanFree(s[e..], o, c, o2, c2);
    } else {
      SliceSpanFree(s, 1, |s|, o2, c2);
      assert s[1..|s|] == s[1..];
      RemoveSpansKeepsSpanFree(s[1..], o, c, o2, c2);
      if s[0] == o2 && |s| >= 2 {
        assert !SpanAt(s, 0, o2, c2);
        FollowerKept(s, o, c, c2);
      }
      ConsSpanFree(s[0], RemoveSpans(s[1..], o, c), o2, c2);
    }
  }

  /** A pass leaves a match-free string unchanged. */
  lemma {:induction false} SpanFreeFixed(s: string, o: char, c: char)
    requires SpanFree(s, o, c)
    ensures RemoveSpans(s, o, c) == s
    decreases |s|
  {
    if |s| > 0 {
      assert !SpanAt(s, 0, o, c);
      SliceSpanFree(s, 1, |s|, o, c);
      assert s[1..|s|] == s[1..];
      SpanFreeFixed(s[1..], o, c);
      assert s == [s[0]] + s[1..];
    }
  }

  /** With distinct opener and closer a second pass changes nothing. */
  lemma RemoveSpansIdempotent(s: string, o: char, c: char)
    requires o != c
    ensures RemoveSpans(RemoveSpans(s, o, c), o, c) == RemoveSpans(s, o, c)
  {
    RemoveSpansSpanFree(s, o, c);
    SpanFreeFixed(RemoveSpans(s, o, c), o, c);
  }

  /** A character that does not open a match is kept. */
  lemma KeptHead(t: string, o: char, c: char)
    requires |t| > 0 && !SpanAt(t, 0, o, c)
    ensures RemoveSpans(t, o, c) == [t[0]] + RemoveSpans(t[1..], o, c)
  {
  }

  /** A pass introduces no character. */
  lemma StaysAbsent(t: string, o: char, c: char, d: char)
    requires d !in t
    ensures d !in RemoveSpans(t, o, c)
  {
    RemoveSpansSubset(t, o, c);
    assert multiset(RemoveSpans(t, o, c))[d] <= multiset(t)[d];
  }

  /** The character after a kept one: if the input has `d` there, the
      pass keeps it (it is not the opener); if `d` is absent from the rest of
      the input, it is absent from the rest of the output. */
  lemma FollowerKept(s: string, o: char, c: char, d: char)
    requires |s| >= 2 && d != o && (s[1] == d || d !in s[2..])
    ensures var rest := RemoveSpans(s[1..], o, c);
      |rest| > 0 ==> rest[0] == d || d !in rest[1..]
  {
    var t := s[1..];
    if s[1] == d {
      KeptHead(t, o, c);
    } else {
      assert t == [s[1]] + s[2..];
      StaysAbsent(t, o, c, d);
      var rest := RemoveSpans(t, o, c);
      if |rest| > 0 && d in rest[1..] {
        InTail(rest, d);
      }
    }
  }

  // ----- Strip -----

  lemma SliceMultiset(s: string, a: nat, b: nat)
    requires a <= b <= |s|
    ensures multiset(s[a..b]) <= multiset(s)
  {
    assert s == s[..a] + s[a..b] + s[b..];
  }

  /** `strip()` returns a slice of its input. */
  lemma StripSlice(s: string) returns (a: nat, b: nat)
    ensures a <= b <= |s| && Strip(s) == s[a..b]
  {
    var l := StripLeft(s);
    a := |s| - |l|;
    b := a + |Strip(s)|;
    assert Strip(s) == l[..|Strip(s)|];
  }

  lemma StripMultiset(s: string)
    ensures multiset(Strip(s)) <= multiset(s)
  {
    var a, b := StripSlice(s);
    SliceMultiset(s, a, b);
  }

  /** `strip()` creates no match. */
  lemma StripSpanFree(s: string, o: char, c: char)
    requires SpanFree(s, o, c)
    ensures SpanFree(Strip(s), o, c)
  {
    var a, b := StripSlice(s);
    SliceSpanFree(s, a, b, o, c);
  }

  /** Cleaning only deletes characters. */
  lemma CleanTextSubset(s: string)
    ensures multiset(CleanText(s)) <= multiset(s)
  {
    var tags := RemoveSpans(s, '<', '>');
    var topics := RemoveSpans(tags, '#', '#');
    var mentions := RemoveSpans(topics, '@', ' ');
    RemoveSpansSubset(s, '<', '>');
    RemoveSpansSubset(tags, '#', '#');
    RemoveSpansSubset(topics, '@', ' ');
    StripMultiset(mentions);
  }

  /** A string without whitespace at either end is its own `strip()`. */
  lemma StripFixed(s: string)
    requires |s| > 0 ==> !IsSpace(s[0]) && !IsSpace(s[|s| - 1])
    ensures Strip(s) == s
  {
  }

  lemma StripIdempotent(s: string)
    ensures Strip(Strip(s)) == Strip(s)
  {
    StripFixed(Strip(s));
  }

  // ----- Whole-text properties -----

  /** Text without '<', '#' or '@' and without surrounding whitespace comes
      back unchanged. */
  lemma CleanTextPlain(s: string)
    requires '<' !in s && '#' !in s && '@' !in s
    requires |s| > 0 ==> !IsSpace(s[0]) && !IsSpace(s[|s| - 1])
    ensures CleanText(s) == s
  {
    NoOpenerSpanFree(s, '<', '>');
    SpanFreeFixed(s, '<', '>');
    NoOpenerSpanFree(s, '#', '#');
    SpanFreeFixed(s, '#', '#');
    NoOpenerSpanFree(s, '@', ' ');
    SpanFreeFixed(s, '@', ' ');
    StripFixed(s);
  }

  /** Characters other than the opener pass through unchanged. */
  lemma {:induction false} KeepPlain(p: string, t: string, o: char, c: char)
    requires o !in p
    ensures RemoveSpans(p + t, o, c) == p + RemoveSpans(t, o, c)
    decreases |p|
  {
    if |p| == 0 {
      assert p + t == t;
    } else {
      KeptHead(p + t, o, c);
      assert (p + t)[1..] == p[1..] + t;
      KeepPlain(p[1..], t, o, c);
      assert p == [p[0]] + p[1..];
    }
  }

  /** A complete match at the front is dropped. */
  lemma DropMatch(body: string, t: string, o: char, c: char)
    requires |body| > 0 && c !in body
    ensures RemoveSpans([o] + body + [c] + t, o, c) == RemoveSpans(t, o, c)
  {
    var s := [o] + body + [c] + t;
    var x := s[2..];
    assert s[1] == body[0];
    assert x[|body| - 1] == c;
    assert SpanAt(s, 0, o, c);
    var k := IndexOf(x, c);
    assert x[..|body| - 1] == body[1..];
    assert k == |body| - 1;
    assert s[3 + k..] == t;
  }

  lemma Assoc(a: string, b: string, c: string)
    ensures a + (b + c) == (a + b) + c
  {
  }

  /** A pass over text without its opener changes nothing. */
  lemma PassFixed(s: string, o: char, c: char)
    requires o !in s
    ensures RemoveSpans(s, o, c) == s
  {
    NoOpenerSpanFree(s, o, c);
    SpanFreeFixed(s, o, c);
  }

  /** One complete match between plain text is dropped, and only it. */
  lemma KeepDropKeep(p: string, body: string, q: string, o: char, c: char)
    requires o !in p && o !in q && |body| > 0 && c !in body
    ensures RemoveSpans(p + [o] + body + [c] + q, o, c) == p + q
  {
    Assoc(p, [o], body);
    Assoc(p, [o] + body, [c]);
    Assoc(p, [o] + body + [c], q);
    KeepPlain(p, [o] + body + [c] + q, o, c);
    DropMatch(body, q, o, c);
    PassFixed(q, o, c);
  }

  /** The pass for topics, whose opener and closer coincide, is not
      idempotent: a '#' kept in front of a dropped topic pairs up with the
      closing '#' of a later word on the next pass. */
  lemma TopicPassNotIdempotent(a: string, b: string)
    requires |a| > 0 && |b| > 0 && '#' !in a && '#' !in b
    ensures RemoveSpans("##" + a + "#" + b + "#", '#', '#') == "#" + b + "#"
    ensures RemoveSpans("#" + b + "#", '#', '#') == ""
  {
    TopicPassFirst(a, b);
    TopicPassSecond(b);
  }

  lemma TopicPassFirst(a: string, b: string)
    requires |a| > 0 && |b| > 0 && '#' !in a && '#' !in b
    ensures RemoveSpans("##" + a + "#" + b + "#", '#', '#') == "#" + b + "#"
  {
    var x := "#" + a + "#";
    var t := x + (b + "#");
    var s := "##" + a + "#" + b + "#";
    HashShape(a, b);
    assert s[1..] == t;
    assert !SpanAt(s, 0, '#', '#');
    KeptHead(s, '#', '#');
    DropMatch(a, b + "#", '#', '#');
    KeepPlain(b, "#", '#', '#');
    NoSingleSpan("#", '#', '#');
    SpanFreeFixed("#", '#', '#');
    Assoc("#", b, "#");
  }

  lemma HashShape(a: string, b: string)
    ensures "##" + a + "#" + b + "#" == "#" + (("#" + a + "#") + (b + "#"))
  {
    var x := "#" + a + "#";
    assert "##" == "#" + "#";
    Assoc("#", "#", a);
    Assoc("#", "#" + a, "#");
    Assoc("#", x, b + "#");
    Assoc("#" + x, b, "#");
  }

  lemma TopicPassSecond(b: string)
    requires |b| > 0 && '#' !in b
    ensures RemoveSpans("#" + b + "#", '#', '#') == ""
  {
    assert "#" + b + "#" == "#" + b + "#" + "";
    DropMatch(b, "", '#', '#');
  }

  /** Two characters never hold a match. */
  lemma NoSingleSpan(s: string, o: char, c: char)
    requires |s| <= 2
    ensures SpanFree(s, o, c)
  {
  }

  /** Text with topics but no tag and no mention is cleaned by the topic pass
      and `strip()` alone. */
  lemma TopicsOnly(s: string)
    requires '<' !in s && '@' !in s
    ensures CleanText(s) == Strip(RemoveSpans(s, '#', '#'))
  {
    PassFixed(s, '<', '>');
    StaysAbsent(s, '#', '#', '@');
    PassFixed(RemoveSpans(s, '#', '#'), '@', ' ');
  }

  /** Cleaning cleaned text can change it again: "##a#b#" becomes "#b#",
      which becomes "". */
  lemma CleanTextNotIdempotent(a: string, b: string)
    requires |a| > 0 && |b| > 0 && '#' !in a && '#' !in b
    requires '<' !in a + b && '@' !in a + b
    ensures CleanText("##" + a + "#" + b + "#") == "#" + b + "#"
    ensures CleanText(CleanText("##" + a + "#" + b + "#")) == ""
  {
    CleanTextFirst(a, b);
    CleanTextSecond(b);
  }

  lemma CleanTextFirst(a: string, b: string)
    requires |a| > 0 && |b| > 0 && '#' !in a && '#' !in b
    requires '<' !in a + b && '@' !in a + b
    ensures CleanText("##" + a + "#" + b + "#") == "#" + b + "#"
  {
    var s := "##" + a + "#" + b + "#";
    assert '<' !in s && '@' !in s;
    TopicPassFirst(a, b);
    TopicsOnly(s);
    StripFixed("#" + b + "#");
  }

  lemma CleanTextSecond(b: string)
    requires |b| > 0 && '#' !in b && '<' !in b && '@' !in b
    ensures CleanText("#" + b + "#") == ""
  {
    TopicPassSecond(b);
    TopicsOnly("#" + b + "#");
  }

  /** A mention is removed with its trailing space wherever it stands, not
      only at the start of the text. */
  lemma MentionRemoved(p: string, user: string, q: string)
    requires '<' !in p + user + q && '#' !in p + user + q && '@' !in p + q
    requires |user| > 0 && ' ' !in user
    ensures CleanText(p + "@" + user + " " + q) == Strip(p + q)
  {
    var s := p + "@" + user + " " + q;
    PassFixed(s, '<', '>');
    PassFixed(s, '#', '#');
    assert s == p + ['@'] + user + [' '] + q;
    KeepDropKeep(p, user, q, '@', ' ');
  }

  /** A topic is removed wherever it stands; the text on both sides of it,
      spaces included, is kept. */
  lemma TopicRemoved(p: string, topic: string, q: string)
    requires '<' !in p + topic + q && '#' !in p + topic + q && '@' !in p + topic + q
    requires |topic| > 0
    ensures CleanText(p + "#" + topic + "#" + q) == Strip(p + q)
  {
    var s := p + "#" + topic + "#" + q;
    TopicsOnly(s);
    KeepDropKeep(p, topic, q, '#', '#');
  }

  /** A text wrapped in a tag pair and followed by a topic and a mention
      keeps only the text, the two spaces around the topic and the tail. */
  lemma MarkedUpText(open: string, w: string, close: string, topic: string, user: string, q: string)
    requires |open| > 0 && '>' !in open && |close| > 0 && '>' !in close
    requires '<' !in w && '#' !in w && '@' !in w
    requires '<' !in q && '#' !in q && '@' !in q
    requires |topic| > 0 && '<' !in topic && '#' !in topic && '@' !in topic
    requires |user| > 0 && ' ' !in user && '<' !in user && '#' !in user && '@' !in user
    requires |w| > 0 && !IsSpace(w[0]) && |q| > 0 && !IsSpace(q[|q| - 1])
    ensures CleanText("<" + open + ">" + w + "<" + close + ">" + " #" + topic + "# @" + user + " " + q)
      == w + "  " + q
  {
    var s := "<" + open + ">" + w + "<" + close + ">" + " #" + topic + "# @" + user + " " + q;
    var mention := " @" + user + " " + q;
    var mid := " #" + topic + "#" + mention;
    MarkedUpShape(open, w, close, topic, user, q);
    assert '<' !in mention && '<' !in mid;
    MarkedUpTags(open, w, close, mid);
    MarkedUpTopic(w, topic, mention);
    MarkedUpMention(w, user, q);
    CleanTextPasses(s);
    var r := w + "  " + q;
    assert r[0] == w[0] && r[|r| - 1] == q[|q| - 1];
    StripFixed(r);
  }

  lemma MarkedUpShape(open: string, w: string, close: string, topic: string, user: string, q: string)
    ensures var mid := " #" + topic + "#" + (" @" + user + " " + q);
      && "<" + open + ">" + w + "<" + close + ">" + " #" + topic + "# @" + user + " " + q
        == ['<'] + open + ['>'] + (w + ['<'] + close + ['>'] + mid)
      && w + mid == (w + " ") + ['#'] + topic + ['#'] + (" @" + user + " " + q)
      && (w + " ") + (" @" + user + " " + q) == (w + "  ") + ['@'] + user + [' '] + q
  {
  }

  /** `clean_text` as its four steps. */
  lemma CleanTextPasses(s: string)
    ensures CleanText(s) == Strip(RemoveSpans(RemoveSpans(RemoveSpans(s, '<', '>'), '#', '#'), '@', ' '))
  {
  }

  lemma MarkedUpTags(open: string, w: string, close: string, mid: string)
    requires |open| > 0 && '>' !in open && |close| > 0 && '>' !in close
    requires '<' !in w && '<' !in mid
    ensures RemoveSpans(['<'] + open + ['>'] + (w + ['<'] + close + ['>'] + mid), '<', '>') == w + mid
  {
    DropMatch(open, w + ['<'] + close + ['>'] + mid, '<', '>');
    KeepDropKeep(w, close, mid, '<', '>');
  }

  lemma MarkedUpTopic(w: string, topic: string, mention: string)
    requires '#' !in w && '#' !in mention && |topic| > 0 && '#' !in topic
    ensures RemoveSpans((w + " ") + ['#'] + topic + ['#'] + mention, '#', '#') == (w + " ") + mention
  {
    KeepDropKeep(w + " ", topic, mention, '#', '#');
  }

  lemma MarkedUpMention(w: string, user: string, q: string)
    requires '@' !in w && '@' !in q && |user| > 0 && ' ' !in user
    ensures RemoveSpans((w + "  ") + ['@'] + user + [' '] + q, '@', ' ') == w + "  " + q
  {
    KeepDropKeep(w + "  ", user, q, '@', ' ');
  }

  /** Both tags, the topic and the mention go; the spaces on either side
      of the topic both stay. */
  lemma CleanTextExample()
    ensures CleanText("<b>hi</b> #topic# @user hello") == "hi  hello"
  {
    ExampleShape();
    ExamplePlain();
    MarkedUpText("b", "hi", "/b", "topic", "user", "hello");
  }

  lemma ExampleShape()
    ensures "<b>hi</b> #topic# @user hello"
      == "<" + "b" + ">" + "hi" + "<" + "/b" + ">" + " #" + "topic" + "# @" + "user" + " " + "hello"
  {
  }

  lemma ExamplePlain()
    ensures '<' !in "hi" && '#' !in "hi" && '@' !in "hi"
    ensures '<' !in "hello" && '#' !in "hello" && '@' !in "hello"
    ensures '<' !in "topic" && '#' !in "topic" && '@' !in "topic"
    ensures ' ' !in "user" && '<' !in "user" && '#' !in "user" && '@' !in "user"
    ensures !IsSpace('h') && !IsSpace('o') && "hi" + "  " + "hello" == "hi  hello"
  {
  }

  /** A markup tag is removed wherever it stands. */
  lemma TagRemoved(p: string, tag: string, q: string)
    requires '<' !in p + q && '#' !in p + tag + q && '@' !in p + tag + q
    requires |tag| > 0 && '>' !in tag
    ensures CleanText(p + "<" + tag + ">" + q) == Strip(p + q)
  {
    var s := p + "<" + tag + ">" + q;
    assert s == p + ['<'] + tag + ['>'] + q;
    KeepDropKeep(p, tag, q, '<', '>');
    PassFixed(p + q, '#', '#');
    PassFixed(p + q, '@', ' ');
  }
}
