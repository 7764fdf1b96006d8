/** Engagement sums, the attention score and the batch normalisation.  A
    subject's attention score is its total engagement (reposts, comments and
    likes over `weibo`) divided by `got_count`.  Over a batch of subjects each
    score is rescaled with `max_min_nomralization` against bounds widened to
    1.1 times the largest and 0.9 times the smallest score.  Scores are
    `real`: floating-point rounding is not modelled. */
module Scores {
  import opened Wrappers
  import opened Posts
  import opened Crawler

  /** The three engagement counters of a post. */
  datatype Counter = Reposts | Comments | Attitudes

  function CountOf(st: Status, c: Counter): int {
    match c
    case Reposts => st.reposts
    case Comments => st.comments
    case Attitudes => st.attitudes
  }

  /** `sum(p[c] for p in ws)`, over the author level of each post. */
  function Total(ws: seq<Post>, c: Counter): int
    decreases |ws|
  {
    if |ws| == 0 then 0 else Total(ws[..|ws| - 1], c) + CountOf(ws[|ws| - 1].status, c)
  }

  /** A sum over two runs of posts is the sum of the sums. */
  lemma {:induction false} TotalAppend(a: seq<Post>, b: seq<Post>, c: Counter)
    ensures Total(a + b, c) == Total(a, c) + Total(b, c)
    decreases |b|
  {
    if |b| > 0 {
      assert (a + b)[..|a + b| - 1] == a + b[..|b| - 1];
      TotalAppend(a, b[..|b| - 1], c);
    } else {
      assert a + b == a;
    }
  }

  /** Counters that are never negative give a sum that is never negative. */
  lemma {:induction false} TotalNonNegative(ws: seq<Post>, c: Counter)
    requires forall k | 0 <= k < |ws| :: CountOf(ws[k].status, c) >= 0
    ensures Total(ws, c) >= 0
    decreases |ws|
  {
    if |ws| > 0 {
      TotalNonNegative(ws[..|ws| - 1], c);
    }
  }

  /** `reposts_count + comments_count + attitudes_count` */
  function Engagement(ws: seq<Post>): int {
    Total(ws, Reposts) + Total(ws, Comments) + Total(ws, Attitudes)
  }

  /** Gathering more posts adds their engagement to the subject's. */
  lemma EngagementAppend(a: seq<Post>, b: seq<Post>)
    ensures Engagement(a + b) == Engagement(a) + Engagement(b)
  {
    TotalAppend(a, b, Reposts);
    TotalAppend(a, b, Comments);
    TotalAppend(a, b, Attitudes);
  }

  /** `attn_score`: engagement per gathered post, with Python's true
      division, which raises ZeroDivisionError when `got_count` is 0. */
  function AttnScore(t: Talent): (r: Result<real>)
    ensures r.Failure? <==> t.gotCount == 0
    ensures r.Failure? ==> r.error == ZeroDivisionError
    ensures r.Success? ==> r.value * (t.gotCount as real) == Engagement(t.weibo) as real
  {
    if t.gotCount == 0 then Failure(ZeroDivisionError)
    else Success(Engagement(t.weibo) as real / t.gotCount as real)
  }

  /** For a subject whose count matches its posts, and whose counters are
      never negative, the attention score is a non-negative mean. */
  lemma AttnScoreNonNegative(t: Talent)
    requires Consistent(t) && |t.weibo| > 0
    requires forall k, c | 0 <= k < |t.weibo| :: CountOf(t.weibo[k].status, c) >= 0
    ensures AttnScore(t).Success? && AttnScore(t).value >= 0.0
  {
    TotalNonNegative(t.weibo, Reposts);
    TotalNonNegative(t.weibo, Comments);
    TotalNonNegative(t.weibo, Attitudes);
  }

  /** After a crawl, the subject's engagement is what it held before plus
      the engagement of the harvested posts. */
  lemma CrawlEngagement(before: Talent, after: Talent, pages: seq<Result<Page>>, assemble: Card -> Result<Post>)
    requires after.weibo == before.weibo + Harvest(pages, before.filter, assemble)
    ensures Engagement(after.weibo) == Engagement(before.weibo) + Engagement(Harvest(pages, before.filter, assemble))
  {
    EngagementAppend(before.weibo, Harvest(pages, before.filter, assemble));
  }

  /** `max_min_nomralization(x, max, min)`: the position of `x` between `min`
      (0) and `max` (100), or 100 when the bounds coincide. */
  function Normalize(x: real, max: real, min: real): (r: real)
    ensures max == min ==> r == 100.0
    ensures max != min ==> r * (max - min) == (x - min) * 100.0
  {
    if max != min then (x - min) * 100.0 / (max - min) else 100.0
  }

  /** The bounds themselves map to 0 and 100. */
  lemma NormalizeEnds(max: real, min: real)
    requires max != min
    ensures Normalize(min, max, min) == 0.0
    ensures Normalize(max, max, min) == 100.0
  {
    assert (max - min) * 100.0 / (max - min) == 100.0;
  }

  /** Normalisation keeps order when `max` exceeds `min`. */
  lemma NormalizeMonotone(x: real, y: real, max: real, min: real)
    requires max > min && x <= y
    ensures Normalize(x, max, min) <= Normalize(y, max, min)
  {
    assert (x - min) * 100.0 <= (y - min) * 100.0;
  }

  /** Normalisation is undone by scaling back: `x` is recovered from its
      normalised value whenever the bounds differ. */
  lemma NormalizeInverse(x: real, max: real, min: real)
    requires max != min
    ensures min + Normalize(x, max, min) * (max - min) / 100.0 == x
  {
  }

  /** A value between the bounds normalises into [0, 100], strictly inside
      when it is strictly between them. */
  lemma NormalizeBetween(x: real, max: real, min: real)
    requires min < max && min <= x <= max
    ensures 0.0 <= Normalize(x, max, min) <= 100.0
    ensures min < x < max ==> 0.0 < Normalize(x, max, min) < 100.0
  {
    var r := Normalize(x, max, min);
    var w := max - min;
    assert (100.0 - r) * w == (max - x) * 100.0;
    FactorSign(r, w);
    FactorSign(100.0 - r, w);
  }

  /** The sign of `a` is the sign of `a * w` for a positive `w`. */
  lemma FactorSign(a: real, w: real)
    requires w > 0.0
    ensures 0.0 <= a * w ==> 0.0 <= a
    ensures 0.0 < a * w ==> 0.0 < a
  {
  }

  /** `max(xs)` */
  function Max(xs: seq<real>): (m: real)
    requires |xs| > 0
    ensures m in xs && forall i | 0 <= i < |xs| :: xs[i] <= m
    decreases |xs|
  {
    if |xs| == 1 then xs[0]
    else
      var m := Max(xs[1..]);
      assert forall i | 1 <= i < |xs| :: xs[i] == xs[1..][i - 1];
      if xs[0] >= m then xs[0] else m
  }

  /** `min(xs)` */
  function Min(xs: seq<real>): (m: real)
    requires |xs| > 0
    ensures m in xs && forall i | 0 <= i < |xs| :: m <= xs[i]
    decreases |xs|
  {
    if |xs| == 1 then xs[0]
    else
      var m := Min(xs[1..]);
      assert forall i | 1 <= i < |xs| :: xs[i] == xs[1..][i - 1];
      if xs[0] <= m then xs[0] else m
  }

  /** The widened batch bounds `max * 1.1` and `min * 0.9`. */
  datatype Bounds = Bounds(hi: real, lo: real)

  /** The bounds of a batch: 1.1 times its largest score and 0.9 times its
      smallest; `max()` of an empty batch raises ValueError. */
  function BatchBounds(xs: seq<real>): (r: Result<Bounds>)
    ensures r.Failure? <==> |xs| == 0
    ensures r.Failure? ==> r.error == ValueError
    ensures r.Success? ==> exists i | 0 <= i < |xs| ::
      r.value.hi == xs[i] * 1.1 && forall k | 0 <= k < |xs| :: xs[k] <= xs[i]
    ensures r.Success? ==> exists j | 0 <= j < |xs| ::
      r.value.lo == xs[j] * 0.9 && forall k | 0 <= k < |xs| :: xs[j] <= xs[k]
    ensures r.Success? ==> forall i | 0 <= i < |xs| :: xs[i] >= 0.0 ==> r.value.lo <= xs[i] <= r.value.hi
  {
    if |xs| == 0 then Failure(ValueError)
    else
      var hi, lo := Max(xs), Min(xs);
      assert exists i | 0 <= i < |xs| :: xs[i] == hi;
      assert exists j | 0 <= j < |xs| :: xs[j] == lo;
      Success(Bounds(hi * 1.1, lo * 0.9))
  }

  /** Every score of a batch normalised against the batch bounds. */
  function NormalizeBatch(xs: seq<real>): (r: Result<seq<real>>)
    ensures r.Failure? <==> |xs| == 0
    ensures r.Success? ==> |r.value| == |xs|
    ensures r.Success? ==> var b := BatchBounds(xs).value;
      forall k | 0 <= k < |xs| :: r.value[k] == Normalize(xs[k], b.hi, b.lo)
  {
    var b :- BatchBounds(xs);
    Success(seq(|xs|, i requires 0 <= i < |xs| => Normalize(xs[i], b.hi, b.lo)))
  }

  /** Scores that are never negative normalise into [0, 100], and strictly
      inside it when the smallest score is positive. */
  lemma BatchInRange(xs: seq<real>)
    requires |xs| > 0 && forall i | 0 <= i < |xs| :: xs[i] >= 0.0
    ensures forall i | 0 <= i < |xs| :: 0.0 <= NormalizeBatch(xs).value[i] <= 100.0
    ensures Min(xs) > 0.0 ==> forall i | 0 <= i < |xs| :: 0.0 < NormalizeBatch(xs).value[i] < 100.0
  {
    var b := BatchBounds(xs).value;
    var ys := NormalizeBatch(xs).value;
    forall i | 0 <= i < |xs|
      ensures 0.0 <= ys[i] <= 100.0
      ensures Min(xs) > 0.0 ==> 0.0 < ys[i] < 100.0
    {
      if b.hi == b.lo {
        assert ys[i] == 100.0;
        assert Min(xs) == 0.0 by {
          assert Max(xs) * 1.1 == Min(xs) * 0.9;
        }
      } else {
        NormalizeBetween(xs[i], b.hi, b.lo);
        if Min(xs) > 0.0 {
          assert b.lo < Min(xs) <= xs[i];
          assert xs[i] <= Max(xs) < b.hi;
        }
      }
    }
  }

  /** A batch whose scores all equal some positive `c` normalises to 50 for
      everyone: the widened bounds put `c` half way between them. */
  lemma BatchAllEqual(xs: seq<real>, c: real)
    requires |xs| > 0 && c > 0.0 && forall i | 0 <= i < |xs| :: xs[i] == c
    ensures forall i | 0 <= i < |xs| :: NormalizeBatch(xs).value[i] == 50.0
  {
    assert Max(xs) == c && Min(xs) == c;
    var r := Normalize(c, c * 1.1, c * 0.9);
    assert r * (c * 0.2) == c * 10.0;
    assert r * c == 50.0 * c;
  }

  /** A worked batch: the bounds are 33 and 9, so the scores 10, 20 and 30
      land at 1/24, 11/24 and 21/24 of the way up. */
  lemma NormalizeBatchExample()
    ensures NormalizeBatch([10.0, 20.0, 30.0]) == Success([25.0 / 6.0, 275.0 / 6.0, 87.5])
  {
    var xs := [10.0, 20.0, 30.0];
    assert Max(xs) == 30.0 by {
      assert xs[1..] == [20.0, 30.0] && xs[1..][1..] == [30.0];
    }
    assert Min(xs) == 10.0 by {
      assert xs[1..] == [20.0, 30.0] && xs[1..][1..] == [30.0];
    }
    var b := BatchBounds(xs).value;
    assert b.hi == 33.0 && b.lo == 9.0;
    var ys := NormalizeBatch(xs).value;
    assert ys[0] * 24.0 == 100.0;
    assert ys[1] * 24.0 == 1100.0;
    assert ys[2] * 24.0 == 2100.0;
    assert ys == [25.0 / 6.0, 275.0 / 6.0, 87.5];
  }

  /** A batch of zeros is the one case with equal bounds: everyone gets 100. */
  lemma BatchAllZero(xs: seq<real>)
    requires |xs| > 0 && forall i | 0 <= i < |xs| :: xs[i] == 0.0
    ensures forall i | 0 <= i < |xs| :: NormalizeBatch(xs).value[i] == 100.0
  {
    assert Max(xs) == 0.0 && Min(xs) == 0.0;
  }

  /** A subject of the batch: its name, its crawl state and its cognition
      score, which comes from outside the model. */
  datatype Subject = Subject(userName: string, talent: Talent, cognScore: real)

  /** The `scores` record of a subject. */
  datatype ScoreRow = ScoreRow(userName: string, attnScore: real, cognScore: real, normAttnScore: real, normCognScore: real)

  /** The attention scores of a batch, in order; the first subject without
      posts raises ZeroDivisionError. */
  function AttnScores(subjects: seq<Subject>): (r: Result<seq<real>>)
    ensures r.Failure? <==> exists i | 0 <= i < |subjects| :: subjects[i].talent.gotCount == 0
    ensures r.Failure? ==> r.error == ZeroDivisionError
    ensures r.Success? ==> |r.value| == |subjects|
    ensures r.Success? ==> forall i | 0 <= i < |subjects| :: AttnScore(subjects[i].talent) == Success(r.value[i])
    decreases |subjects|
  {
    if |subjects| == 0 then Success([])
    else
      var first :- AttnScore(subjects[0].talent);
      var rest :- AttnScores(subjects[1..]);
      assert forall i | 1 <= i < |subjects| :: subjects[i] == subjects[1..][i - 1];
      Success([first] + rest)
  }

  function CognScores(subjects: seq<Subject>): (r: seq<real>)
    ensures |r| == |subjects| && forall i | 0 <= i < |subjects| :: r[i] == subjects[i].cognScore
  {
    seq(|subjects|, i requires 0 <= i < |subjects| => subjects[i].cognScore)
  }

  /** The module-level scoring pass: cognition bounds first (an empty batch
      raises ValueError there), then attention bounds (a subject without
      posts raises ZeroDivisionError), then every subject's row. */
  function ScoreBatch(subjects: seq<Subject>): (r: Result<seq<ScoreRow>>)
    ensures r.Failure? <==> |subjects| == 0 || exists i | 0 <= i < |subjects| :: subjects[i].talent.gotCount == 0
    ensures |subjects| == 0 ==> r == Failure(ValueError)
    ensures |subjects| > 0 && r.Failure? ==> r.error == ZeroDivisionError
    ensures r.Success? ==> |r.value| == |subjects| && forall i | 0 <= i < |subjects| ::
      && r.value[i].userName == subjects[i].userName
      && r.value[i].cognScore == subjects[i].cognScore
      && AttnScore(subjects[i].talent) == Success(r.value[i].attnScore)
    ensures r.Success? ==>
      && NormalizeBatch(CognScores(subjects)).Success?
      && AttnScores(subjects).Success?
      && NormalizeBatch(AttnScores(subjects).value).Success?
    ensures r.Success? ==> forall i | 0 <= i < |subjects| ::
      && r.value[i].normCognScore == NormalizeBatch(CognScores(subjects)).value[i]
      && r.value[i].normAttnScore == NormalizeBatch(AttnScores(subjects).value).value[i]
  {
    var cogn := CognScores(subjects);
    var normCogn :- NormalizeBatch(cogn);
    var attn :- AttnScores(subjects);
    var normAttn := NormalizeBatch(attn).value;
    Success(seq(|subjects|, i requires 0 <= i < |subjects| =>
      ScoreRow(subjects[i].userName, attn[i], cogn[i], normAttn[i], normCogn[i])))
  }

  /** For subjects whose counts match their posts, whose counters and
      cognition scores are never negative, every normalised score of a
      scored batch lies in [0, 100]. */
  lemma ScoredBatchInRange(subjects: seq<Subject>)
    requires ScoreBatch(subjects).Success?
    requires forall i | 0 <= i < |subjects| :: Consistent(subjects[i].talent) && subjects[i].cognScore >= 0.0
    requires forall i, k, c | 0 <= i < |subjects| && 0 <= k < |subjects[i].talent.weibo| ::
      CountOf(subjects[i].talent.weibo[k].status, c) >= 0
    ensures forall i | 0 <= i < |subjects| ::
      var row := ScoreBatch(subjects).value[i];
      0.0 <= row.normAttnScore <= 100.0 && 0.0 <= row.normCognScore <= 100.0
  {
    var attn := AttnScores(subjects).value;
    forall i | 0 <= i < |subjects|
      ensures attn[i] >= 0.0
    {
      AttnScoreNonNegative(subjects[i].talent);
    }
    BatchInRange(attn);
    BatchInRange(CognScores(subjects));
  }
}
