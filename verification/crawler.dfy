/** Page accumulation (`get_one_page`, `get_pages`).  A subject keeps the
    posts gathered so far in `weibo` and counts them in `got_count`; with
    `filter` set, reposts are skipped.  Each timeline page is fetched and
    decoded by foreign code, so a page arrives as a `Result<Page>`.  The loop
    over a page's cards runs inside one `try`: the first exception ends the
    page, and whatever was appended before it stays.  The loop is stated for
    any per-card step `assemble`; the scraper's own is `Scraper(env)`, which
    is `get_one_weibo`. */
module Crawler {
  import opened Wrappers
  import opened Posts
  import opened DateNormalizer

  /** The card type of an ordinary post on the timeline. */
  const PostCard: int := 9

  /** The part of a `WeiboTalent` the page loop reads and writes. */
  datatype Talent = Talent(weibo: seq<Post>, gotCount: int, filter: bool)

  /** A decoded timeline page: `js['ok']` and `js['data']['cards']`. */
  datatype Page = Page(ok: bool, cards: seq<Card>)

  /** `got_count` counts exactly the posts held, as it does after
      construction, where both start empty. */
  predicate Consistent(t: Talent) {
    t.gotCount == |t.weibo|
  }

  /** `(not self.filter) or ('retweet' not in wb.keys())` */
  predicate Keep(p: Post, filter: bool) {
    !filter || p.retweet.None?
  }

  /** No post of `ws` is a repost. */
  predicate NoReposts(ws: seq<Post>) {
    forall k | 0 <= k < |ws| :: ws[k].retweet.None?
  }

  /** Every post card of `cards` is assembled without an exception. */
  predicate AllAssemble(cards: seq<Card>, assemble: Card -> Result<Post>) {
    forall j | 0 <= j < |cards| && cards[j].cardType == PostCard :: assemble(cards[j]).Success?
  }

  /** Reference definition of the posts one page contributes: its post cards
      in order, assembled and filtered, up to the first card whose assembly
      fails. */
  function Appended(cards: seq<Card>, filter: bool, assemble: Card -> Result<Post>): seq<Post>
    decreases |cards|
  {
    if |cards| == 0 then []
    else if cards[0].cardType != PostCard then Appended(cards[1..], filter, assemble)
    else match assemble(cards[0])
      case Failure(_) => []
      case Success(p) => (if Keep(p, filter) then [p] else []) + Appended(cards[1..], filter, assemble)
  }

  /** The posts a page contributes: none when the fetch fails or `ok` is false. */
  function PagePosts(page: Result<Page>, filter: bool, assemble: Card -> Result<Post>): seq<Post> {
    if page.Failure? || !page.value.ok then [] else Appended(page.value.cards, filter, assemble)
  }

  /** The posts a run over `pages` contributes, page after page. */
  function Harvest(pages: seq<Result<Page>>, filter: bool, assemble: Card -> Result<Post>): seq<Post>
    decreases |pages|
  {
    if |pages| == 0 then []
    else Harvest(pages[..|pages| - 1], filter, assemble) + PagePosts(pages[|pages| - 1], filter, assemble)
  }

  /** `get_one_page(page)`: the page's posts are appended one by one, each
      together with an increment of `got_count`.  A failed fetch, a page with
      `ok` false, or a failure on some card leaves the posts appended so far
      untouched. */
  method GetOnePage(t: Talent, page: Result<Page>, assemble: Card -> Result<Post>) returns (r: Talent)
    ensures r.filter == t.filter
    ensures page.Failure? || !page.value.ok ==> r == t
    ensures r.weibo == t.weibo + PagePosts(page, t.filter, assemble)
    ensures r.gotCount - t.gotCount == |r.weibo| - |t.weibo|
    ensures Consistent(t) ==> Consistent(r)
  {
    r := t;
    if page.Failure? || !page.value.ok {
      return;
    }
    var cards := page.value.cards;
    var i := 0;
    while i < |cards|
      invariant 0 <= i <= |cards|
      invariant r.filter == t.filter
      invariant r.weibo + Appended(cards[i..], t.filter, assemble) == t.weibo + Appended(cards, t.filter, assemble)
      invariant r.gotCount - t.gotCount == |r.weibo| - |t.weibo|
    {
      assert cards[i..][1..] == cards[i + 1..];
      if cards[i].cardType == PostCard {
        var wb := assemble(cards[i]);
        if wb.Failure? {
          assert r.weibo == t.weibo + Appended(cards, t.filter, assemble);
          return;
        }
        if Keep(wb.value, r.filter) {
          var rest := Appended(cards[i + 1..], t.filter, assemble);
          assert r.weibo + ([wb.value] + rest) == (r.weibo + [wb.value]) + rest;
          r := r.(weibo := r.weibo + [wb.value], gotCount := r.gotCount + 1);
        }
      }
      i := i + 1;
    }
    assert cards[i..] == [];
  }

  /** `get_pages(page_count)` over the fetch results of pages 1 to
      `page_count`: every page's posts are added in page order. */
  method GetPages(t: Talent, pages: seq<Result<Page>>, assemble: Card -> Result<Post>) returns (r: Talent)
    ensures r.filter == t.filter
    ensures r.weibo == t.weibo + Harvest(pages, t.filter, assemble)
    ensures r.gotCount - t.gotCount == |r.weibo| - |t.weibo|
    ensures Consistent(t) ==> Consistent(r)
  {
    r := t;
    var i := 0;
    while i < |pages|
      invariant 0 <= i <= |pages|
      invariant r.filter == t.filter
      invariant r.weibo == t.weibo + Harvest(pages[..i], t.filter, assemble)
      invariant r.gotCount - t.gotCount == |r.weibo| - |t.weibo|
    {
      assert pages[..i + 1][..i] == pages[..i];
      r := GetOnePage(r, pages[i], assemble);
      i := i + 1;
    }
    assert pages[..i] == pages;
  }

  /** Every post a page contributes comes from a post card of that page that
      assembled to it and passed the repost filter. */
  lemma {:induction false} AppendedFromCards(cards: seq<Card>, filter: bool, assemble: Card -> Result<Post>)
    ensures forall p | p in Appended(cards, filter, assemble) ::
      Keep(p, filter) && exists j | 0 <= j < |cards| :: cards[j].cardType == PostCard && assemble(cards[j]) == Success(p)
    decreases |cards|
  {
    if |cards| > 0 {
      AppendedFromCards(cards[1..], filter, assemble);
      forall p | p in Appended(cards[1..], filter, assemble)
        ensures exists j | 0 <= j < |cards| :: cards[j].cardType == PostCard && assemble(cards[j]) == Success(p)
      {
        var j :| 0 <= j < |cards[1..]| && cards[1..][j].cardType == PostCard && assemble(cards[1..][j]) == Success(p);
        assert cards[j + 1] == cards[1..][j];
      }
    }
  }

  /** With the filter set, a page contributes no repost. */
  lemma FilteredPageHasNoReposts(page: Result<Page>, assemble: Card -> Result<Post>)
    ensures NoReposts(PagePosts(page, true, assemble))
  {
    if page.Success? && page.value.ok {
      var ws := Appended(page.value.cards, true, assemble);
      AppendedFromCards(page.value.cards, true, assemble);
      assert forall k | 0 <= k < |ws| :: ws[k] in ws;
    }
  }

  /** With the filter set, a run that starts without reposts ends without
      them. */
  lemma {:induction false} FilteredHarvestHasNoReposts(pages: seq<Result<Page>>, assemble: Card -> Result<Post>)
    ensures NoReposts(Harvest(pages, true, assemble))
    decreases |pages|
  {
    if |pages| > 0 {
      var front := Harvest(pages[..|pages| - 1], true, assemble);
      var last := PagePosts(pages[|pages| - 1], true, assemble);
      FilteredHarvestHasNoReposts(pages[..|pages| - 1], assemble);
      FilteredPageHasNoReposts(pages[|pages| - 1], assemble);
      assert forall k | |front| <= k < |front| + |last| :: (front + last)[k] == last[k - |front|];
    }
  }

  /** Posts keep card order: when every post card of `a` assembles, the
      cards of `a` contribute before those of `b`, and none is lost. */
  lemma {:induction false} AppendedSplit(a: seq<Card>, b: seq<Card>, filter: bool, assemble: Card -> Result<Post>)
    requires AllAssemble(a, assemble)
    ensures Appended(a + b, filter, assemble) == Appended(a, filter, assemble) + Appended(b, filter, assemble)
    decreases |a|
  {
    if |a| > 0 {
      assert (a + b)[1..] == a[1..] + b;
      assert (a + b)[0] == a[0];
      assert AllAssemble(a[1..], assemble) by {
        forall j | 0 <= j < |a[1..]| && a[1..][j].cardType == PostCard
          ensures assemble(a[1..][j]).Success?
        {
          assert a[1..][j] == a[j + 1];
        }
      }
      AppendedSplit(a[1..], b, filter, assemble);
      if a[0].cardType == PostCard {
        assert assemble(a[0]).Success?;
      }
    } else {
      assert a + b == b;
    }
  }

  /** A card that fails to assemble ends the page: the posts of the cards
      before it are kept and nothing after it is added. */
  lemma StopsAtFailure(a: seq<Card>, c: Card, b: seq<Card>, filter: bool, assemble: Card -> Result<Post>)
    requires AllAssemble(a, assemble)
    requires c.cardType == PostCard && assemble(c).Failure?
    ensures Appended(a + [c] + b, filter, assemble) == Appended(a, filter, assemble)
  {
    AppendedSplit(a, [c] + b, filter, assemble);
    assert a + [c] + b == a + ([c] + b);
    assert ([c] + b)[0] == c;
  }

  /** A page without post cards adds nothing. */
  lemma {:induction false} NoPostCards(cards: seq<Card>, filter: bool, assemble: Card -> Result<Post>)
    requires forall j | 0 <= j < |cards| :: cards[j].cardType != PostCard
    ensures Appended(cards, filter, assemble) == []
    decreases |cards|
  {
    if |cards| > 0 {
      assert forall j | 0 <= j < |cards[1..]| :: cards[1..][j] == cards[j + 1];
      NoPostCards(cards[1..], filter, assemble);
    }
  }

  /** The per-card step of the scraper: `get_one_weibo`. */
  function Scraper(env: Env): Card -> Result<Post> {
    card => GetOneWeibo(card, env)
  }

  /** Every post the scraper gathers from a page carries a normalised date. */
  lemma ScrapedDatesSettled(cards: seq<Card>, filter: bool, env: Env)
    ensures forall p | p in Appended(cards, filter, Scraper(env)) ::
      StandardizeDate(p.status.createdAt, env.now) == Success(p.status.createdAt)
  {
    AppendedFromCards(cards, filter, Scraper(env));
    forall p | p in Appended(cards, filter, Scraper(env))
      ensures StandardizeDate(p.status.createdAt, env.now) == Success(p.status.createdAt)
    {
      var j :| 0 <= j < |cards| && cards[j].cardType == PostCard && Scraper(env)(cards[j]) == Success(p);
      PostDatesSettled(cards[j], env);
    }
  }
}
