/** Post assembly (`parse_weibo`, `get_long_weibo`, `get_one_weibo`).  A card
    of the timeline carries an `mblog`: the author's status and, for a
    repost, the reposted status.  Each level is read either from the card
    itself or, when its own `isLongText` flag is set, from its detail page.
    The HTML-to-text conversion, the detail-page request and the JSON decoder
    are foreign code and come in as the fields of an `Env`, together with
    the clock reading `now`. */
module Posts {
  import opened Wrappers
  import opened Strings
  import opened Numeric
  import opened Counter
  import opened DateNormalizer
  import opened LongText
  import DateFacts

  /** U+200B ZERO WIDTH SPACE, which `standardize_info` deletes. */
  const ZeroWidthSpace: char := '\U{200B}'

  /** A status as the platform's JSON carries it.  `id` and the three
      counters may be numbers or strings. */
  datatype RawStatus = RawStatus(
    id: Scalar,
    userId: int,
    screenName: string,
    text: string,
    createdAt: string,
    source: string,
    attitudes: Scalar,
    comments: Scalar,
    reposts: Scalar,
    isLongText: bool)

  /** An `mblog`: the status and its `retweeted_status`, which is `None` when
      absent or empty (both are false in Python). */
  datatype Mblog = Mblog(status: RawStatus, retweeted: Option<RawStatus>)

  /** A timeline card; `mblog` is `None` when the card has no such key. */
  datatype Card = Card(cardType: int, mblog: Option<Mblog>)

  /** One level of a post after `parse_weibo`. */
  datatype Status = Status(
    userId: int,
    screenName: string,
    id: int,
    text: string,
    createdAt: string,
    source: string,
    attitudes: int,
    comments: int,
    reposts: int)

  /** A post with its `retweet` entry, present exactly for reposts. */
  datatype Post = Post(status: Status, retweet: Option<Status>)

  /** The foreign code a post goes through, each of which may raise:
      `etree.HTML(text).xpath('string(.)')`, the detail-page request for an
      id, and `json.loads(payload)['status']`. */
  datatype Env = Env(
    markupText: string -> Result<string>,
    detailPage: Scalar -> Result<string>,
    decodeStatus: string -> Result<RawStatus>,
    now: nat)

  /** `v.replace(u"​", "")` on a string field of `standardize_info`. */
  function Scrub(s: string): (r: string)
    ensures ZeroWidthSpace !in r
    ensures forall c | c != ZeroWidthSpace :: multiset(r)[c] == multiset(s)[c]
  {
    RemoveChar(s, ZeroWidthSpace)
  }

  /** No string field of a status other than `created_at` holds U+200B. */
  predicate TextScrubbed(st: Status) {
    && ZeroWidthSpace !in st.screenName
    && ZeroWidthSpace !in st.text
    && ZeroWidthSpace !in st.source
  }

  /** No string field of a status holds U+200B. */
  predicate Scrubbed(st: Status) {
    TextScrubbed(st) && ZeroWidthSpace !in st.createdAt
  }

  /** `parse_weibo(weibo_info)` followed by `standardize_info`: the id goes
      through `int()`, the text through the HTML reader, the counters through
      `string_to_int`, in that order, and U+200B is deleted from every string
      field.  Only the HTML reader raises anything but ValueError. */
  function ParseWeibo(raw: RawStatus, env: Env): (r: Result<Status>)
    ensures r.Success? <==>
      && PyInt(raw.id).Success?
      && env.markupText(raw.text).Success?
      && StringToInt(raw.attitudes).Success?
      && StringToInt(raw.comments).Success?
      && StringToInt(raw.reposts).Success?
    ensures r.Failure? ==> r.error == ValueError || env.markupText(raw.text) == Failure(r.error)
    ensures r.Success? ==> Scrubbed(r.value)
    ensures r.Success? ==>
      && r.value.id == PyInt(raw.id).value
      && r.value.userId == raw.userId
      && r.value.screenName == Scrub(raw.screenName)
      && r.value.text == Scrub(env.markupText(raw.text).value)
      && r.value.createdAt == Scrub(raw.createdAt)
      && r.value.source == Scrub(raw.source)
      && r.value.attitudes == StringToInt(raw.attitudes).value
      && r.value.comments == StringToInt(raw.comments).value
      && r.value.reposts == StringToInt(raw.reposts).value
  {
    var id :- PyInt(raw.id);
    var text :- env.markupText(raw.text);
    var attitudes :- StringToInt(raw.attitudes);
    var comments :- StringToInt(raw.comments);
    var reposts :- StringToInt(raw.reposts);
    Success(Status(
      raw.userId,
      Scrub(raw.screenName),
      id,
      Scrub(text),
      Scrub(raw.createdAt),
      Scrub(raw.source),
      attitudes,
      comments,
      reposts))
  }

  /** A status that arrives already clean is read back field for field:
      numeric id and counters, no U+200B anywhere, and a text the HTML
      reader leaves as it is. */
  lemma ParseCleanStatus(raw: RawStatus, env: Env)
    requires raw.id.Int? && raw.attitudes.Int? && raw.comments.Int? && raw.reposts.Int?
    requires ZeroWidthSpace !in raw.screenName + raw.text + raw.createdAt + raw.source
    requires env.markupText(raw.text) == Success(raw.text)
    ensures ParseWeibo(raw, env) == Success(Status(
      raw.userId, raw.screenName, raw.id.n, raw.text, raw.createdAt, raw.source,
      raw.attitudes.n, raw.comments.n, raw.reposts.n))
  {
  }

  /** `get_long_weibo(id)`: fetch the detail page, cut the payload, decode
      its `status` and parse that. */
  function GetLongWeibo(id: Scalar, env: Env): (r: Result<Status>)
    ensures r.Success? ==> Scrubbed(r.value)
  {
    var html :- env.detailPage(id);
    var raw :- env.decodeStatus(ExtractPayload(html));
    ParseWeibo(raw, env)
  }

  /** One level of a post: the detail page when its own `isLongText` flag
      is set, the card's copy otherwise. */
  function ReadLevel(raw: RawStatus, env: Env): (r: Result<Status>)
    ensures r.Success? ==> Scrubbed(r.value)
  {
    if raw.isLongText then GetLongWeibo(raw.id, env) else ParseWeibo(raw, env)
  }

  /** `get_one_weibo(info)`.  The steps run in the order `get_one_weibo`
      runs them: the author level, then for a repost the reposted level and
      its date, and last the author's date.  Both dates are read from the card's raw `created_at`,
      not from the parsed level. */
  function GetOneWeibo(card: Card, env: Env): (r: Result<Post>)
    ensures card.mblog.None? ==> r == Failure(KeyError("mblog"))
    ensures r.Success? ==> card.mblog.Some? && (r.value.retweet.Some? <==> card.mblog.value.retweeted.Some?)
    ensures r.Success? ==> StandardizeDate(card.mblog.value.status.createdAt, env.now) == Success(r.value.status.createdAt)
    ensures r.Success? && r.value.retweet.Some? ==>
      StandardizeDate(card.mblog.value.retweeted.value.createdAt, env.now) == Success(r.value.retweet.value.createdAt)
  {
    if card.mblog.None? then Failure(KeyError("mblog"))
    else
      var m := card.mblog.value;
      match m.retweeted
      case Some(rt) =>
        var weibo :- ReadLevel(m.status, env);
        var retweet :- ReadLevel(rt, env);
        var retweetDate :- StandardizeDate(rt.createdAt, env.now);
        var date :- StandardizeDate(m.status.createdAt, env.now);
        Success(Post(weibo.(createdAt := date), Some(retweet.(createdAt := retweetDate))))
      case None =>
        var weibo :- ReadLevel(m.status, env);
        var date :- StandardizeDate(m.status.createdAt, env.now);
        Success(Post(weibo.(createdAt := date), None))
  }

  /** Two statuses that agree on every field except `created_at`. */
  predicate SameButDate(a: Status, b: Status) {
    a.(createdAt := "") == b.(createdAt := "")
  }

  /** A post is assembled exactly when every step it needs succeeds: its
      author level, and for a repost the reposted level and its date, and
      the author's date. */
  lemma GetOneWeiboSucceeds(card: Card, env: Env)
    requires card.mblog.Some?
    ensures var m := card.mblog.value;
      GetOneWeibo(card, env).Success? <==>
        && ReadLevel(m.status, env).Success?
        && (m.retweeted.Some? ==>
              ReadLevel(m.retweeted.value, env).Success? && StandardizeDate(m.retweeted.value.createdAt, env.now).Success?)
        && StandardizeDate(m.status.createdAt, env.now).Success?
  {
  }

  /** Each level of an assembled post comes from the long-form path exactly
      when its own `isLongText` flag is set, and agrees with what that path
      read on every field but the date. */
  lemma LevelsFollowOwnFlag(card: Card, env: Env)
    requires GetOneWeibo(card, env).Success?
    ensures var m := card.mblog.value;
      var p := GetOneWeibo(card, env).value;
      && (m.status.isLongText ==> GetLongWeibo(m.status.id, env).Success? && SameButDate(p.status, GetLongWeibo(m.status.id, env).value))
      && (!m.status.isLongText ==> ParseWeibo(m.status, env).Success? && SameButDate(p.status, ParseWeibo(m.status, env).value))
      && (m.retweeted.Some? ==> var rt := m.retweeted.value;
            && (rt.isLongText ==> GetLongWeibo(rt.id, env).Success? && SameButDate(p.retweet.value, GetLongWeibo(rt.id, env).value))
            && (!rt.isLongText ==> ParseWeibo(rt, env).Success? && SameButDate(p.retweet.value, ParseWeibo(rt, env).value)))
  {
  }

  /** The dates of an assembled post are already normal: normalising them
      again changes nothing. */
  lemma PostDatesSettled(card: Card, env: Env)
    requires GetOneWeibo(card, env).Success?
    ensures var p := GetOneWeibo(card, env).value;
      && StandardizeDate(p.status.createdAt, env.now) == Success(p.status.createdAt)
      && (p.retweet.Some? ==> StandardizeDate(p.retweet.value.createdAt, env.now) == Success(p.retweet.value.createdAt))
  {
    var m := card.mblog.value;
    DateFacts.StandardizeDateIdempotent(m.status.createdAt, env.now);
    if m.retweeted.Some? {
      DateFacts.StandardizeDateIdempotent(m.retweeted.value.createdAt, env.now);
    }
  }

  /** Apart from the dates, no string field of an assembled post holds
      U+200B.  The dates may: they are normalised from the card's raw
      `created_at`, which never went through the scrub. */
  lemma PostScrubbed(card: Card, env: Env)
    requires GetOneWeibo(card, env).Success?
    ensures var p := GetOneWeibo(card, env).value;
      TextScrubbed(p.status) && (p.retweet.Some? ==> TextScrubbed(p.retweet.value))
  {
    var m := card.mblog.value;
    var p := GetOneWeibo(card, env).value;
    assert TextScrubbed(ReadLevel(m.status, env).value);
    if m.retweeted.Some? {
      assert TextScrubbed(ReadLevel(m.retweeted.value, env).value);
    }
  }
}
