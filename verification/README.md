# Weibo talent scraper: verified model of the scraping and scoring core

This project models the deterministic core of `app.py`, a scraper for the
microblogging platform Weibo. The scraper gathers posts about a set of
public figures and ranks them by attention and recognition. Modelled
components:

- **Counters** (`string_to_int`). Engagement counts arrive as numbers or as
  strings such as `"3万"` and `"10万+"`, where 万 means ten thousand.
- **Post dates** (`standardize_date`). Relative phrases (刚刚 "just now",
  N分钟 "N minutes ago", N小时 "N hours ago", 昨天 "yesterday") become
  `YYYY-MM-DD`. A month-day string gets the current year in front.
- **Text cleanup** (`clean_text`). Three regular-expression passes remove
  markup tags, `#topics#` and `@mentions `, then the text is stripped.
- **Post assembly** (`parse_weibo`, `get_long_weibo`, `get_one_weibo`). A
  post is built with an optional nested repost. Each level is read from its
  detail page when its own `isLongText` flag is set.
- **Page accumulation** (`get_one_page`, `get_pages`). The subject keeps a list
  of posts, a `got_count` and a repost filter.
- **Scoring**. Engagement sums, `attn_score`, `max_min_nomralization`, and the
  batch normalisation against bounds widened to `1.1 * max` and `0.9 * min`.

Python's semantics are written out where the code depends on them:
- `find`/`rfind` return -1 for a missing pattern.
- Slices accept negative and out-of-range bounds.
- `int()` fails with ValueError.
- `datetime` arithmetic below year 1 raises OverflowError.
- `/` raises ZeroDivisionError.

Exceptions are `Result` failures that carry the exception kind.

The clock reading `datetime.now()` is the parameter `now`, in minutes since
0001-01-01 00:00. One reading serves a whole crawl (see `Crawler.GetPages`
under "## Left out"). The calendar is the proleptic Gregorian one of Python's
`datetime`, through day numbers (`toordinal`). Foreign code is passed in as
parameters of the record `Posts.Env`:
- lxml's HTML-to-text reader;
- the HTTP request for a detail page;
- `json.loads(...)['status']`.

A timeline page arrives already fetched and decoded, as a `Result<Page>`.

Files, one module each, in dependency order: `wrappers.dfy` (Option, Result,
exception kinds), `strings.dfy` (Python string primitives), `numeric.dfy`
(`int()` and decimal rendering), `counter.dfy`, `calendar.dfy`, `dates.dfy`,
`date_facts.dfy`, `cleaner.dfy`, `longtext.dfy`, `posts.dfy`, `crawler.dfy`,
`scores.dfy`.

## Behaviour of note

The model follows the code. Several of its consequences are easy to
misremember:
- `"1.2万"` is rejected, because `int("1.20000")` raises. A bare `"万"` reads
  as 0.
- `clean_text` removes every mention, not only leading ones. The spaces on
  both sides of a removed topic both survive: `"a #t# b"` becomes `"a  b"`.
- `clean_text` is not idempotent. `"##a#b#"` cleans to `"#b#"`, and that
  cleans to `""`.
- A batch whose scores all equal some `c > 0` normalises to 50, not 100. Only
  an all-zero batch has equal bounds and gets 100.
- One subject with no gathered posts makes the whole scoring pass raise
  ZeroDivisionError.
- A failure on one card ends that page. The posts appended before it stay,
  and the next page is still fetched.
- The dates of an assembled post come from the card's raw `created_at`. The
  U+200B scrub of `standardize_info` does not reach them.

## Model

| member | source | states |
|---|---|---|
| Numeric.ParseInt | app.py:121 | `int()` on a string succeeds exactly on a non-empty ASCII digit string, with a non-negative value; otherwise ValueError |
| Numeric.ParseRender | app.py:228-229 | `int()` reads back the decimal numeral of every natural number |
| Numeric.RenderValue | app.py:226 | a canonical digit string (no leading zero unless it is "0") is the rendering of its own value |
| Numeric.Padded | app.py:226 | zero padding keeps the value and gives exactly `width` digits, or the plain numeral when that is longer |
| Numeric.ValueAppend | app.py:118-120 | appending digits multiplies the value by the matching power of ten and adds theirs |
| Counter.StringToInt | app.py:113-121 | a number passes unchanged; a string result is never negative; every failure is ValueError |
| Counter.StringToIntAccepts | app.py:113-121 | for a digit string p, `p+"万"` and `p+"万+"` give p·10000 (empty p gives 0), and a non-empty p gives its value |
| Counter.StringToIntRejects | app.py:113-121 | every other string fails with ValueError |
| Counter.BareWanIsZero | app.py:119-121 | a bare 万 reads as 0 |
| Counter.DecimalPrefixFails | app.py:119-121 | "1.2万" fails with ValueError |
| Counter.StringToIntExamples | app.py:117-121 | "3万+" is 30000 and "542" is 542 |
| Calendar.FromDayNumber | app.py:230 | every day number has a valid date carrying that number |
| Calendar.DayNumberInjective | app.py:230 | distinct valid dates have distinct day numbers |
| Calendar.FromDayNumberOfDayNumber | app.py:230 | date to day number to date is the identity |
| Calendar.FormatDateRoundTrip | app.py:226 | a `%Y-%m-%d` rendering reads back as the same date |
| Calendar.FormatDateShape | app.py:226 | a formatted date is digits and exactly two dashes |
| DateNormalizer.DateAt | app.py:226 | the date of an instant is valid and its day number is the instant's whole days |
| DateNormalizer.DateBefore | app.py:229-230 | an offset past `now` raises OverflowError; otherwise the formatted date of `now - delta` reads back as that date and is no later than the date of `now` |
| DateNormalizer.Offset | app.py:225-237 | the only failure in reading a relative phrase's offset is ValueError |
| DateNormalizer.StandardizeDate | app.py:223-241 | fails only on a relative phrase (ValueError or OverflowError); text without a phrase always succeeds and never shrinks; a relative phrase yields a date no later than today |
| DateNormalizer.RelativeSuccess | app.py:225-237 | a relative phrase succeeds exactly when its offset reads and does not reach below year 1, and yields the date of `now` minus the offset |
| DateFacts.JustNowDate | app.py:225-226 | 刚刚 anywhere gives today's date, whatever else the text holds |
| DateFacts.MinutesAgoDate | app.py:227-230 | "N分钟…" gives the date N minutes before `now`, or OverflowError |
| DateFacts.HoursAgoDate | app.py:231-234 | "N小时…" gives the date N hours before `now`, or OverflowError |
| DateFacts.YesterdayDate | app.py:235-237 | "昨天…" gives the date one day before today, or OverflowError |
| DateFacts.MonthDayGetsYear | app.py:238-240 | phrase-free text with exactly one dash gets the digit year of `now` and a dash in front |
| DateFacts.OtherUnchanged | app.py:241 | any other phrase-free text is returned unchanged |
| DateFacts.FormatDateNoMarker | app.py:226 | a formatted date holds no relative phrase and exactly two dashes |
| DateFacts.FormattedDateFixed | app.py:225-241 | a formatted date is a fixed point of `standardize_date` |
| DateFacts.YearPrefixedFixed | app.py:238-241 | a year-prefixed month-day string is a fixed point |
| DateFacts.StandardizeDateIdempotent | app.py:223-241 | normalising a successful output again returns it unchanged |
| TextCleaner.RemoveSpans | app.py:245-250 | one `re.sub` pass never lengthens the text |
| TextCleaner.RemoveSpansSubset | app.py:245-250 | a pass only deletes characters (output multiset within input multiset) |
| TextCleaner.RemoveSpansSpanFree | app.py:245-246 | with distinct opener and closer, no match survives a pass |
| TextCleaner.RemoveSpansKeepsSpanFree | app.py:247-250 | a later pass with a different opener creates no match of an earlier pattern |
| TextCleaner.RemoveSpansIdempotent | app.py:245-246 | a pass with distinct opener and closer is idempotent |
| TextCleaner.Strip | app.py:251 | the stripped text is the slice of the input left after cutting off whitespace only, at both ends, and has no whitespace at either end |
| TextCleaner.StripIdempotent | app.py:251 | stripping twice is stripping once |
| TextCleaner.CleanText | app.py:243-251 | cleaned text has no whitespace at either end and holds no tag and no mention |
| TextCleaner.CleanTextSubset | app.py:243-251 | cleaning only deletes characters |
| TextCleaner.CleanTextPlain | app.py:243-251 | text without `<`, `#`, `@` and without surrounding whitespace is unchanged |
| TextCleaner.TagRemoved | app.py:245-246 | a tag between plain texts is removed and the rest stripped |
| TextCleaner.TopicRemoved | app.py:247-248 | a topic between plain texts is removed, keeping the spaces on both sides until the strip |
| TextCleaner.MentionRemoved | app.py:249-250 | a mention with its trailing space is removed anywhere, not only at the start |
| TextCleaner.TopicPassNotIdempotent | app.py:247-248 | the topic pass on "##a#b#" leaves "#b#", which a second pass removes |
| TextCleaner.MarkedUpText | app.py:243-251 | a text in a tag pair followed by a topic and a mention cleans to the text, two spaces and the tail |
| TextCleaner.CleanTextExample | app.py:243-251 | `"<b>hi</b> #topic# @user hello"` cleans to `"hi  hello"` |
| TextCleaner.CleanTextNotIdempotent | app.py:243-251 | `clean_text` is not idempotent: "##a#b#" cleans to "#b#", then to "" |
| LongText.ExtractPayload | app.py:127-130 | the payload is always braces around one contiguous piece of the page |
| LongText.MissingStatusAnchor | app.py:127-130 | a page without `"status":` yields "{}" |
| LongText.WellFormedPage | app.py:127-130 | on a well-formed detail page the payload is `{"status":` plus the status object and a closing brace |
| Posts.Scrub | app.py:218 | U+200B is deleted and every other character keeps its count |
| Posts.ParseWeibo | app.py:136-152 | parsing succeeds exactly when the id, the HTML text and all three counters read; a failure is ValueError or the HTML reader's own error; each status field is its same-named raw field, read by `int()`, the HTML reader or `string_to_int` and scrubbed of U+200B |
| Posts.ParseCleanStatus | app.py:136-152 | a status with numeric id and counters, no U+200B and plain text is read back field for field |
| Posts.GetLongWeibo | app.py:123-134 | a long-form status read from its detail page holds no U+200B |
| Posts.ReadLevel | app.py:163-170 | a level read by either path holds no U+200B |
| Posts.GetOneWeibo | app.py:154-180 | a card without `mblog` raises KeyError; a post has a `retweet` exactly for a repost; the outer date is normalised from the wrapper's raw `created_at` and the retweet's from `retweeted_status` |
| Posts.GetOneWeiboSucceeds | app.py:154-180 | a post is assembled exactly when its author level, the repost level and its date, and the author's date all succeed |
| Posts.LevelsFollowOwnFlag | app.py:163-170 | each level uses the long-form path exactly when its own `isLongText` is set, and matches that path's result except for the date |
| Posts.PostDatesSettled | app.py:171-179 | the dates of an assembled post are fixed points of `standardize_date` |
| Posts.PostScrubbed | app.py:136-152 | apart from dates, no string field of an assembled post holds U+200B |
| Crawler.GetOnePage | app.py:182-196 | the page's posts are appended after the earlier ones; a failed fetch or `ok` false changes nothing; `got_count` grows by the number appended, so `got_count == len(weibo)` is kept |
| Crawler.GetPages | app.py:198-204 | the pages' posts are added in page order and `got_count == len(weibo)` is kept |
| Crawler.AppendedFromCards | app.py:188-193 | every appended post comes from a card of type 9 that assembled to it and passed the repost filter |
| Crawler.FilteredPageHasNoReposts | app.py:191-193 | with the filter set, a page contributes no repost |
| Crawler.FilteredHarvestHasNoReposts | app.py:191-193 | with the filter set, a whole run contributes no repost |
| Crawler.AppendedSplit | app.py:188-193 | posts keep card order: cards that all assemble contribute before later cards |
| Crawler.StopsAtFailure | app.py:184-196 | a card that fails ends the page; the posts from cards before it are kept |
| Crawler.NoPostCards | app.py:189 | a page without cards of type 9 adds nothing |
| Crawler.ScrapedDatesSettled | app.py:179-192 | every post the scraper gathers carries a normalised date |
| Scores.TotalAppend | app.py:307-317 | a counter sum over two runs of posts is the sum of their sums |
| Scores.TotalNonNegative | app.py:307-317 | non-negative counters give a non-negative sum |
| Scores.EngagementAppend | app.py:330-332 | the total engagement of two runs is the sum of theirs |
| Scores.CrawlEngagement | app.py:330-332 | after a crawl, engagement is the earlier engagement plus that of the harvested posts |
| Scores.AttnScore | app.py:324-332 | ZeroDivisionError exactly when `got_count` is 0; otherwise score times `got_count` equals total engagement |
| Scores.AttnScoreNonNegative | app.py:324-332 | a consistent subject with posts and non-negative counters has a non-negative score |
| Scores.Normalize | app.py:30-34 | equal bounds give 100; otherwise the result times (max − min) is (x − min)·100 |
| Scores.NormalizeEnds | app.py:30-34 | min maps to 0 and max to 100 |
| Scores.NormalizeMonotone | app.py:30-34 | normalisation keeps order when max exceeds min |
| Scores.NormalizeInverse | app.py:30-34 | scaling back recovers x from its normalised value |
| Scores.NormalizeBetween | app.py:30-34 | a value between the bounds lands in [0, 100], strictly inside when strictly between |
| Scores.Max | app.py:389 | `max` returns an element no smaller than any other |
| Scores.Min | app.py:390 | `min` returns an element no larger than any other |
| Scores.BatchBounds | app.py:389-394 | an empty batch raises ValueError; otherwise the upper bound is 1.1 times the largest score and the lower 0.9 times the smallest, and every non-negative score lies between them |
| Scores.NormalizeBatch | app.py:389-398 | fails exactly on an empty batch; otherwise entry k is score k normalised against the batch bounds |
| Scores.NormalizeBatchExample | app.py:389-398 | the batch 10, 20, 30 has bounds 33 and 9 and normalises to 25/6, 275/6 and 87.5 |
| Scores.BatchInRange | app.py:389-398 | non-negative scores normalise into [0, 100], strictly inside when the minimum is positive |
| Scores.BatchAllEqual | app.py:389-398 | a batch of equal scores c > 0 normalises to 50 for everyone |
| Scores.BatchAllZero | app.py:30-34 | an all-zero batch has equal bounds and normalises to 100 |
| Scores.AttnScores | app.py:392-394 | the attention column fails with ZeroDivisionError exactly when some subject has `got_count` 0; otherwise it lists every subject's score in order |
| Scores.ScoreBatch | app.py:333-341 | an empty batch raises ValueError and a subject without posts raises ZeroDivisionError; otherwise one row per subject with its name, cognition and attention score, and its two normalised scores are its entries of the batch-normalised cognition and attention columns |
| Scores.ScoredBatchInRange | app.py:389-398 | for consistent subjects with non-negative counters and cognition scores, both normalised columns lie in [0, 100] |

## Left out

- Network I/O is not modelled: `get_json`, `get_weibo_json`, `get_user_info`,
  `fetch_data`, `get_related_posts`, and the request in `get_long_weibo`. The
  fetched texts are inputs: `Env.detailPage`, and the `Result<Page>` of each
  timeline page.
- `get_pages` also calls `get_user_info` and `print_user_info`. Those are
  network and console calls, so `Crawler.GetPages` models only the page loop.
- `time.sleep`, `random.randint` and the tqdm progress bar are left out. The
  sleep matters only through the clock, which the next line covers.
- Crawler.GetPages, Crawler.Scraper: the whole crawl uses one clock reading
  `env.now`. The source reads `datetime.now()` afresh in every
  `standardize_date` call, twice for a repost, with a sleep of 2 to 4
  seconds between pages. So a crawl that crosses midnight, where later cards
  get the next day's date, is not modelled.
- Printing is left out: `print_user_info`, `print_one_weibo`, `print_weibo`,
  and the error print in `get_one_page`.
- `json.loads` and lxml's `etree.HTML(...).xpath('string(.)')` are foreign
  parsers. They are the functions `Env.decodeStatus` and `Env.markupText`,
  and either may fail.
- Posts.ParseWeibo: the re-encode of `standardize_info` through
  `sys.stdout.encoding` is not modelled, because it depends on the runtime
  environment. Only the deletion of U+200B is.
- Posts.GetOneWeibo: the model raises KeyError only for a missing `mblog`.
  The other lookups (`id`, `isLongText`, `created_at`, `user`) are fields of
  `RawStatus` that are always present.
- Crawler.GetOnePage: a card without `card_type` is not modelled; the field
  is always present.
- Numeric.ParseInt: `int()` is modelled on non-empty ASCII digit strings only.
  Python also accepts a sign, surrounding whitespace, underscores between
  digits and non-ASCII decimal digits.
- Counter.StringToInt inherits that restriction: a string such as `" 3万"`
  fails in the model but is read by Python.
- DateNormalizer.Offset / DateNormalizer.StandardizeDate: the count before
  分钟 or 小时 is read by the digit-only `int()` above. Python reads
  "-30分钟前" as -30 and returns the date of `now` plus 30 minutes, which is
  tomorrow after 23:30. It reads " 5分钟前" as 5. Both fail with ValueError in
  the model. The "no later than today" clause of `StandardizeDate` holds only
  because the model refuses a signed count.
- Numeric.Padded: `%Y` is modelled as four digits with zero padding. Python
  on Linux prints years below 1000 without padding.
- The clock has minute resolution; seconds do not affect any date output.
  Instants are bounded below by 0001-01-01 00:00 but not above, so Python's
  year-9999 limit is not modelled.
- Scores.Normalize, Scores.AttnScore and Scores.BatchBounds compute over
  `real`: floating-point rounding of `/`, `* 1.1` and `* 0.9` is not modelled.
- `cogn_score` is a per-subject input `Subject.cognScore`. It uses `math.log`,
  and it raises when `statuses_count` is 0; neither is modelled.
- The `related_*` properties are left out: the formula that used them is
  commented out. Also left out are `__str__`, `keyinfo`, the `__init__`
  keyword handling, and everything at module level after the class except the
  bound computation (file globbing and loading, pandas, plotly, Dash).
- Only the fields of a subject that the page loop touches are modelled:
  `weibo`, `got_count` and `filter`.
