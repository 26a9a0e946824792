# Twitter bookmark scraper — a Dafny model of its core

The script logs into X (Twitter) with a browser, opens the bookmarks page,
scrolls it, parses every tweet element it sees into a record, de-duplicates
the records, optionally fetches the text of linked X Articles, and exports
CSV and JSONL rows with `t.co` short links resolved. This project models the
deterministic core of that pipeline, with the browser, the network and the
regular expressions replaced by parameters, and proves what each step
guarantees.

Modules (one file each):

- `Wrappers` (`wrappers.dfy`): `Option`.
- `Strings` (`strings.dfy`): substring search, ASCII lower-casing, Python's
  `str.isspace` and `strip`, `" | "` joining, Python string ordering
  (lexicographic by code point), and `sorted`/`list` of a set.
- `Urls` (`urls.dfy`): `_is_login_page` and `is_article_url`. `urlparse` is a
  parameter giving the network location and path of a URL.
- `Parser` (`parser.dfy`): `_parse_tweet`. A tweet element is a record of the
  values the parser reads. The handle link, the name, the text and the `time`
  element are `None` when the element is missing, and so is a missing
  `datetime` attribute. The anchor hrefs and the photo sources are lists of
  strings, with `""` for a missing attribute, as `or ""` gives at lines 307
  and 317. The regex that finds URLs in the text, the regex that removes the
  `name=` size parameter, and `urlparse` are parameters (`Externals`).
- `Collector` (`collector.dfy`): `collect_bookmarks`. The browser is modelled
  as follows:
  - the URL it lands on;
  - how waiting for the first tweet ended;
  - `feed(k)`, the parse outcomes of the elements shown on pass `k`;
  - the pass before which Ctrl+C was pressed, if any;
  - the Article fetcher.

  `Collect` is the whole call as a function. `CollectBookmarks` is the loop
  itself, proved equal to it. `Scroll` is the scroll loop, one pass per step.
- `Export` (`export.dfy`): `expand_tco_url`, `expand_urls_parallel` and
  `_build_rows`. The HEAD request that follows redirects is a resolver giving
  `Some(final URL)`, or `None` where the request raises.

## Model

| member | source | states |
|---|---|---|
| Urls.IsLoginPage | twitter_bookmark_scrapper.py:52-53 | Defines the login-page test: one of the three `LOGIN_SLUGS` is a substring of the URL. |
| Urls.IsArticleUrl | twitter_bookmark_scrapper.py:79-81 | Defines the Article-URL test: the parsed path contains `/articles/` and the lower-cased host ends with `x.com` or `twitter.com`. |
| Urls.LoginPageIff | twitter_bookmark_scrapper.py:49-53 | A URL is a login page iff one of the three slugs `x.com/login`, `x.com/i/flow`, `x.com/account/` occurs in it at some position. |
| Urls.ArticleUrlIff | twitter_bookmark_scrapper.py:79-81 | A URL is an Article URL iff `/articles/` occurs in its path and its lower-cased host ends with `x.com` or `twitter.com`. |
| Urls.SuffixHostIsArticle | twitter_bookmark_scrapper.py:79-81 | The host test is a plain suffix test, so a `fedex.com` host with an `/articles/` path counts as an Article URL. |
| Strings.Contains | twitter_bookmark_scrapper.py:53 | Defines Python's `in` on strings (used at lines 53, 81, 311 and 318): a scan for the needle at each index in turn. |
| Strings.EndsWith | twitter_bookmark_scrapper.py:81 | Defines `str.endswith`: the string's last characters are the suffix. |
| Strings.Lower | twitter_bookmark_scrapper.py:81 | Defines `lower()` on host names (lines 81 and 311): each ASCII capital becomes its small letter, every other character is kept. |
| Strings.IsSpace | twitter_bookmark_scrapper.py:327 | Defines the characters `strip()` removes: exactly those for which Python's `str.isspace()` holds. |
| Strings.ReplaceNewlines | twitter_bookmark_scrapper.py:327 | `replace("\n", " ")`: same length, each newline becomes a space and every other character is kept. |
| Strings.Prefix | twitter_bookmark_scrapper.py:253 | `text[:80]`: a prefix of the text, of length 80 or the whole text when it is shorter. |
| Strings.Join | twitter_bookmark_scrapper.py:359-360 | Defines `" \| ".join`: the parts in order with the separator between neighbours, `""` for no parts. |
| Strings.Below | twitter_bookmark_scrapper.py:332 | Defines Python's `<` on strings, by which `sorted` orders: lexicographic by code point, a proper prefix being smaller. |
| Strings.ContainsIff | twitter_bookmark_scrapper.py:53 | Python's `in` on strings: the scan succeeds iff the needle occurs at some index. |
| Strings.Trim | twitter_bookmark_scrapper.py:294 | `strip(chars)`: the result is the slice of the input between the leading and trailing runs of stripped characters; its ends are not stripped characters; it is empty iff every character is stripped. |
| Strings.IncreasingUnique | twitter_bookmark_scrapper.py:332 | Two strictly increasing lists with the same elements are equal, so `sorted` of a set is determined by the set. |
| Strings.BelowTotal | twitter_bookmark_scrapper.py:332 | Python string order is total on distinct strings; with `BelowIrreflexive` and `BelowTransitive`, it is a strict total order. |
| Strings.BelowTransitive | twitter_bookmark_scrapper.py:332 | Python string order is transitive. |
| Strings.BelowIrreflexive | twitter_bookmark_scrapper.py:332 | No string is below itself. |
| Strings.Insert | twitter_bookmark_scrapper.py:332 | Inserting a new string into a strictly increasing list keeps it strictly increasing and adds exactly that string. |
| Strings.SortedList | twitter_bookmark_scrapper.py:332 | `sorted(raw_urls)`: a strictly increasing list holding exactly the set's elements, one entry per element. |
| Strings.ListOf | twitter_bookmark_scrapper.py:347 | `list(set)`: each element of the set exactly once, in an order left open. |
| Parser.NormaliseText | twitter_bookmark_scrapper.py:327 | Defines `text.replace("\n", " ").strip()`; its properties are stated by `NormaliseTextFacts`. |
| Parser.IsTrackedLink | twitter_bookmark_scrapper.py:311 | Defines the `elif` test: the href contains `t.co`, or its lower-cased host is neither `x.com` nor `twitter.com`. |
| Parser.AnchorLinks | twitter_bookmark_scrapper.py:306-312 | Defines the hrefs the anchor loop adds to `raw_urls`: those that are not Article URLs and pass the tracked-link test. |
| Parser.RawLinks | twitter_bookmark_scrapper.py:303-312 | Defines `raw_urls` after the anchor loop: the set of regex finds in the text together with `AnchorLinks`. |
| Parser.ArticleOf | twitter_bookmark_scrapper.py:304-310 | Defines `article_url` after the anchor loop: the first non-empty Article href, or `""`; characterised by `ArticleOfIsFirst`. |
| Parser.IsMediaSrc | twitter_bookmark_scrapper.py:318 | Defines the image filter: the src is non-empty and contains `pbs.twimg.com/media`. |
| Parser.OriginalImages | twitter_bookmark_scrapper.py:315-321 | Defines `image_urls` after the image loop: for each media src in order, the src without its `name=` parameter followed by `?name=orig`. |
| Parser.AuthorHandle | twitter_bookmark_scrapper.py:293-294 | With the `@` that line 326 adds, the handle is `""` when there is no link or the href is all slashes; otherwise it is `@` followed by the href with its leading and trailing slashes stripped, and the handle itself neither starts nor ends with `/`. |
| Parser.NormaliseTextFacts | twitter_bookmark_scrapper.py:327 | The text has no newline and no whitespace at either end, is a slice of the text with newlines turned into spaces, and is empty iff the raw text is all whitespace. |
| Parser.ArticleOfIsFirst | twitter_bookmark_scrapper.py:304-310 | `article_url` is `""` iff no anchor href is a non-empty Article URL; otherwise it is the first such href. |
| Parser.ArticleUrlCanBeRawLink | twitter_bookmark_scrapper.py:303-312 | The Article URL is not excluded from `urls_raw` when the text regex also finds it. |
| Parser.OriginalImagesFromMedia | twitter_bookmark_scrapper.py:315-321 | There are no more image URLs than photo sources; each one ends with `?name=orig` and is built from a non-empty source containing `pbs.twimg.com/media`. |
| Parser.OriginalImagesCount | twitter_bookmark_scrapper.py:315-321 | There are exactly as many image URLs as non-empty sources containing `pbs.twimg.com/media`: each such source gives one image and no other source gives any. |
| Parser.OriginalImagesConcat | twitter_bookmark_scrapper.py:315-321 | Images are produced source by source, in document order: the images of `a + b` are those of `a` followed by those of `b`. |
| Parser.ScanAnchors | twitter_bookmark_scrapper.py:303-312 | The anchor loop leaves the first non-empty Article URL as `article_url` and the regex finds plus the tracked non-Article anchors as `raw_urls`. |
| Parser.OriginalSizeImages | twitter_bookmark_scrapper.py:315-321 | The image loop yields, in document order, one `?name=orig` URL per non-empty media source. |
| Parser.ParseTweet | twitter_bookmark_scrapper.py:291-333 | Every field of the record, from the element: timestamp, name, handle, normalised text, permalink, first Article URL, empty Article text, original-size images; `urls_raw` is strictly increasing and holds exactly the text's regex finds plus every non-Article anchor that contains `t.co` or whose host is not `x.com`/`twitter.com`. |
| Collector.DedupKey | twitter_bookmark_scrapper.py:253 | Defines the de-duplication key: the permalink when non-empty, else the first 80 characters of the normalised text. |
| Collector.Offer | twitter_bookmark_scrapper.py:248-258 | Defines one iteration of the inner loop: a parse failure changes nothing, a seen key changes nothing, otherwise the key is recorded and the record appended. |
| Collector.OfferAll | twitter_bookmark_scrapper.py:247-258 | One pass only appends to `bookmarks` and only adds to `seen_ids`. |
| Collector.OfferKeeps | twitter_bookmark_scrapper.py:253-258 | Handling one element keeps `seen_ids` equal to the key set of `bookmarks` and the keys pairwise distinct. |
| Collector.OfferAllKeeps | twitter_bookmark_scrapper.py:247-258 | After a pass, the invariant still holds, `seen_ids` has grown by exactly the keys of the elements that parsed, and every appended record came from the pass. |
| Collector.OfferAllConcat | twitter_bookmark_scrapper.py:247-258 | Handling `xs + ys` is handling `xs` and then `ys`. |
| Collector.UnparseableSkipsOnlyItself | twitter_bookmark_scrapper.py:247-252 | An element that raises while parsing changes nothing: the pass gives the same result without it. |
| Collector.SameKeyCollapses | twitter_bookmark_scrapper.py:253-256 | Two records with the same unseen key, the empty key included: only the first is kept. |
| Collector.NothingNewKeeps | twitter_bookmark_scrapper.py:253-255 | A pass whose every parsed key is already seen leaves the state unchanged. |
| Collector.NoGainIffNothingNew | twitter_bookmark_scrapper.py:246-260 | A pass adds no bookmark iff every parsed key in it was already seen. |
| Collector.Scroll | twitter_bookmark_scrapper.py:241-270 | Defines the scroll loop from pass `k`: stop when the range is used up or the flag is set, else run one pass, reset the stale count on a gain or stop when it reaches five, and continue; it returns the final state, the last pass run and each pass's gain. |
| Collector.ScrollKeeps | twitter_bookmark_scrapper.py:241-270 | The scroll loop keeps keys distinct and `seen_ids` equal to their set, keeps earlier bookmarks as a prefix, runs at most `max_scrolls` passes, and runs no pass once Ctrl+C was pressed before it. |
| Collector.ScrollShape | twitter_bookmark_scrapper.py:241-258 | The scroll loop only appends to `bookmarks`, runs at most `max_scrolls` passes, records one gain per pass run, and runs no pass at or after the one before which Ctrl+C was pressed. |
| Collector.ScrollConsistent | twitter_bookmark_scrapper.py:241-270 | Across all passes, `seen_ids` stays equal to the key set of `bookmarks` and the keys stay pairwise distinct. |
| Collector.InterruptIsTruncation | twitter_bookmark_scrapper.py:241-243 | Ctrl+C before pass `p` gives exactly the run with at most `p - 1` passes and no interrupt. |
| Collector.MorePassesExtend | twitter_bookmark_scrapper.py:241 | Allowing more passes only extends the collected list. |
| Collector.InterruptKeepsPrefix | twitter_bookmark_scrapper.py:228-243 | An interrupted run's bookmarks are a prefix of the uninterrupted run's. |
| Collector.ExhaustionStops | twitter_bookmark_scrapper.py:260-270 | If passes `k+1`..`k+5` show nothing new, no pass after `k+5` runs and the state is unchanged; exactly `k+5` passes run when the stale count was 0, the range allows them and no Ctrl+C came. |
| Collector.GainsCount | twitter_bookmark_scrapper.py:246-261 | The per-pass gains the loop records add up to exactly the bookmarks it appended. Each gain is that pass's own growth of `bookmarks` (so `Scroll` counts a pass as quiet exactly when it appended nothing), and `ScanPass` ensures `new_this_round` is the same growth. |
| Collector.ScrollStopsOnlyWhen | twitter_bookmark_scrapper.py:241-270 | The loop stops only because the pass range is used up, Ctrl+C was pressed, or the last five passes added nothing; and no five consecutive passes before the last were all empty. |
| Collector.ScanPass | twitter_bookmark_scrapper.py:245-258 | The inner loop of a pass leaves `bookmarks` and `seen_ids` as `OfferAll` specifies, and `new_this_round` is the number of records it appended. |
| Collector.FillArticles | twitter_bookmark_scrapper.py:276-281 | The in-place Article loop leaves exactly what `FetchArticles` specifies. |
| Collector.StopRequested | twitter_bookmark_scrapper.py:242 | Defines the Ctrl+C check (line 242, and again at line 276): the flag is set once the moment of the press has been reached. |
| Collector.WithArticle | twitter_bookmark_scrapper.py:281 | Defines the Article phase's change to one bookmark: an entry with an Article URL gets the fetched text, any other is unchanged. |
| Collector.ArticlePhaseRuns | twitter_bookmark_scrapper.py:276 | Defines the guard of the Article phase: Articles are wanted and Ctrl+C was not pressed by the end of the scroll loop. |
| Collector.FetchArticles | twitter_bookmark_scrapper.py:277-281 | The Article phase keeps length and order; an entry with an Article URL gets the fetched text, and nothing else changes, dedup keys included. |
| Collector.Collect | twitter_bookmark_scrapper.py:183-288 | Defines the whole call: empty on a login page, a timed-out wait or a browser error; otherwise the scroll loop's bookmarks, with Article text fetched when Articles are wanted and Ctrl+C was not pressed. |
| Collector.CollectResult | twitter_bookmark_scrapper.py:197-282 | A login page or a failed wait returns nothing; the call collects exactly when the landing URL is not a login page and tweets rendered; then the result is the scroll loop's list, entry for entry, with Article text filled in only when Articles are wanted and Ctrl+C was not pressed; keys are always pairwise distinct. |
| Collector.CollectBookmarks | twitter_bookmark_scrapper.py:183-288 | The imperative loop returns what `Collect` specifies: the early returns, the scroll loop with its stale counter and Ctrl+C check, and the in-place Article phase. |
| Export.ExpandTcoUrl | twitter_bookmark_scrapper.py:56-64 | Defines `expand_tco_url`: the URL the redirects end at, or the short URL itself when the request fails. |
| Export.IsTco | twitter_bookmark_scrapper.py:68 | Defines the filter of lines 68 and 347: the URL contains `t.co/`. |
| Export.ExpandUrlsParallel | twitter_bookmark_scrapper.py:56-76 | The map's keys are exactly the distinct inputs containing `t.co/` (so it is empty when there are none), and each value is the resolved URL, or the short URL when resolution fails. |
| Export.AllTco | twitter_bookmark_scrapper.py:347 | Defines `all_tco` as a set: every `t.co/` link in any bookmark's `urls_raw`. |
| Export.UrlMap | twitter_bookmark_scrapper.py:347-349 | Defines `url_map`: each link of `AllTco` mapped to its `expand_tco_url` result; `ExpandUrlsParallel` is proved to return it. |
| Export.Lookup | twitter_bookmark_scrapper.py:354 | Defines `url_map.get(u, u)`: the mapped URL, or `u` when it has no entry. |
| Export.ExpandedLinks | twitter_bookmark_scrapper.py:354 | `urls_expanded`: one entry per raw link, in order, each the link looked up with fallback to itself. |
| Export.JsonRowOf | twitter_bookmark_scrapper.py:355-363 | Defines the JSONL row: the seven scalar fields and the image list copied, and `urls_expanded` from the raw links. |
| Export.CsvOf | twitter_bookmark_scrapper.py:356-360 | Defines the CSV row from the JSONL row: the same seven fields, with the image list and the expanded links joined by `" \| "`. |
| Export.BuildRows | twitter_bookmark_scrapper.py:345-364 | One CSV row and one JSONL row per bookmark, in order; the JSONL row copies the seven scalar fields and the images and looks each raw link up with fallback to itself; the CSV row is the JSONL row with both lists joined by `" \| "`. |
| Export.ExportedLinkIsResolved | twitter_bookmark_scrapper.py:347-354 | `urls_expanded` has one entry per raw link; a t.co link becomes its resolution by `expand_tco_url` (lines 56-64), any other link stays itself, and a link whose resolution fails stays itself. |
| Export.SingleLinkExample | twitter_bookmark_scrapper.py:345-360 | A bookmark whose only raw link is `https://t.co/abc123`, which resolves to `https://example.com/page`, exports that page as its CSV `urls_expanded`. |

`urls_raw` can hold the Article URL. The anchor loop keeps Article URLs out of
it (lines 308-312), but the regex at line 303 adds every URL it finds in the
text, the Article URL included (`Parser.ArticleUrlCanBeRawLink`).

The host test of `is_article_url` is a suffix test on the host, not a
domain test. It accepts hosts such as `fedex.com` (`Urls.SuffixHostIsArticle`).
The model keeps this behaviour.

## Left out

- `interactive_login`: browser polling, signal-handler swapping, the monotonic clock and saving the session. These are I/O and are not modelled.
- `fetch_article_content`: opening a tab and reading the page. It is the parameter `fetch` of `Collect`.
- Playwright calls (`goto`, `evaluate`, `wait_for_selector`, `query_selector*`, scrolling):
  - they are replaced by what they yield: the landing URL (already the result of `location.href` or its `page.url` fallback), a `WaitResult`, and the per-pass element lists;
  - the second `location.href` read after a timeout is the URL carried by `TimedOut`.
- Collector.Collect: the `Status` it returns is not returned by the source, which only logs which early return it took; the model records it so that contracts can name the branch.
- The second Ctrl+C, which raises `SystemExit`, is not modelled. Ctrl+C is modelled as one flag that is set before a given pass and stays set. It is checked at the top of each pass and once more before the Article phase.
- `time.sleep`, `scroll_delay` and logging.
- The regex engines (the URL finder and the `name=` remover) and `urlparse` are parameters. They are constrained only where a lemma needs it.
- Strings.Lower: lower-cases ASCII letters only, while Python's `lower()` also folds other Unicode letters; host names are ASCII in the cases that matter.
- `requests.head` and the thread pool: resolving is a parameter. The order in which futures complete is left open by a nondeterministic choice, which cannot change the resulting map.
- Export.ExpandUrlsParallel: the `workers` bound on concurrency is not modelled, since it does not affect the result.
- `save_output` (CSV quoting and `json.dumps` escaping), `main`, argument parsing and logging setup: library behaviour and I/O. No round trip through the written files is stated.
- Collector.CollectResult: only the paths on which `collect_bookmarks` returns are modelled. A browser failure in `query_selector_all` (line 245) or in the scrolling `evaluate` (line 272) is not caught: the `try` at line 238 has only a `finally`, so the exception leaves the call and the bookmarks gathered so far are lost. A Ctrl+C before the handler is installed at line 235 raises `KeyboardInterrupt`, which the `except Exception` at line 219 does not catch. `feed` and the browser inputs cannot fail in the model, so `Collect` always returns.
- Parser.ParseTweet: only the paths on which `_parse_tweet` returns are modelled. `urlparse` raises `ValueError` on a malformed host such as `http://[oops`, inside `is_article_url` (line 80), which line 308 calls for every anchor, and then `_parse_tweet` raises. `UrlSplitter` cannot fail, so `ParseTweet` always returns a record. In the collector a parser exception appears only as the `Unparseable` outcome of the element.
- Parser.ParseTweet: `inner_text()` and `get_attribute()` are taken as given strings; which DOM elements the selectors match is part of the input record.
