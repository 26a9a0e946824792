/**
 * The export stage: `expand_tco_url`, `expand_urls_parallel` and
 * `_build_rows`, which turn bookmarks into CSV and JSONL rows with t.co
 * links resolved.
 */
module Export {
  import opened Wrappers
  import opened Strings
  import opened Parser

  /**
   * A HEAD request that follows redirects: `Some(final URL)`, or `None` when
   * it raises (timeout, network error, bad URL).
   */
  type Resolver = string -> Option<string>

  /** `expand_tco_url`: where the redirects lead, or the short URL itself when the request fails. */
  function ExpandTcoUrl(resolve: Resolver, shortUrl: string): string {
    match resolve(shortUrl)
    case Some(finalUrl) => finalUrl
    case None => shortUrl
  }

  /** The filter of `expand_urls_parallel`: only t.co links are resolved. */
  predicate IsTco(url: string) {
    Contains(url, "t.co/")
  }

  /**
   * `expand_urls_parallel`. Each t.co URL of the input is resolved once and
   * its result stored as it completes, in whatever order that is; the
   * dictionary's keys are exactly the distinct t.co inputs, so it is empty
   * when there are none, and each value is that URL's expansion.
   */
  method ExpandUrlsParallel(urls: seq<string>, resolve: Resolver) returns (mapping: map<string, string>)
    ensures mapping.Keys == set u | u in urls && IsTco(u)
    ensures forall u :: u in mapping ==> mapping[u] == ExpandTcoUrl(resolve, u)
  {
    var tcoUrls := set u | u in urls && IsTco(u);
    if tcoUrls == {} {
      return map[];
    }
    mapping := map[];
    var pending := tcoUrls;
    while pending != {}
      invariant pending <= tcoUrls
      invariant mapping.Keys == tcoUrls - pending
      invariant forall u :: u in mapping ==> mapping[u] == ExpandTcoUrl(resolve, u)
      decreases |pending|
    {
      var u :| u in pending;  // the next future to complete
      mapping := mapping[u := ExpandTcoUrl(resolve, u)];
      pending := pending - {u};
    }
  }

  /** The set `_build_rows` collects: every t.co link in any bookmark's `urls_raw`. */
  function AllTco(bs: seq<Tweet>): set<string> {
    set i, j | 0 <= i < |bs| && 0 <= j < |bs[i].urlsRaw| && IsTco(bs[i].urlsRaw[j]) :: bs[i].urlsRaw[j]
  }

  /** The dictionary `expand_urls_parallel` returns for the bookmarks' t.co links. */
  function UrlMap(resolve: Resolver, bs: seq<Tweet>): map<string, string> {
    map u | u in AllTco(bs) :: ExpandTcoUrl(resolve, u)
  }

  /** `url_map.get(u, u)`. */
  function Lookup(urlMap: map<string, string>, u: string): string {
    if u in urlMap then urlMap[u] else u
  }

  /** `urls_expanded`: each raw link looked up in place. */
  function ExpandedLinks(urlMap: map<string, string>, raw: seq<string>): (r: seq<string>)
    ensures |r| == |raw|
    ensures forall j :: 0 <= j < |raw| ==> r[j] == Lookup(urlMap, raw[j])
  {
    seq(|raw|, j requires 0 <= j < |raw| => Lookup(urlMap, raw[j]))
  }

  /** A JSONL row: the seven copied fields, and the two list fields as lists. */
  datatype JsonRow = JsonRow(
    timestamp: Option<string>,
    authorName: string,
    authorHandle: string,
    text: string,
    tweetUrl: string,
    imageUrls: seq<string>,
    articleUrl: string,
    articleText: string,
    urlsExpanded: seq<string>)

  /** A CSV row, in `CSV_FIELDS` order: the same fields, with the two lists joined. */
  datatype CsvRow = CsvRow(
    timestamp: Option<string>,
    authorName: string,
    authorHandle: string,
    text: string,
    tweetUrl: string,
    imageUrls: string,
    articleUrl: string,
    articleText: string,
    urlsExpanded: string)

  /** The separator of multi-valued CSV fields. */
  const ListSeparator: string := " | "

  function JsonRowOf(b: Tweet, urlMap: map<string, string>): JsonRow {
    JsonRow(b.timestamp, b.authorName, b.authorHandle, b.text, b.tweetUrl,
            b.imageUrls, b.articleUrl, b.articleText, ExpandedLinks(urlMap, b.urlsRaw))
  }

  /** The CSV row is the JSONL row with its lists joined by " | " and the rest copied. */
  function CsvOf(row: JsonRow): CsvRow {
    CsvRow(row.timestamp, row.authorName, row.authorHandle, row.text, row.tweetUrl,
           Join(row.imageUrls, ListSeparator), row.articleUrl, row.articleText,
           Join(row.urlsExpanded, ListSeparator))
  }

  /**
   * `_build_rows`: one CSV row and one JSONL row per bookmark, in order.
   * The JSONL row copies the bookmark's fields and looks each raw link up
   * in the resolved dictionary; the CSV row joins the JSONL lists.
   */
  method BuildRows(bookmarks: seq<Tweet>, resolve: Resolver) returns (csvRows: seq<CsvRow>, jsonlRows: seq<JsonRow>)
    ensures |csvRows| == |bookmarks| && |jsonlRows| == |bookmarks|
    ensures forall i :: 0 <= i < |bookmarks| ==>
      && jsonlRows[i] == JsonRowOf(bookmarks[i], UrlMap(resolve, bookmarks))
      && csvRows[i] == CsvOf(jsonlRows[i])
  {
    var allTco := ListOf(AllTco(bookmarks));
    var urlMap := ExpandUrlsParallel(allTco, resolve);
    assert urlMap == UrlMap(resolve, bookmarks);

    csvRows, jsonlRows := [], [];
    var i := 0;
    while i < |bookmarks|
      invariant 0 <= i <= |bookmarks|
      invariant |csvRows| == i && |jsonlRows| == i
      invariant forall k :: 0 <= k < i ==>
        && jsonlRows[k] == JsonRowOf(bookmarks[k], urlMap)
        && csvRows[k] == CsvOf(jsonlRows[k])
    {
      var b := bookmarks[i];
      var expanded := ExpandedLinks(urlMap, b.urlsRaw);
      var images := b.imageUrls;
      csvRows := csvRows + [CsvRow(b.timestamp, b.authorName, b.authorHandle, b.text, b.tweetUrl,
                                   Join(images, ListSeparator), b.articleUrl, b.articleText,
                                   Join(expanded, ListSeparator))];
      jsonlRows := jsonlRows + [JsonRow(b.timestamp, b.authorName, b.authorHandle, b.text, b.tweetUrl,
                                        images, b.articleUrl, b.articleText, expanded)];
      i := i + 1;
    }
  }

  /**
   * Each exported link is the resolver's answer for a t.co link and the raw
   * link otherwise; when resolving a link fails, the raw link is exported
   * unchanged.
   */
  lemma ExportedLinkIsResolved(bs: seq<Tweet>, resolve: Resolver, i: nat, j: nat)
    requires i < |bs| && j < |bs[i].urlsRaw|
    ensures var u := bs[i].urlsRaw[j];
      var out := JsonRowOf(bs[i], UrlMap(resolve, bs)).urlsExpanded;
      && |out| == |bs[i].urlsRaw|
      && out[j] == (if IsTco(u) then ExpandTcoUrl(resolve, u) else u)
      && (resolve(u).None? ==> out[j] == u)
  {
    var u := bs[i].urlsRaw[j];
    if IsTco(u) {
      assert u in AllTco(bs);
    }
  }

  /**
   * A bookmark whose only raw link is `https://t.co/abc123`, with a resolver
   * that sends it to `https://example.com/page`, exports that page as its
   * CSV `urls_expanded`.
   */
  lemma SingleLinkExample(bs: seq<Tweet>, resolve: Resolver, i: nat)
    requires i < |bs| && bs[i].urlsRaw == ["https://t.co/abc123"]
    requires resolve("https://t.co/abc123") == Some("https://example.com/page")
    ensures CsvOf(JsonRowOf(bs[i], UrlMap(resolve, bs))).urlsExpanded == "https://example.com/page"
  {
    var u := "https://t.co/abc123";
    assert OccursAt(u, "t.co/", 8) by {
      assert u[8..13] == "t.co/";
    }
    ContainsIff(u, "t.co/");
    ExportedLinkIsResolved(bs, resolve, i, 0);
  }
}
