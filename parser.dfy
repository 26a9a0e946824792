/** `_parse_tweet`: one rendered tweet element to one bookmark record. */
module Parser {
  import opened Wrappers
  import opened Strings
  import opened Urls

  /** One bookmark, the dictionary `_parse_tweet` builds (`tweetUrl` is its `tweet_url`). */
  datatype Tweet = Tweet(
    timestamp: Option<string>,
    authorName: string,
    authorHandle: string,
    text: string,
    tweetUrl: string,
    articleUrl: string,
    articleText: string,
    imageUrls: seq<string>,
    urlsRaw: seq<string>)

  /** The post's `time` element: its `datetime` attribute and the href of its closest enclosing anchor ("" if none). */
  datatype TimeElement = TimeElement(datetime: Option<string>, closestAnchorHref: string)

  /**
   * What the parser reads from one `article[data-testid="tweet"]` element.
   * A `None` stands for an element the query did not find.
   */
  datatype TweetElement = TweetElement(
    handleHref: Option<string>,   // href of the first a[role="link"][href*="/"]
    userName: Option<string>,     // inner text of the User-Name span
    tweetText: Option<string>,    // inner text of the tweetText div
    time: Option<TimeElement>,
    anchorHrefs: seq<string>,     // hrefs of a[href^="http"], in document order
    photoSrcs: seq<string>)       // src of each tweetPhoto img, "" where it has none

  /**
   * The library calls the parser makes that the model keeps abstract:
   * urlparse's netloc/path split, the URL regex `findall` over the text,
   * and the regex substitution that removes `name=` size parameters.
   */
  datatype Externals = Externals(
    split: UrlSplitter,
    findUrls: string -> seq<string>,
    dropNameParam: string -> string)

  predicate IsSlash(c: char) {
    c == '/'
  }

  /** `author_handle`: "@" and the handle href with its surrounding slashes stripped, or "" when nothing is left. */
  function AuthorHandle(handleHref: Option<string>): (r: string)
    ensures handleHref.None? ==> r == ""
    ensures handleHref.Some? ==>
      var href := handleHref.value;
      && (r == "" <==> forall k :: 0 <= k < |href| ==> href[k] == '/')
      && (r != "" ==>
            && |r| >= 2 && r[0] == '@' && r[1] != '/' && r[|r| - 1] != '/'
            && var i := LeadingRun(href, IsSlash);
               && i + |r| - 1 <= |href|
               && r[1..] == href[i..i + |r| - 1]
               && (forall k :: 0 <= k < i ==> href[k] == '/')
               && (forall k :: i + |r| - 1 <= k < |href| ==> href[k] == '/'))
  {
    var handle := if handleHref.Some? then Trim(handleHref.value, IsSlash) else "";
    if handle != "" then "@" + handle else ""
  }

  /**
   * `text`: newlines become spaces and surrounding whitespace goes. The
   * result has no newline, does not start or end with whitespace, is a
   * contiguous part of the newline-replaced text, and is empty only when
   * the raw text is all whitespace.
   */
  function NormaliseText(raw: string): string {
    Trim(ReplaceNewlines(raw), IsSpace)
  }

  lemma NormaliseTextFacts(raw: string)
    ensures var s := ReplaceNewlines(raw);
      var r := NormaliseText(raw);
      var i := LeadingRun(s, IsSpace);
      && '\n' !in r
      && (r == [] || (!IsSpace(r[0]) && !IsSpace(r[|r| - 1])))
      && (r == [] <==> forall k :: 0 <= k < |raw| ==> IsSpace(raw[k]))
      && i + |r| <= |s| && r == s[i..i + |r|]
  {
    var s := ReplaceNewlines(raw);
    var r := Trim(s, IsSpace);
    NoNewlineInSlice(s, LeadingRun(s, IsSpace), r);
    AllSpaceAfterReplace(raw);
  }

  lemma AllSpaceAfterReplace(raw: string)
    ensures (forall k :: 0 <= k < |raw| ==> IsSpace(raw[k]))
        <==> (forall k :: 0 <= k < |raw| ==> IsSpace(ReplaceNewlines(raw)[k]))
  {
    ReplaceKeepsSpaces(raw);
  }

  lemma NoNewlineInSlice(s: string, i: nat, r: string)
    requires '\n' !in s && i + |r| <= |s| && r == s[i..i + |r|]
    ensures '\n' !in r
  {
    assert forall k :: 0 <= k < |r| ==> r[k] == s[i + k];
  }

  lemma ReplaceKeepsSpaces(raw: string)
    ensures forall k :: 0 <= k < |raw| ==> (IsSpace(raw[k]) <==> IsSpace(ReplaceNewlines(raw)[k]))
  {
    var s := ReplaceNewlines(raw);
    forall k | 0 <= k < |raw| ensures IsSpace(raw[k]) <==> IsSpace(s[k]) {
      if raw[k] == '\n' {
        assert s[k] == ' ';
      }
    }
  }

  /** The `elif` at the anchor loop: a t.co link, or a link off X and Twitter. */
  predicate IsTrackedLink(split: UrlSplitter, href: string) {
    Contains(href, "t.co") || Lower(split(href).netloc) !in {"x.com", "twitter.com"}
  }

  /** The anchors that are not Article links but are tracked links. */
  function AnchorLinks(split: UrlSplitter, hrefs: seq<string>): set<string> {
    set h | h in hrefs && !IsArticleUrl(split, h) && IsTrackedLink(split, h)
  }

  /** The set `raw_urls`: the regex's finds in the raw text, and the tracked anchors. */
  function RawLinks(ext: Externals, rawText: string, hrefs: seq<string>): set<string> {
    Elems(ext.findUrls(rawText)) + AnchorLinks(ext.split, hrefs)
  }

  /** `article_url` after the anchor loop has seen `hrefs`. */
  function ArticleOf(split: UrlSplitter, hrefs: seq<string>): string
    decreases |hrefs|
  {
    if hrefs == [] then ""
    else
      var found := ArticleOf(split, hrefs[..|hrefs| - 1]);
      var last := hrefs[|hrefs| - 1];
      if IsArticleUrl(split, last) && found == "" then last else found
  }

  /** An anchor the Article slot can take: an Article URL that is not empty. */
  predicate IsArticleCandidate(split: UrlSplitter, href: string) {
    href != "" && IsArticleUrl(split, href)
  }

  /**
   * `article_url` is the first non-empty anchor href that is an Article URL;
   * it is "" exactly when there is none, and later Article links are ignored.
   */
  lemma {:induction false} ArticleOfIsFirst(split: UrlSplitter, hrefs: seq<string>)
    ensures var a := ArticleOf(split, hrefs);
      && (a == "" <==> forall i :: 0 <= i < |hrefs| ==> !IsArticleCandidate(split, hrefs[i]))
      && (a != "" ==> exists i :: 0 <= i < |hrefs| && hrefs[i] == a && IsArticleCandidate(split, a)
                                  && forall j :: 0 <= j < i ==> !IsArticleCandidate(split, hrefs[j]))
    decreases |hrefs|
  {
    if hrefs != [] {
      var n := |hrefs|;
      var init := hrefs[..n - 1];
      ArticleOfIsFirst(split, init);
      assert forall i :: 0 <= i < n - 1 ==> init[i] == hrefs[i];
      var found := ArticleOf(split, init);
      if found != "" {
        var i :| 0 <= i < |init| && init[i] == found && IsArticleCandidate(split, found)
                 && forall j :: 0 <= j < i ==> !IsArticleCandidate(split, init[j]);
        assert hrefs[i] == found;
      } else if IsArticleUrl(split, hrefs[n - 1]) && hrefs[n - 1] != "" {
        assert forall j :: 0 <= j < n - 1 ==> !IsArticleCandidate(split, hrefs[j]);
      }
    }
  }

  /** A `src` the image loop keeps: non-empty and on the media host. */
  predicate IsMediaSrc(src: string) {
    src != "" && Contains(src, "pbs.twimg.com/media")
  }

  /** The query the image loop appends to each kept image URL. */
  const OriginalSize: string := "?name=orig"

  /** `image_urls` after the image loop has seen `srcs`. */
  function OriginalImages(dropNameParam: string -> string, srcs: seq<string>): seq<string>
    decreases |srcs|
  {
    if srcs == [] then []
    else
      var last := srcs[|srcs| - 1];
      OriginalImages(dropNameParam, srcs[..|srcs| - 1])
        + (if IsMediaSrc(last) then [dropNameParam(last) + OriginalSize] else [])
  }

  /**
   * Every image URL ends with `?name=orig` and comes from a kept media
   * `src`; there are never more image URLs than images.
   */
  lemma {:induction false} OriginalImagesFromMedia(dropNameParam: string -> string, srcs: seq<string>)
    ensures var r := OriginalImages(dropNameParam, srcs);
      && |r| <= |srcs|
      && forall k :: 0 <= k < |r| ==>
           && EndsWith(r[k], OriginalSize)
           && exists i :: 0 <= i < |srcs| && IsMediaSrc(srcs[i]) && r[k] == dropNameParam(srcs[i]) + OriginalSize
    decreases |srcs|
  {
    if srcs != [] {
      var n := |srcs|;
      var init := srcs[..n - 1];
      OriginalImagesFromMedia(dropNameParam, init);
      var r := OriginalImages(dropNameParam, srcs);
      var r0 := OriginalImages(dropNameParam, init);
      forall k | 0 <= k < |r|
        ensures EndsWith(r[k], OriginalSize)
        ensures exists i :: 0 <= i < |srcs| && IsMediaSrc(srcs[i]) && r[k] == dropNameParam(srcs[i]) + OriginalSize
      {
        if k < |r0| {
          var i :| 0 <= i < |init| && IsMediaSrc(init[i]) && r0[k] == dropNameParam(init[i]) + OriginalSize;
          assert srcs[i] == init[i];
        } else {
          var u := dropNameParam(srcs[n - 1]) + OriginalSize;
          assert r[k] == u;
          assert u[|u| - |OriginalSize|..] == OriginalSize;
        }
      }
    }
  }

  /** How many sources the image loop keeps, counted from the front. */
  function MediaCount(srcs: seq<string>): nat {
    if srcs == [] then 0
    else (if IsMediaSrc(srcs[0]) then 1 else 0) + MediaCount(srcs[1..])
  }

  /** Every media source gives exactly one image URL: the count of images is the count of media sources. */
  lemma {:induction false} OriginalImagesCount(dropNameParam: string -> string, srcs: seq<string>)
    ensures |OriginalImages(dropNameParam, srcs)| == MediaCount(srcs)
    decreases |srcs|
  {
    if srcs != [] {
      assert [srcs[0]] + srcs[1..] == srcs;
      OriginalImagesConcat(dropNameParam, [srcs[0]], srcs[1..]);
      OriginalImagesCount(dropNameParam, srcs[1..]);
      assert [srcs[0]][..0] == [];
    }
  }

  /** The image loop keeps document order: the images of `a + b` are those of `a`, then those of `b`. */
  lemma {:induction false} OriginalImagesConcat(dropNameParam: string -> string, a: seq<string>, b: seq<string>)
    ensures OriginalImages(dropNameParam, a + b) == OriginalImages(dropNameParam, a) + OriginalImages(dropNameParam, b)
    decreases |b|
  {
    if b == [] {
      assert a + b == a;
    } else {
      var n := |b|;
      assert (a + b)[..|a + b| - 1] == a + b[..n - 1];
      assert (a + b)[|a + b| - 1] == b[n - 1];
      OriginalImagesConcat(dropNameParam, a, b[..n - 1]);
    }
  }

  /**
   * When the text quotes the Article's own URL, the regex puts it in
   * `urls_raw` beside `article_url`: the anchor loop alone keeps Article
   * links out of `urls_raw`.
   */
  lemma ArticleUrlCanBeRawLink(ext: Externals, href: string)
    requires ext.split(href) == UrlParts("x.com", "/articles/1")
    requires href != "" && href in ext.findUrls(href)
    ensures ArticleOf(ext.split, [href]) == href
    ensures href in RawLinks(ext, href, [href])
  {
    assert "/articles/1"[..10] == "/articles/";
    assert Lower("x.com") == "x.com";
    assert [href][..0] == [];
  }

  /**
   * The anchor loop of `_parse_tweet`: the first Article URL is kept apart,
   * and every other tracked anchor joins the links the regex found.
   */
  method ScanAnchors(ext: Externals, text: string, hrefs: seq<string>) returns (rawUrls: set<string>, articleUrl: string)
    ensures rawUrls == RawLinks(ext, text, hrefs)
    ensures articleUrl == ArticleOf(ext.split, hrefs)
  {
    rawUrls := Elems(ext.findUrls(text));
    articleUrl := "";
    var i := 0;
    while i < |hrefs|
      invariant 0 <= i <= |hrefs|
      invariant rawUrls == Elems(ext.findUrls(text)) + AnchorLinks(ext.split, hrefs[..i])
      invariant articleUrl == ArticleOf(ext.split, hrefs[..i])
    {
      var href := hrefs[i];
      assert hrefs[..i + 1] == hrefs[..i] + [href];
      if IsArticleUrl(ext.split, href) {
        if articleUrl == "" {
          articleUrl := href;
        }
      } else if IsTrackedLink(ext.split, href) {
        rawUrls := rawUrls + {href};
      }
      i := i + 1;
    }
    assert hrefs[..i] == hrefs;
  }

  /** The image loop of `_parse_tweet`: media sources, in order, at original size. */
  method OriginalSizeImages(dropNameParam: string -> string, srcs: seq<string>) returns (imageUrls: seq<string>)
    ensures imageUrls == OriginalImages(dropNameParam, srcs)
  {
    imageUrls := [];
    var j := 0;
    while j < |srcs|
      invariant 0 <= j <= |srcs|
      invariant imageUrls == OriginalImages(dropNameParam, srcs[..j])
    {
      var src := srcs[j];
      assert srcs[..j + 1] == srcs[..j] + [src];
      if src != "" && Contains(src, "pbs.twimg.com/media") {
        imageUrls := imageUrls + [dropNameParam(src) + OriginalSize];
      }
      j := j + 1;
    }
    assert srcs[..j] == srcs;
  }

  /**
   * `_parse_tweet`. Every field of the record is determined by the element:
   * `urls_raw` is the sorted, repetition-free listing of exactly the regex
   * finds and the tracked non-Article anchors, and `article_text` is empty.
   */
  method ParseTweet(art: TweetElement, ext: Externals) returns (t: Tweet)
    ensures t.timestamp == (if art.time.Some? then art.time.value.datetime else Some(""))
    ensures t.authorName == art.userName.GetOr("")
    ensures t.authorHandle == AuthorHandle(art.handleHref)
    ensures t.text == NormaliseText(art.tweetText.GetOr(""))
    ensures t.tweetUrl == (if art.time.Some? then art.time.value.closestAnchorHref else "")
    ensures t.articleUrl == ArticleOf(ext.split, art.anchorHrefs)
    ensures t.articleText == ""
    ensures t.imageUrls == OriginalImages(ext.dropNameParam, art.photoSrcs)
    ensures Increasing(t.urlsRaw)
    ensures Elems(t.urlsRaw) == RawLinks(ext, art.tweetText.GetOr(""), art.anchorHrefs)
  {
    var handle := if art.handleHref.Some? then Trim(art.handleHref.value, IsSlash) else "";
    var name := art.userName.GetOr("");
    var text := art.tweetText.GetOr("");
    var ts := if art.time.Some? then art.time.value.datetime else Some("");
    var tweetUrl := if art.time.Some? then art.time.value.closestAnchorHref else "";

    var rawUrls, articleUrl := ScanAnchors(ext, text, art.anchorHrefs);
    var imageUrls := OriginalSizeImages(ext.dropNameParam, art.photoSrcs);
    var urlsRaw := SortedList(rawUrls);
    t := Tweet(
      timestamp := ts,
      authorName := name,
      authorHandle := if handle != "" then "@" + handle else "",
      text := NormaliseText(text),
      tweetUrl := tweetUrl,
      articleUrl := articleUrl,
      articleText := "",
      imageUrls := imageUrls,
      urlsRaw := urlsRaw);
  }
}
