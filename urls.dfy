/** The two URL predicates: the login-wall test and the X Article test. */
module Urls {
  import opened Strings

  /** Fragments of the URLs X shows while a visitor is not logged in. */
  const LoginSlugs: seq<string> := ["x.com/login", "x.com/i/flow", "x.com/account/"]

  /** `_is_login_page`: some login fragment appears in the URL. */
  predicate IsLoginPage(url: string) {
    exists slug :: slug in LoginSlugs && Contains(url, slug)
  }

  /** A URL is a login page exactly when one of the three fragments occurs in it at some position. */
  lemma LoginPageIff(url: string)
    ensures IsLoginPage(url) <==> exists k: nat, i: nat :: k < |LoginSlugs| && OccursAt(url, LoginSlugs[k], i)
  {
    ContainsIff(url, LoginSlugs[0]);
    ContainsIff(url, LoginSlugs[1]);
    ContainsIff(url, LoginSlugs[2]);
    if exists k: nat, i: nat :: k < |LoginSlugs| && OccursAt(url, LoginSlugs[k], i) {
      var k: nat, i: nat :| k < |LoginSlugs| && OccursAt(url, LoginSlugs[k], i);
      assert LoginSlugs[k] in LoginSlugs && Contains(url, LoginSlugs[k]);
    }
  }

  /** The authority (`netloc`) and `path` components `urlparse` splits a URL into. */
  datatype UrlParts = UrlParts(netloc: string, path: string)

  /**
   * `urlparse`, reduced to its netloc/path split (sections 3.2 and 3.3 of
   * RFC 3986). It is a parameter of the model rather than a definition.
   */
  type UrlSplitter = string -> UrlParts

  /** Host-name endings the Article test accepts. */
  const ArticleHostSuffixes: seq<string> := ["x.com", "twitter.com"]

  /** `is_article_url`: an `/articles/` path on a host ending in `x.com` or `twitter.com`. */
  predicate IsArticleUrl(split: UrlSplitter, url: string) {
    var parts := split(url);
    Contains(parts.path, "/articles/")
    && (EndsWith(Lower(parts.netloc), "x.com") || EndsWith(Lower(parts.netloc), "twitter.com"))
  }

  /**
   * A URL is an Article URL exactly when `/articles/` occurs in its path and
   * its lower-cased host ends with one of the accepted endings.
   */
  lemma ArticleUrlIff(split: UrlSplitter, url: string)
    ensures IsArticleUrl(split, url) <==>
      && (exists i: nat :: OccursAt(split(url).path, "/articles/", i))
      && (exists k :: 0 <= k < |ArticleHostSuffixes| && EndsWith(Lower(split(url).netloc), ArticleHostSuffixes[k]))
  {
    ContainsIff(split(url).path, "/articles/");
    var host := Lower(split(url).netloc);
    if EndsWith(host, "x.com") {
      assert EndsWith(host, ArticleHostSuffixes[0]);
    }
    if EndsWith(host, "twitter.com") {
      assert EndsWith(host, ArticleHostSuffixes[1]);
    }
  }

  /**
   * The host test is a suffix test, so a host that merely ends in the
   * letters `x.com` passes it: an `/articles/` path on `fedex.com` counts.
   */
  lemma SuffixHostIsArticle(split: UrlSplitter, url: string)
    requires split(url) == UrlParts("fedex.com", "/articles/1")
    ensures IsArticleUrl(split, url)
  {
    assert "/articles/1"[..10] == "/articles/";
    assert Lower("fedex.com")[4..] == "x.com";
  }
}
