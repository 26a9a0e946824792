/**
 * `collect_bookmarks`: the scroll loop that gathers parsed tweets across
 * passes, drops the ones already seen, stops after five passes without
 * anything new or when interrupted, and then fills in Article text.
 */
module Collector {
  import opened Strings
  import opened Urls
  import opened Parser

  /** What parsing one tweet element of a pass gives: a record, or the exception the loop skips. */
  datatype ParseOutcome = Parsed(tweet: Tweet) | Unparseable

  /** How many characters of the text stand in for a missing permalink. */
  const KeyTextLength: nat := 80

  /** Consecutive passes without a new tweet after which the loop gives up. */
  const StalePassLimit: nat := 5

  /** `tid`: the permalink, or the first 80 characters of the text when there is none. */
  function DedupKey(t: Tweet): string {
    if t.tweetUrl != "" then t.tweetUrl else Prefix(t.text, KeyTextLength)
  }

  /** The loop's collected state: `bookmarks` and `seen_ids`. */
  datatype Crawl = Crawl(bookmarks: seq<Tweet>, seenIds: set<string>)

  const Start: Crawl := Crawl([], {})

  /** One iteration of the inner loop: skip a failure, skip a seen key, else record the key and append. */
  function Offer(c: Crawl, item: ParseOutcome): Crawl {
    match item
    case Unparseable => c
    case Parsed(t) =>
      if DedupKey(t) in c.seenIds then c
      else Crawl(c.bookmarks + [t], c.seenIds + {DedupKey(t)})
  }

  /** The inner loop over the elements of one pass. It only ever appends. */
  function OfferAll(c: Crawl, items: seq<ParseOutcome>): (r: Crawl)
    ensures c.bookmarks <= r.bookmarks && c.seenIds <= r.seenIds
    decreases |items|
  {
    if items == [] then c
    else Offer(OfferAll(c, items[..|items| - 1]), items[|items| - 1])
  }

  function KeySet(bs: seq<Tweet>): set<string> {
    set i | 0 <= i < |bs| :: DedupKey(bs[i])
  }

  predicate DistinctKeys(bs: seq<Tweet>) {
    forall i, j :: 0 <= i < j < |bs| ==> DedupKey(bs[i]) != DedupKey(bs[j])
  }

  /** `seen_ids` is exactly the set of keys of `bookmarks`, and no key repeats. */
  predicate Consistent(c: Crawl) {
    c.seenIds == KeySet(c.bookmarks) && DistinctKeys(c.bookmarks)
  }

  /** The keys of the elements of a pass that parsed. */
  function OfferedKeys(items: seq<ParseOutcome>): set<string> {
    set i | 0 <= i < |items| && items[i].Parsed? :: DedupKey(items[i].tweet)
  }

  /** Every parsed element of the pass has a key already seen. */
  predicate NothingNew(c: Crawl, items: seq<ParseOutcome>) {
    forall i :: 0 <= i < |items| && items[i].Parsed? ==> DedupKey(items[i].tweet) in c.seenIds
  }

  lemma OfferKeeps(c: Crawl, item: ParseOutcome)
    requires Consistent(c)
    ensures Consistent(Offer(c, item))
  {
    if item.Parsed? && DedupKey(item.tweet) !in c.seenIds {
      var bs := c.bookmarks + [item.tweet];
      assert forall i :: 0 <= i < |c.bookmarks| ==> bs[i] == c.bookmarks[i];
      assert KeySet(bs) == KeySet(c.bookmarks) + {DedupKey(item.tweet)} by {
        forall key | key in KeySet(bs) ensures key in KeySet(c.bookmarks) + {DedupKey(item.tweet)} {
          var i :| 0 <= i < |bs| && DedupKey(bs[i]) == key;
          if i < |c.bookmarks| {
            assert DedupKey(c.bookmarks[i]) == key;
          }
        }
        assert DedupKey(bs[|c.bookmarks|]) == DedupKey(item.tweet);
      }
    }
  }

  /**
   * One pass keeps `seen_ids` equal to the key set of `bookmarks` with no key
   * twice; it adds exactly the keys of the parsed elements to `seen_ids`;
   * it leaves the earlier bookmarks as a prefix; and whatever it appends is a
   * parsed element of the pass.
   */
  lemma {:induction false} OfferAllKeeps(c: Crawl, items: seq<ParseOutcome>)
    requires Consistent(c)
    ensures var r := OfferAll(c, items);
      && Consistent(r)
      && r.seenIds == c.seenIds + OfferedKeys(items)
      && forall k :: |c.bookmarks| <= k < |r.bookmarks| ==> Parsed(r.bookmarks[k]) in items
    decreases |items|
  {
    if items != [] {
      var n := |items|;
      var init := items[..n - 1];
      var last := items[n - 1];
      OfferAllKeeps(c, init);
      var mid := OfferAll(c, init);
      OfferKeeps(mid, last);
      assert items == init + [last];
      assert OfferedKeys(items) == OfferedKeys(init) + (if last.Parsed? then {DedupKey(last.tweet)} else {}) by {
        forall key | key in OfferedKeys(items)
          ensures key in OfferedKeys(init) + (if last.Parsed? then {DedupKey(last.tweet)} else {})
        {
          var i :| 0 <= i < n && items[i].Parsed? && DedupKey(items[i].tweet) == key;
          if i < n - 1 {
            assert init[i] == items[i];
          }
        }
        forall key | key in OfferedKeys(init) ensures key in OfferedKeys(items) {
          var i :| 0 <= i < n - 1 && init[i].Parsed? && DedupKey(init[i].tweet) == key;
          assert items[i] == init[i];
        }
      }
      var r := OfferAll(c, items);
      forall k | |c.bookmarks| <= k < |r.bookmarks| ensures Parsed(r.bookmarks[k]) in items {
        if k < |mid.bookmarks| {
          assert r.bookmarks[k] == mid.bookmarks[k];
        }
      }
    }
  }

  /** Parsing a pass in two parts gives what parsing it whole does. */
  lemma {:induction false} OfferAllConcat(c: Crawl, xs: seq<ParseOutcome>, ys: seq<ParseOutcome>)
    ensures OfferAll(c, xs + ys) == OfferAll(OfferAll(c, xs), ys)
    decreases |ys|
  {
    if ys == [] {
      assert xs + ys == xs;
    } else {
      var n := |ys|;
      assert (xs + ys)[..|xs + ys| - 1] == xs + ys[..n - 1];
      assert (xs + ys)[|xs + ys| - 1] == ys[n - 1];
      OfferAllConcat(c, xs, ys[..n - 1]);
    }
  }

  /** A failure to parse one element skips that element only: the rest of the pass is processed as if it were absent. */
  lemma UnparseableSkipsOnlyItself(c: Crawl, xs: seq<ParseOutcome>, ys: seq<ParseOutcome>)
    ensures OfferAll(c, xs + [Unparseable] + ys) == OfferAll(c, xs + ys)
  {
    OfferAllConcat(c, xs + [Unparseable], ys);
    OfferAllConcat(c, xs, [Unparseable]);
    OfferAllConcat(c, xs, ys);
    assert OfferAll(OfferAll(c, xs), [Unparseable]) == OfferAll(c, xs) by {
      assert [Unparseable][..0] == [];
    }
  }

  /** A pass whose parsed elements all have seen keys changes nothing. */
  lemma {:induction false} NothingNewKeeps(c: Crawl, items: seq<ParseOutcome>)
    requires NothingNew(c, items)
    ensures OfferAll(c, items) == c
    decreases |items|
  {
    if items != [] {
      var init := items[..|items| - 1];
      assert forall i :: 0 <= i < |init| ==> init[i] == items[i];
      NothingNewKeeps(c, init);
    }
  }

  /** A pass adds no bookmark exactly when every element it parses has a key already in `seen_ids`. */
  lemma NoGainIffNothingNew(c: Crawl, items: seq<ParseOutcome>)
    requires Consistent(c)
    ensures |OfferAll(c, items).bookmarks| == |c.bookmarks| <==> NothingNew(c, items)
  {
    var r := OfferAll(c, items);
    OfferAllKeeps(c, items);
    if |r.bookmarks| == |c.bookmarks| {
      assert r.bookmarks == c.bookmarks;
      forall i | 0 <= i < |items| && items[i].Parsed? ensures DedupKey(items[i].tweet) in c.seenIds {
        assert DedupKey(items[i].tweet) in OfferedKeys(items);
      }
    }
    if NothingNew(c, items) {
      NothingNewKeeps(c, items);
    }
  }

  /**
   * Two elements with the same key collapse into the first, including two
   * without permalink whose texts share their first 80 characters, and two
   * with neither permalink nor text (key "").
   */
  lemma SameKeyCollapses(c: Crawl, a: Tweet, b: Tweet)
    requires DedupKey(a) == DedupKey(b) && DedupKey(a) !in c.seenIds
    ensures OfferAll(c, [Parsed(a), Parsed(b)]).bookmarks == c.bookmarks + [a]
  {
    OfferAllConcat(c, [Parsed(a)], [Parsed(b)]);
    assert [Parsed(a)] + [Parsed(b)] == [Parsed(a), Parsed(b)];
    assert [Parsed(a)][..0] == [] && [Parsed(b)][..0] == [];
  }

  // ---------------------------------------------------------------------
  // The scroll loop
  // ---------------------------------------------------------------------

  /**
   * The Ctrl+C flag. It never clears once set, so it is given by the first
   * pass whose top-of-loop check sees it.
   */
  datatype Interrupt = NoInterrupt | InterruptBefore(pass: nat)

  /** Whether the flag is set at the check before pass `moment` (moment `n + 1` also stands for the check after pass `n`). */
  predicate StopRequested(intr: Interrupt, moment: nat) {
    intr.InterruptBefore? && intr.pass <= moment
  }

  /**
   * Where the loop ends: the collected state, the number of the last pass
   * whose body ran, and how many tweets each pass run by this call added.
   */
  datatype ScrollEnd = ScrollEnd(crawl: Crawl, passes: nat, gains: seq<nat>)

  /**
   * The scroll loop from the top of pass `k` with `stale` as `no_new_count`;
   * `feed(k)` is what the page shows and the parser makes of it at pass `k`.
   */
  function Scroll(c: Crawl, stale: nat, k: nat, maxScrolls: int,
                  feed: nat -> seq<ParseOutcome>, intr: Interrupt): ScrollEnd
    requires k >= 1
    decreases if k <= maxScrolls then maxScrolls + 1 - k else 0
  {
    if k > maxScrolls || StopRequested(intr, k) then ScrollEnd(c, k - 1, [])
    else
      var next := OfferAll(c, feed(k));
      var gained := |next.bookmarks| - |c.bookmarks|;
      if gained > 0 then
        var e := Scroll(next, 0, k + 1, maxScrolls, feed, intr);
        ScrollEnd(e.crawl, e.passes, [gained] + e.gains)
      else if stale + 1 >= StalePassLimit then
        ScrollEnd(next, k, [0])
      else
        var e := Scroll(next, stale + 1, k + 1, maxScrolls, feed, intr);
        ScrollEnd(e.crawl, e.passes, [0] + e.gains)
  }

  function Max(a: int, b: int): int {
    if a < b then b else a
  }

  function Min(a: int, b: int): int {
    if a < b then a else b
  }

  /**
   * The loop keeps the bookmark keys distinct and `seen_ids` equal to their
   * set, leaves what it started with as a prefix, runs at most up to pass
   * `maxScrolls`, and runs no pass at whose top the flag is set.
   */
  lemma ScrollKeeps(c: Crawl, stale: nat, k: nat, maxScrolls: int,
                    feed: nat -> seq<ParseOutcome>, intr: Interrupt)
    requires k >= 1 && Consistent(c)
    ensures var e := Scroll(c, stale, k, maxScrolls, feed, intr);
      && Consistent(e.crawl)
      && c.bookmarks <= e.crawl.bookmarks
      && k - 1 <= e.passes <= Max(k - 1, maxScrolls)
      && |e.gains| == e.passes - (k - 1)
      && forall p :: k <= p <= e.passes ==> !StopRequested(intr, p)
  {
    ScrollShape(c, stale, k, maxScrolls, feed, intr);
    ScrollConsistent(c, stale, k, maxScrolls, feed, intr);
  }

  /** The loop only appends, runs passes `k`.. up to `max_scrolls`, and none after the flag is set. */
  lemma {:induction false} ScrollShape(c: Crawl, stale: nat, k: nat, maxScrolls: int,
                                       feed: nat -> seq<ParseOutcome>, intr: Interrupt)
    requires k >= 1
    ensures var e := Scroll(c, stale, k, maxScrolls, feed, intr);
      && c.bookmarks <= e.crawl.bookmarks
      && k - 1 <= e.passes <= Max(k - 1, maxScrolls)
      && |e.gains| == e.passes - (k - 1)
      && forall p :: k <= p <= e.passes ==> !StopRequested(intr, p)
    decreases if k <= maxScrolls then maxScrolls + 1 - k else 0
  {
    if !(k > maxScrolls || StopRequested(intr, k)) {
      var next := OfferAll(c, feed(k));
      if |next.bookmarks| - |c.bookmarks| > 0 {
        ScrollShape(next, 0, k + 1, maxScrolls, feed, intr);
      } else if stale + 1 < StalePassLimit {
        ScrollShape(next, stale + 1, k + 1, maxScrolls, feed, intr);
      }
    }
  }

  /** The loop keeps `seen_ids` equal to the keys of `bookmarks`, which stay pairwise distinct. */
  lemma {:induction false} ScrollConsistent(c: Crawl, stale: nat, k: nat, maxScrolls: int,
                                            feed: nat -> seq<ParseOutcome>, intr: Interrupt)
    requires k >= 1 && Consistent(c)
    ensures Consistent(Scroll(c, stale, k, maxScrolls, feed, intr).crawl)
    decreases if k <= maxScrolls then maxScrolls + 1 - k else 0
  {
    if !(k > maxScrolls || StopRequested(intr, k)) {
      var next := OfferAll(c, feed(k));
      OfferAllKeeps(c, feed(k));
      if |next.bookmarks| - |c.bookmarks| > 0 {
        ScrollConsistent(next, 0, k + 1, maxScrolls, feed, intr);
      } else if stale + 1 < StalePassLimit {
        ScrollConsistent(next, stale + 1, k + 1, maxScrolls, feed, intr);
      }
    }
  }

  /**
   * An interrupt seen at the top of pass `p` ends the run exactly as a
   * `max_scrolls` of `p - 1` would: pass `p` parses nothing, and everything
   * gathered before it is kept.
   */
  lemma {:induction false} InterruptIsTruncation(c: Crawl, stale: nat, k: nat, maxScrolls: int,
                                                 feed: nat -> seq<ParseOutcome>, p: nat)
    requires 1 <= k <= p
    ensures Scroll(c, stale, k, maxScrolls, feed, InterruptBefore(p))
         == Scroll(c, stale, k, Min(maxScrolls, p - 1), feed, NoInterrupt)
    decreases if k <= maxScrolls then maxScrolls + 1 - k else 0
  {
    if !(k > maxScrolls || k >= p) {
      var next := OfferAll(c, feed(k));
      if |next.bookmarks| - |c.bookmarks| > 0 {
        InterruptIsTruncation(next, 0, k + 1, maxScrolls, feed, p);
      } else if stale + 1 < StalePassLimit {
        InterruptIsTruncation(next, stale + 1, k + 1, maxScrolls, feed, p);
      }
    }
  }

  /** Allowing more passes only adds bookmarks after the ones fewer passes collect. */
  lemma {:induction false} MorePassesExtend(c: Crawl, stale: nat, k: nat, m1: int, m2: int,
                                            feed: nat -> seq<ParseOutcome>, intr: Interrupt)
    requires k >= 1 && m1 <= m2 && Consistent(c)
    ensures Scroll(c, stale, k, m1, feed, intr).crawl.bookmarks
         <= Scroll(c, stale, k, m2, feed, intr).crawl.bookmarks
    decreases if k <= m1 then m1 + 1 - k else 0
  {
    if k > m1 || StopRequested(intr, k) {
      ScrollKeeps(c, stale, k, m2, feed, intr);
    } else {
      var next := OfferAll(c, feed(k));
      OfferAllKeeps(c, feed(k));
      if |next.bookmarks| - |c.bookmarks| > 0 {
        MorePassesExtend(next, 0, k + 1, m1, m2, feed, intr);
      } else if stale + 1 < StalePassLimit {
        MorePassesExtend(next, stale + 1, k + 1, m1, m2, feed, intr);
      }
    }
  }

  /** Ctrl+C never loses tweets: an interrupted run's bookmarks begin the uninterrupted run's. */
  lemma InterruptKeepsPrefix(maxScrolls: int, feed: nat -> seq<ParseOutcome>, p: nat)
    requires p >= 1
    ensures Scroll(Start, 0, 1, maxScrolls, feed, InterruptBefore(p)).crawl.bookmarks
         <= Scroll(Start, 0, 1, maxScrolls, feed, NoInterrupt).crawl.bookmarks
  {
    InterruptIsTruncation(Start, 0, 1, maxScrolls, feed, p);
    MorePassesExtend(Start, 0, 1, Min(maxScrolls, p - 1), maxScrolls, feed, NoInterrupt);
  }

  lemma {:induction false} QuietRun(c: Crawl, stale: nat, k: nat, m: nat, maxScrolls: int,
                                    feed: nat -> seq<ParseOutcome>, intr: Interrupt)
    requires k >= 1 && m >= 1 && stale + m >= StalePassLimit
    requires forall j :: k <= j < k + m ==> NothingNew(c, feed(j))
    ensures var e := Scroll(c, stale, k, maxScrolls, feed, intr);
      && e.crawl == c
      && e.passes < k + m
      && ((stale + m == StalePassLimit && maxScrolls >= k + m - 1 && !StopRequested(intr, k + m - 1))
            ==> e.passes == k + m - 1)
    decreases m
  {
    if !(k > maxScrolls || StopRequested(intr, k)) {
      NothingNewKeeps(c, feed(k));
      if stale + 1 < StalePassLimit {
        QuietRun(c, stale + 1, k + 1, m - 1, maxScrolls, feed, intr);
      }
    }
  }

  /**
   * If passes `k + 1` to `k + 5` show nothing new, no pass after `k + 5`
   * runs; and a run entering pass `k + 1` with `no_new_count` at 0, with
   * passes to spare and no interrupt, stops at exactly pass `k + 5`.
   */
  lemma ExhaustionStops(c: Crawl, stale: nat, k: nat, maxScrolls: int,
                        feed: nat -> seq<ParseOutcome>, intr: Interrupt)
    requires forall j :: k < j <= k + StalePassLimit ==> NothingNew(c, feed(j))
    ensures var e := Scroll(c, stale, k + 1, maxScrolls, feed, intr);
      && e.crawl == c
      && e.passes <= k + StalePassLimit
      && ((stale == 0 && maxScrolls >= k + StalePassLimit && !StopRequested(intr, k + StalePassLimit))
            ==> e.passes == k + StalePassLimit)
  {
    QuietRun(c, stale, k + 1, StalePassLimit, maxScrolls, feed, intr);
  }

  /** The last `n` entries of `h` are zero: the last `n` passes added nothing. */
  predicate QuietTail(h: seq<nat>, n: nat) {
    n <= |h| && forall i :: |h| - n <= i < |h| ==> h[i] == 0
  }

  /** `no_new_count` is the number of trailing passes of `h` that added nothing. */
  predicate StaleCount(h: seq<nat>, stale: nat) {
    QuietTail(h, stale) && (stale < |h| ==> h[|h| - 1 - stale] > 0)
  }

  /** What the loop's history says once it has stopped after `past` and the passes of `e`. */
  predicate StopFacts(past: seq<nat>, e: ScrollEnd, maxScrolls: int, intr: Interrupt) {
    var h := past + e.gains;
    && |h| == e.passes
    && (e.passes >= maxScrolls || StopRequested(intr, e.passes + 1) || QuietTail(h, StalePassLimit))
    && NeverQuiet(h, |h| - 1)
  }

  lemma StopFactsShift(past: seq<nat>, x: nat, rest: ScrollEnd, e: ScrollEnd, maxScrolls: int, intr: Interrupt)
    requires e == ScrollEnd(rest.crawl, rest.passes, [x] + rest.gains)
    requires StopFacts(past + [x], rest, maxScrolls, intr)
    ensures StopFacts(past, e, maxScrolls, intr)
  {
    assert past + e.gains == (past + [x]) + rest.gains;
  }

  lemma {:induction false} StopReasonFrom(c: Crawl, stale: nat, k: nat, maxScrolls: int,
                                          feed: nat -> seq<ParseOutcome>, intr: Interrupt, past: seq<nat>)
    requires k >= 1 && |past| == k - 1
    requires stale < StalePassLimit && StaleCount(past, stale)
    requires NeverQuiet(past, |past|)
    ensures StopFacts(past, Scroll(c, stale, k, maxScrolls, feed, intr), maxScrolls, intr)
    decreases if k <= maxScrolls then maxScrolls + 1 - k else 0
  {
    var e := Scroll(c, stale, k, maxScrolls, feed, intr);
    if k > maxScrolls || StopRequested(intr, k) {
      assert past + e.gains == past;
    } else {
      var next := OfferAll(c, feed(k));
      var gained := |next.bookmarks| - |c.bookmarks|;
      if gained > 0 {
        HistoryStep(past, stale, gained, 0);
        StopReasonFrom(next, 0, k + 1, maxScrolls, feed, intr, past + [gained]);
        StopFactsShift(past, gained, Scroll(next, 0, k + 1, maxScrolls, feed, intr), e, maxScrolls, intr);
      } else if stale + 1 >= StalePassLimit {
        var past' := past + [0];
        assert e == ScrollEnd(next, k, [0]);
        assert past + e.gains == past';
        assert QuietTail(past', StalePassLimit);
        NeverQuietPrefix(past, past');
      } else {
        HistoryStep(past, stale, 0, stale + 1);
        StopReasonFrom(next, stale + 1, k + 1, maxScrolls, feed, intr, past + [0]);
        StopFactsShift(past, 0, Scroll(next, stale + 1, k + 1, maxScrolls, feed, intr), e, maxScrolls, intr);
      }
    }
  }

  /** No window of five quiet passes ends at or before pass `n` of `h`. */
  predicate NeverQuiet(h: seq<nat>, n: int) {
    forall q :: StalePassLimit <= q <= n && q <= |h| ==> !QuietTail(h[..q], StalePassLimit)
  }

  lemma NeverQuietPrefix(past: seq<nat>, h: seq<nat>)
    requires past <= h && NeverQuiet(past, |past|)
    ensures NeverQuiet(h, |past|)
  {
    forall q | StalePassLimit <= q <= |past| ensures h[..q] == past[..q] {
    }
  }

  /** A pass that adds `gained` tweets moves `no_new_count` from `stale` to `stale'`, short of the limit. */
  lemma HistoryStep(past: seq<nat>, stale: nat, gained: nat, stale': nat)
    requires StaleCount(past, stale) && NeverQuiet(past, |past|)
    requires stale' == (if gained > 0 then 0 else stale + 1) && stale' < StalePassLimit
    ensures StaleCount(past + [gained], stale')
    ensures NeverQuiet(past + [gained], |past| + 1)
  {
    var h := past + [gained];
    NeverQuietPrefix(past, h);
    if gained == 0 && stale' < |h| {
      assert h[|h| - 1 - stale'] == past[|past| - 1 - stale];
    }
    assert h[..|h|] == h;
    if StalePassLimit <= |h| {
      assert h[|h| - 1 - stale'] > 0;
    }
  }

  function Sum(xs: seq<nat>): nat {
    if xs == [] then 0 else xs[0] + Sum(xs[1..])
  }

  /**
   * The gains the loop records are what it appends: the bookmarks grow by
   * exactly their sum, so a pass with gain 0 added no bookmark.
   */
  lemma {:induction false} GainsCount(c: Crawl, stale: nat, k: nat, maxScrolls: int,
                                      feed: nat -> seq<ParseOutcome>, intr: Interrupt)
    requires k >= 1
    ensures var e := Scroll(c, stale, k, maxScrolls, feed, intr);
      |e.crawl.bookmarks| == |c.bookmarks| + Sum(e.gains)
    decreases if k <= maxScrolls then maxScrolls + 1 - k else 0
  {
    if !(k > maxScrolls || StopRequested(intr, k)) {
      var next := OfferAll(c, feed(k));
      var gained := |next.bookmarks| - |c.bookmarks|;
      if gained > 0 {
        var e := Scroll(next, 0, k + 1, maxScrolls, feed, intr);
        GainsCount(next, 0, k + 1, maxScrolls, feed, intr);
        assert ([gained] + e.gains)[1..] == e.gains;
      } else if stale + 1 < StalePassLimit {
        var e := Scroll(next, stale + 1, k + 1, maxScrolls, feed, intr);
        GainsCount(next, stale + 1, k + 1, maxScrolls, feed, intr);
        assert ([0] + e.gains)[1..] == e.gains;
      } else {
        assert Sum([0]) == 0 + Sum([]);
      }
    }
  }

  /**
   * The loop stops after pass `n` only because the range is used up, the
   * flag is set, or passes `n - 4` to `n` added nothing; and it never ran on
   * past five passes in a row that added nothing.
   */
  lemma ScrollStopsOnlyWhen(maxScrolls: int, feed: nat -> seq<ParseOutcome>, intr: Interrupt)
    ensures var e := Scroll(Start, 0, 1, maxScrolls, feed, intr);
      && |e.gains| == e.passes
      && (e.passes >= maxScrolls || StopRequested(intr, e.passes + 1) || QuietTail(e.gains, StalePassLimit))
      && NeverQuiet(e.gains, e.passes - 1)
  {
    StopReasonFrom(Start, 0, 1, maxScrolls, feed, intr, []);
    assert [] + Scroll(Start, 0, 1, maxScrolls, feed, intr).gains == Scroll(Start, 0, 1, maxScrolls, feed, intr).gains;
  }

  // ---------------------------------------------------------------------
  // The Article phase and the whole call
  // ---------------------------------------------------------------------

  /** The one change the Article phase makes to a bookmark. */
  function WithArticle(t: Tweet, fetch: string -> string): Tweet {
    if t.articleUrl != "" then t.(articleText := fetch(t.articleUrl)) else t
  }

  /**
   * The Article phase: same length and order; an entry with an Article URL
   * gets the fetched text, and nothing else changes, the key included.
   */
  function FetchArticles(bs: seq<Tweet>, fetch: string -> string): (r: seq<Tweet>)
    ensures |r| == |bs|
    ensures forall i :: 0 <= i < |bs| ==>
      && r[i] == bs[i].(articleText := r[i].articleText)
      && r[i].articleText == (if bs[i].articleUrl != "" then fetch(bs[i].articleUrl) else bs[i].articleText)
      && DedupKey(r[i]) == DedupKey(bs[i])
  {
    seq(|bs|, i requires 0 <= i < |bs| => WithArticle(bs[i], fetch))
  }

  /** What `location.href` gives, and how `wait_for_selector` ends. */
  datatype WaitResult = Rendered | TimedOut(currentUrl: string) | BrowserFailed

  /** Which way the call ended; the source reports it only in its log. */
  datatype Status = Collected | SessionExpired | NoTweetsRendered | BrowserError

  datatype Outcome = Outcome(bookmarks: seq<Tweet>, status: Status)

  /** The Article phase runs when Articles are wanted and the flag was not set by the time the loop ended. */
  predicate ArticlePhaseRuns(noArticles: bool, intr: Interrupt, passes: nat) {
    !noArticles && !StopRequested(intr, passes + 1)
  }

  /** `collect_bookmarks` as a function of what the browser shows. */
  function Collect(landedUrl: string, wait: WaitResult, maxScrolls: int, noArticles: bool,
                   feed: nat -> seq<ParseOutcome>, intr: Interrupt, fetch: string -> string): Outcome
  {
    if IsLoginPage(landedUrl) then Outcome([], SessionExpired)
    else
      match wait
      case TimedOut(url) => Outcome([], if IsLoginPage(url) then SessionExpired else NoTweetsRendered)
      case BrowserFailed => Outcome([], BrowserError)
      case Rendered =>
        var e := Scroll(Start, 0, 1, maxScrolls, feed, intr);
        var bs := e.crawl.bookmarks;
        Outcome(if ArticlePhaseRuns(noArticles, intr, e.passes) then FetchArticles(bs, fetch) else bs, Collected)
  }

  /**
   * What a call returns: nothing unless the feed rendered; otherwise
   * bookmarks with pairwise distinct keys, which are the scroll loop's
   * result, entry for entry, except for Article text, filled in only when
   * the Article phase runs.
   */
  lemma CollectResult(landedUrl: string, wait: WaitResult, maxScrolls: int, noArticles: bool,
                      feed: nat -> seq<ParseOutcome>, intr: Interrupt, fetch: string -> string)
    ensures var out := Collect(landedUrl, wait, maxScrolls, noArticles, feed, intr, fetch);
      && (out.status != Collected ==> out.bookmarks == [])
      && (IsLoginPage(landedUrl) ==> out.status == SessionExpired)
      && (out.status == Collected <==> !IsLoginPage(landedUrl) && wait == Rendered)
      && DistinctKeys(out.bookmarks)
      && (out.status == Collected ==>
            var e := Scroll(Start, 0, 1, maxScrolls, feed, intr);
            && |out.bookmarks| == |e.crawl.bookmarks|
            && e.passes <= Max(0, maxScrolls)
            && forall i :: 0 <= i < |out.bookmarks| ==>
                 out.bookmarks[i] == e.crawl.bookmarks[i].(articleText := out.bookmarks[i].articleText)
                 && out.bookmarks[i].articleText ==
                      if ArticlePhaseRuns(noArticles, intr, e.passes) && e.crawl.bookmarks[i].articleUrl != ""
                      then fetch(e.crawl.bookmarks[i].articleUrl)
                      else e.crawl.bookmarks[i].articleText)
  {
    var e := Scroll(Start, 0, 1, maxScrolls, feed, intr);
    ScrollKeeps(Start, 0, 1, maxScrolls, feed, intr);
    var bs := e.crawl.bookmarks;
    var fetched := FetchArticles(bs, fetch);
    assert forall i, j :: 0 <= i < j < |bs| ==> DedupKey(fetched[i]) == DedupKey(bs[i]) && DedupKey(fetched[j]) == DedupKey(bs[j]);
  }

  /**
   * The inner loop of one pass: skip elements that fail to parse and keys
   * already seen, and append the rest; `newThisRound` counts the appends.
   */
  method ScanPass(bookmarks: seq<Tweet>, seenIds: set<string>, articles: seq<ParseOutcome>)
    returns (bookmarks': seq<Tweet>, seenIds': set<string>, newThisRound: nat)
    ensures Crawl(bookmarks', seenIds') == OfferAll(Crawl(bookmarks, seenIds), articles)
    ensures newThisRound == |bookmarks'| - |bookmarks|
  {
    bookmarks', seenIds', newThisRound := bookmarks, seenIds, 0;
    var i := 0;
    while i < |articles|
      invariant 0 <= i <= |articles|
      invariant Crawl(bookmarks', seenIds') == OfferAll(Crawl(bookmarks, seenIds), articles[..i])
      invariant newThisRound == |bookmarks'| - |bookmarks|
    {
      assert articles[..i + 1] == articles[..i] + [articles[i]];
      match articles[i] {
        case Unparseable =>
        case Parsed(tweet) =>
          var tid := DedupKey(tweet);
          if tid !in seenIds' {
            seenIds' := seenIds' + {tid};
            bookmarks' := bookmarks' + [tweet];
            newThisRound := newThisRound + 1;
          }
      }
      i := i + 1;
    }
    assert articles[..i] == articles;
  }

  /** The Article loop: each entry with an Article URL gets its text, in place. */
  method FillArticles(bookmarks: seq<Tweet>, fetch: string -> string) returns (filled: seq<Tweet>)
    ensures filled == FetchArticles(bookmarks, fetch)
  {
    filled := bookmarks;
    var i := 0;
    while i < |filled|
      invariant 0 <= i <= |filled| && |filled| == |bookmarks|
      invariant forall j :: 0 <= j < i ==> filled[j] == WithArticle(bookmarks[j], fetch)
      invariant forall j :: i <= j < |filled| ==> filled[j] == bookmarks[j]
    {
      if filled[i].articleUrl != "" {
        filled := filled[i := filled[i].(articleText := fetch(filled[i].articleUrl))];
      }
      i := i + 1;
    }
  }

  /** `collect_bookmarks`, with the browser replaced by what it shows. */
  method CollectBookmarks(landedUrl: string, wait: WaitResult, maxScrolls: int, noArticles: bool,
                          feed: nat -> seq<ParseOutcome>, intr: Interrupt, fetch: string -> string)
    returns (bookmarks: seq<Tweet>, status: Status)
    ensures Outcome(bookmarks, status) == Collect(landedUrl, wait, maxScrolls, noArticles, feed, intr, fetch)
  {
    bookmarks := [];
    var seenIds: set<string> := {};
    status := Collected;
    if IsLoginPage(landedUrl) {
      status := SessionExpired;
      return;
    }
    match wait {
      case TimedOut(url) =>
        status := if IsLoginPage(url) then SessionExpired else NoTweetsRendered;
        return;
      case BrowserFailed =>
        status := BrowserError;
        return;
      case Rendered =>
    }

    ghost var whole := Scroll(Start, 0, 1, maxScrolls, feed, intr);
    var noNewCount: nat := 0;
    var scrollIdx: nat := 1;
    var passes: nat := 0;
    while scrollIdx <= maxScrolls
      invariant scrollIdx >= 1 && passes == scrollIdx - 1
      invariant noNewCount < StalePassLimit
      invariant var e := Scroll(Crawl(bookmarks, seenIds), noNewCount, scrollIdx, maxScrolls, feed, intr);
        e.crawl == whole.crawl && e.passes == whole.passes
      decreases maxScrolls + 1 - scrollIdx
    {
      if StopRequested(intr, scrollIdx) {
        break;
      }
      var newThisRound;
      bookmarks, seenIds, newThisRound := ScanPass(bookmarks, seenIds, feed(scrollIdx));

      if newThisRound > 0 {
        noNewCount := 0;
      } else {
        noNewCount := noNewCount + 1;
        if noNewCount >= StalePassLimit {
          passes := scrollIdx;
          break;
        }
      }
      scrollIdx := scrollIdx + 1;
      passes := scrollIdx - 1;
    }
    assert Crawl(bookmarks, seenIds) == whole.crawl && passes == whole.passes;

    var stopScrolling := StopRequested(intr, passes + 1);
    if !noArticles && !stopScrolling {
      bookmarks := FillArticles(bookmarks, fetch);
    }
  }
}
