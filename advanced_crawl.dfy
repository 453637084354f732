/** The page loop of the advanced crawler: each page is loaded with
    retries, parsed, and the crawl goes on while pages yield records and
    show an enabled "next" control, up to the page limit. The browser is
    the scripted sequence of load outcomes; `cursor` counts the load
    attempts made so far. */
module AdvancedCrawl {
  import opened Wrappers
  import opened Seqs
  import opened Dom
  import opened Config
  import opened SearchUrl
  import opened AdvancedExtraction

  /** What `_crawl_page` leaves behind: the records it returns, the number
      of load attempts it made, and the outcome of its last attempt (the
      page the browser then shows). */
  datatype PageVisit = PageVisit(records: seq<Record>, attempts: nat, shown: Outcome)

  /** The page parser as a function value. */
  function AdvancedParser(flags: ExtractionFlags): seq<Container> -> seq<Record> {
    cs => ParsedAdvanced(cs, flags)
  }

  /** Attempt number `n` does not give a ready page. */
  predicate FailsAt(script: seq<Outcome>, n: nat) {
    !Ready(OutcomeAt(script, n))
  }

  /** `_crawl_page` from the state `retry_count == retryCount`, the next
      attempt being number `cursor`: a ready page is parsed and returned;
      a failure counts a retry and gives up with no records once the count
      reaches `maxRetries`. */
  function VisitPage(script: seq<Outcome>, cursor: nat, retryCount: int, maxRetries: int,
                     parse: seq<Container> -> seq<Record>): PageVisit
    decreases maxRetries - retryCount
  {
    if retryCount >= maxRetries then PageVisit([], 0, LoadFailed)
    else
      var o := OutcomeAt(script, cursor);
      if Ready(o) then PageVisit(parse(o.containers), 1, o)
      else if retryCount + 1 >= maxRetries then PageVisit([], 1, o)
      else
        var rest := VisitPage(script, cursor + 1, retryCount + 1, maxRetries, parse);
        PageVisit(rest.records, rest.attempts + 1, rest.shown)
  }

  /** A page visit makes at most `maxRetries - retryCount` attempts, and at
      least one when any retry is left. */
  lemma {:induction false} VisitAttempts(script: seq<Outcome>, cursor: nat, retryCount: int, maxRetries: int,
                                         parse: seq<Container> -> seq<Record>)
    ensures var v := VisitPage(script, cursor, retryCount, maxRetries, parse);
            && (retryCount < maxRetries ==> 1 <= v.attempts <= maxRetries - retryCount)
            && (retryCount >= maxRetries ==> v.attempts == 0 && v.records == [])
    decreases maxRetries - retryCount
  {
    if retryCount < maxRetries && FailsAt(script, cursor) && retryCount + 1 < maxRetries {
      VisitAttempts(script, cursor + 1, retryCount + 1, maxRetries, parse);
    }
  }

  /** The records of a visit are those of the ready pages among its attempts. */
  lemma {:induction false} VisitHarvest(script: seq<Outcome>, cursor: nat, retryCount: int, maxRetries: int,
                                        parse: seq<Container> -> seq<Record>)
    ensures var v := VisitPage(script, cursor, retryCount, maxRetries, parse);
            v.records == Harvest(script, cursor, v.attempts, parse)
    decreases maxRetries - retryCount
  {
    if retryCount < maxRetries && FailsAt(script, cursor) && retryCount + 1 < maxRetries {
      var rest := VisitPage(script, cursor + 1, retryCount + 1, maxRetries, parse);
      VisitHarvest(script, cursor + 1, retryCount + 1, maxRetries, parse);
      HarvestSplit(script, cursor, 1, rest.attempts, parse);
    }
  }

  /** Every attempt of a visit but the last one failed. */
  lemma {:induction false} VisitRetriesFailed(script: seq<Outcome>, cursor: nat, retryCount: int, maxRetries: int,
                                              parse: seq<Container> -> seq<Record>)
    ensures var v := VisitPage(script, cursor, retryCount, maxRetries, parse);
            forall n :: cursor <= n < cursor + v.attempts - 1 ==> FailsAt(script, n)
    decreases maxRetries - retryCount
  {
    if retryCount < maxRetries && FailsAt(script, cursor) && retryCount + 1 < maxRetries {
      VisitRetriesFailed(script, cursor + 1, retryCount + 1, maxRetries, parse);
    }
  }

  /** A visit that returns records ended on the ready page it parsed, which
      the browser then shows. */
  lemma {:induction false} VisitEndsReady(script: seq<Outcome>, cursor: nat, retryCount: int, maxRetries: int,
                                          parse: seq<Container> -> seq<Record>)
    ensures var v := VisitPage(script, cursor, retryCount, maxRetries, parse);
            v.records != [] ==>
              && v.attempts >= 1
              && v.shown == OutcomeAt(script, cursor + v.attempts - 1)
              && Ready(v.shown)
              && v.records == parse(v.shown.containers)
    decreases maxRetries - retryCount
  {
    if retryCount < maxRetries && FailsAt(script, cursor) && retryCount + 1 < maxRetries {
      VisitEndsReady(script, cursor + 1, retryCount + 1, maxRetries, parse);
    }
  }

  /** Failing every remaining attempt uses up every remaining retry. */
  lemma {:induction false} FailuresExhaustRetries(script: seq<Outcome>, cursor: nat, retryCount: int, maxRetries: int,
                                                  parse: seq<Container> -> seq<Record>)
    requires retryCount < maxRetries
    requires forall n :: cursor <= n < cursor + (maxRetries - retryCount) ==> FailsAt(script, n)
    ensures VisitPage(script, cursor, retryCount, maxRetries, parse).records == []
    ensures VisitPage(script, cursor, retryCount, maxRetries, parse).attempts == maxRetries - retryCount
    decreases maxRetries - retryCount
  {
    assert FailsAt(script, cursor);
    if retryCount + 1 < maxRetries {
      FailuresExhaustRetries(script, cursor + 1, retryCount + 1, maxRetries, parse);
    }
  }

  /** The invariant of the retry loop: after `retryCount` failed attempts,
      the visit from there on, with those attempts added, is the whole visit. */
  ghost predicate Retrying(whole: PageVisit, script: seq<Outcome>, cursor: nat, retryCount: nat, maxRetries: int,
                           parse: seq<Container> -> seq<Record>)
  {
    var v := VisitPage(script, cursor + retryCount, retryCount, maxRetries, parse);
    whole == PageVisit(v.records, v.attempts + retryCount, v.shown)
  }

  /** The retry-loop invariant carried over one attempt. */
  lemma RetryStep(whole: PageVisit, script: seq<Outcome>, cursor: nat, retryCount: nat, maxRetries: int,
                  parse: seq<Container> -> seq<Record>)
    requires retryCount < maxRetries
    requires Retrying(whole, script, cursor, retryCount, maxRetries, parse)
    ensures var o := OutcomeAt(script, cursor + retryCount);
            && (Ready(o) ==> whole == PageVisit(parse(o.containers), retryCount + 1, o))
            && (!Ready(o) && retryCount + 1 >= maxRetries ==> whole == PageVisit([], retryCount + 1, o))
            && (!Ready(o) && retryCount + 1 < maxRetries ==>
                  Retrying(whole, script, cursor, retryCount + 1, maxRetries, parse))
  {
  }

  /** `_crawl_page(url, page)` against the browser: `driver.get` and the wait
      are the next outcome of the script. Returns what `VisitPage` says. */
  method CrawlPage(script: seq<Outcome>, cursor: nat, maxRetries: int, flags: ExtractionFlags)
    returns (records: seq<Record>, attempts: nat, shown: Outcome)
    ensures PageVisit(records, attempts, shown) == VisitPage(script, cursor, 0, maxRetries, AdvancedParser(flags))
  {
    ghost var parse := AdvancedParser(flags);
    ghost var whole := VisitPage(script, cursor, 0, maxRetries, parse);
    var retryCount: nat := 0;
    if maxRetries <= 0 {
      return [], 0, LoadFailed;
    }
    while retryCount < maxRetries
      invariant retryCount < maxRetries
      invariant Retrying(whole, script, cursor, retryCount, maxRetries, parse)
      decreases maxRetries - retryCount
    {
      RetryStep(whole, script, cursor, retryCount, maxRetries, parse);
      var o := OutcomeAt(script, cursor + retryCount);
      if Ready(o) {
        records := ParseProductsAdvanced(o.containers, flags);
        assert records == parse(o.containers);
        attempts := retryCount + 1;
        shown := o;
        return;
      }
      retryCount := retryCount + 1;
      if retryCount >= maxRetries {
        records, attempts, shown := [], retryCount, o;
        return;
      }
    }
    // The loop is left only through its two `return`s: the invariant
    // `retryCount < maxRetries` contradicts the exit condition.
    assert false;
  }

  /** The page loop of `search_products_advanced` from page `page` on, the
      next attempt being number `cursor`: a visit that yields no record
      ends the crawl, and so does a page without an enabled "next" control
      or the page limit `lastPage`. */
  function CrawlFrom(script: seq<Outcome>, cursor: nat, page: nat, lastPage: int, maxRetries: int,
                     parse: seq<Container> -> seq<Record>): Trace
    decreases lastPage - page
  {
    if page > lastPage then Trace([], [])
    else
      var v := VisitPage(script, cursor, 0, maxRetries, parse);
      var here := Repeat(page, v.attempts);
      if v.records == [] then Trace([], here)
      else if !HasNextPage(v.shown) then Trace(v.records, here)
      else
        var rest := CrawlFrom(script, cursor + v.attempts, page + 1, lastPage, maxRetries, parse);
        Trace(v.records + rest.products, here + rest.pages)
  }

  /** The crawl goes on from a page when its visit yields records and it
      has an enabled "next" control. */
  predicate GoesOn(v: PageVisit) {
    v.records != [] && HasNextPage(v.shown)
  }

  /** A page that goes on: its records and attempts, then the rest of the crawl. */
  lemma CrawlGoesOn(script: seq<Outcome>, cursor: nat, page: nat, lastPage: int, maxRetries: int,
                    parse: seq<Container> -> seq<Record>)
    requires page <= lastPage && GoesOn(VisitPage(script, cursor, 0, maxRetries, parse))
    ensures var v := VisitPage(script, cursor, 0, maxRetries, parse);
            var rest := CrawlFrom(script, cursor + v.attempts, page + 1, lastPage, maxRetries, parse);
            CrawlFrom(script, cursor, page, lastPage, maxRetries, parse)
              == Trace(v.records + rest.products, Repeat(page, v.attempts) + rest.pages)
  {
  }

  /** A page that does not go on ends the crawl with its own records and attempts. */
  lemma CrawlStops(script: seq<Outcome>, cursor: nat, page: nat, lastPage: int, maxRetries: int,
                   parse: seq<Container> -> seq<Record>)
    requires page <= lastPage && !GoesOn(VisitPage(script, cursor, 0, maxRetries, parse))
    ensures var v := VisitPage(script, cursor, 0, maxRetries, parse);
            CrawlFrom(script, cursor, page, lastPage, maxRetries, parse) == Trace(v.records, Repeat(page, v.attempts))
  {
  }

  /** The invariant of the page loop: the records and attempts gathered
      so far, followed by the rest of the crawl from the current page, make
      up the whole crawl. */
  ghost predicate Gathered(whole: Trace, products: seq<Record>, pages: seq<nat>, script: seq<Outcome>,
                           cursor: nat, page: nat, lastPage: int, maxRetries: int,
                           parse: seq<Container> -> seq<Record>)
  {
    var rest := CrawlFrom(script, cursor, page, lastPage, maxRetries, parse);
    whole == Trace(products + rest.products, pages + rest.pages)
  }

  /** The loop invariant carried over one page: after the page's visit the
      crawl either ends with what has been gathered or goes on at the next
      page. */
  lemma LoopStep(script: seq<Outcome>, cursor: nat, page: nat, lastPage: int, maxRetries: int,
                 parse: seq<Container> -> seq<Record>, whole: Trace,
                 products: seq<Record>, pages: seq<nat>,
                 records: seq<Record>, attempts: nat, shown: Outcome)
    requires page <= lastPage
    requires PageVisit(records, attempts, shown) == VisitPage(script, cursor, 0, maxRetries, parse)
    requires Gathered(whole, products, pages, script, cursor, page, lastPage, maxRetries, parse)
    ensures records == [] ==> whole == Trace(products, pages + Repeat(page, attempts))
    ensures records != [] && !HasNextPage(shown) ==> whole == Trace(products + records, pages + Repeat(page, attempts))
    ensures records != [] && HasNextPage(shown) ==>
              Gathered(whole, products + records, pages + Repeat(page, attempts), script,
                       cursor + attempts, page + 1, lastPage, maxRetries, parse)
  {
    var v := PageVisit(records, attempts, shown);
    if GoesOn(v) {
      var here := Repeat(page, attempts);
      CrawlGoesOn(script, cursor, page, lastPage, maxRetries, parse);
      var next := CrawlFrom(script, cursor + attempts, page + 1, lastPage, maxRetries, parse);
      assert products + (records + next.products) == (products + records) + next.products;
      assert pages + (here + next.pages) == (pages + here) + next.pages;
    } else {
      CrawlStops(script, cursor, page, lastPage, maxRetries, parse);
    }
  }

  /** Past the page limit nothing is left to gather. */
  lemma LoopDone(script: seq<Outcome>, cursor: nat, page: nat, lastPage: int, maxRetries: int,
                 parse: seq<Container> -> seq<Record>, whole: Trace,
                 products: seq<Record>, pages: seq<nat>)
    requires page > lastPage
    requires Gathered(whole, products, pages, script, cursor, page, lastPage, maxRetries, parse)
    ensures whole == Trace(products, pages)
  {
    assert products + [] == products && pages + [] == pages;
  }

  /** `max_pages or default_max_pages`: None and 0 both mean the default. */
  function EffectiveMaxPages(maxPages: Option<int>, cfg: CrawlerConfig): (r: int)
    ensures maxPages.Some? && maxPages.value != 0 ==> r == maxPages.value
    ensures maxPages.None? || maxPages.value == 0 ==> r == cfg.defaultMaxPages
  {
    match maxPages
    case Some(n) => if n != 0 then n else cfg.defaultMaxPages
    case None => cfg.defaultMaxPages
  }

  /** The whole crawl of `search_products_advanced`. */
  function Crawl(script: seq<Outcome>, maxPages: Option<int>, cfg: CrawlerConfig): Trace {
    CrawlFrom(script, 0, 1, EffectiveMaxPages(maxPages, cfg), cfg.maxRetries, AdvancedParser(cfg.extraction))
  }

  /** One page keeps the attempts within the page range, given that the
      rest of the crawl does. */
  lemma PageWithin(script: seq<Outcome>, cursor: nat, page: nat, lastPage: int, maxRetries: int,
                   parse: seq<Container> -> seq<Record>)
    requires page <= lastPage
    requires var v := VisitPage(script, cursor, 0, maxRetries, parse);
             GoesOn(v) ==> Within(CrawlFrom(script, cursor + v.attempts, page + 1, lastPage, maxRetries, parse).pages, page, lastPage)
    ensures Within(CrawlFrom(script, cursor, page, lastPage, maxRetries, parse).pages, page, lastPage)
  {
    var v := VisitPage(script, cursor, 0, maxRetries, parse);
    if GoesOn(v) {
      CrawlGoesOn(script, cursor, page, lastPage, maxRetries, parse);
      var rest := CrawlFrom(script, cursor + v.attempts, page + 1, lastPage, maxRetries, parse);
      WithinRepeatAppend(page, v.attempts, rest.pages, page, lastPage);
    } else {
      CrawlStops(script, cursor, page, lastPage, maxRetries, parse);
      WithinRepeatAppend(page, v.attempts, [], page, lastPage);
      assert Repeat(page, v.attempts) + [] == Repeat(page, v.attempts);
    }
  }

  /** Every attempt is for a page between `page` and `lastPage`. */
  lemma {:induction false} CrawlPagesWithin(script: seq<Outcome>, cursor: nat, page: nat, lastPage: int, maxRetries: int,
                                            parse: seq<Container> -> seq<Record>)
    ensures Within(CrawlFrom(script, cursor, page, lastPage, maxRetries, parse).pages, page, lastPage)
    decreases lastPage - page
  {
    if page <= lastPage {
      var v := VisitPage(script, cursor, 0, maxRetries, parse);
      if GoesOn(v) {
        var rest := CrawlFrom(script, cursor + v.attempts, page + 1, lastPage, maxRetries, parse);
        CrawlPagesWithin(script, cursor + v.attempts, page + 1, lastPage, maxRetries, parse);
        assert Within(rest.pages, page, lastPage);
      }
      PageWithin(script, cursor, page, lastPage, maxRetries, parse);
    }
  }

  /** The first attempt of a crawl from `page` is for `page`. */
  lemma CrawlStartsAt(script: seq<Outcome>, cursor: nat, page: nat, lastPage: int, maxRetries: int,
                      parse: seq<Container> -> seq<Record>)
    ensures var pages := CrawlFrom(script, cursor, page, lastPage, maxRetries, parse).pages;
            |pages| > 0 ==> pages[0] == page
  {
    if page <= lastPage {
      var v := VisitPage(script, cursor, 0, maxRetries, parse);
      VisitAttempts(script, cursor, 0, maxRetries, parse);
      if GoesOn(v) {
        CrawlGoesOn(script, cursor, page, lastPage, maxRetries, parse);
      } else {
        CrawlStops(script, cursor, page, lastPage, maxRetries, parse);
      }
    }
  }

  /** One page keeps the attempts consecutive, given that the rest of the
      crawl is. */
  lemma PageConsecutive(script: seq<Outcome>, cursor: nat, page: nat, lastPage: int, maxRetries: int,
                        parse: seq<Container> -> seq<Record>)
    requires page <= lastPage
    requires var v := VisitPage(script, cursor, 0, maxRetries, parse);
             GoesOn(v) ==> Consecutive(CrawlFrom(script, cursor + v.attempts, page + 1, lastPage, maxRetries, parse).pages)
    ensures Consecutive(CrawlFrom(script, cursor, page, lastPage, maxRetries, parse).pages)
  {
    var v := VisitPage(script, cursor, 0, maxRetries, parse);
    VisitAttempts(script, cursor, 0, maxRetries, parse);
    if GoesOn(v) {
      CrawlGoesOn(script, cursor, page, lastPage, maxRetries, parse);
      var rest := CrawlFrom(script, cursor + v.attempts, page + 1, lastPage, maxRetries, parse);
      CrawlStartsAt(script, cursor + v.attempts, page + 1, lastPage, maxRetries, parse);
      ConsecutiveRepeatAppend(page, v.attempts, rest.pages);
    } else {
      CrawlStops(script, cursor, page, lastPage, maxRetries, parse);
      if v.attempts > 0 {
        ConsecutiveRepeatAppend(page, v.attempts, []);
        assert Repeat(page, v.attempts) + [] == Repeat(page, v.attempts);
      }
    }
  }

  /** Each attempt is for the same page as the one before it or the next
      one: pages are never skipped or revisited. */
  lemma {:induction false} CrawlPagesConsecutive(script: seq<Outcome>, cursor: nat, page: nat, lastPage: int, maxRetries: int,
                                                 parse: seq<Container> -> seq<Record>)
    ensures Consecutive(CrawlFrom(script, cursor, page, lastPage, maxRetries, parse).pages)
    decreases lastPage - page
  {
    if page <= lastPage {
      var v := VisitPage(script, cursor, 0, maxRetries, parse);
      if GoesOn(v) {
        CrawlPagesConsecutive(script, cursor + v.attempts, page + 1, lastPage, maxRetries, parse);
      }
      PageConsecutive(script, cursor, page, lastPage, maxRetries, parse);
    }
  }

  /** In all, the crawl makes at most `maxRetries` times as many attempts
      as there are pages from `page` to `lastPage` (the bound for each single
      page is `CrawlAttemptsPerPage`). */
  lemma {:induction false} CrawlAttemptsBound(script: seq<Outcome>, cursor: nat, page: nat, lastPage: int, maxRetries: int,
                                              parse: seq<Container> -> seq<Record>)
    ensures var pages := CrawlFrom(script, cursor, page, lastPage, maxRetries, parse).pages;
            |pages| <= if page <= lastPage && maxRetries > 0 then (lastPage - page + 1) * maxRetries else 0
    decreases lastPage - page
  {
    if page <= lastPage {
      var v := VisitPage(script, cursor, 0, maxRetries, parse);
      VisitAttempts(script, cursor, 0, maxRetries, parse);
      if !GoesOn(v) {
        CrawlStops(script, cursor, page, lastPage, maxRetries, parse);
      } else {
        CrawlGoesOn(script, cursor, page, lastPage, maxRetries, parse);
        var rest := CrawlFrom(script, cursor + v.attempts, page + 1, lastPage, maxRetries, parse);
        CrawlAttemptsBound(script, cursor + v.attempts, page + 1, lastPage, maxRetries, parse);
        assert |CrawlFrom(script, cursor, page, lastPage, maxRetries, parse).pages| == v.attempts + |rest.pages|;
        assert (lastPage - page + 1) * maxRetries == (lastPage - page) * maxRetries + maxRetries;
      }
    }
  }

  /** A crawl from a page in range: that page's attempts, at most
      `maxRetries` of them, then the rest of the crawl, which does not
      come back to that page. */
  lemma CrawlSplit(script: seq<Outcome>, cursor: nat, page: nat, lastPage: int, maxRetries: int,
                   parse: seq<Container> -> seq<Record>)
    requires page <= lastPage
    ensures var v := VisitPage(script, cursor, 0, maxRetries, parse);
            var rest := if GoesOn(v) then CrawlFrom(script, cursor + v.attempts, page + 1, lastPage, maxRetries, parse).pages else [];
            && v.attempts <= (if maxRetries > 0 then maxRetries else 0)
            && page !in rest
            && CrawlFrom(script, cursor, page, lastPage, maxRetries, parse).pages == Repeat(page, v.attempts) + rest
  {
    var v := VisitPage(script, cursor, 0, maxRetries, parse);
    VisitAttempts(script, cursor, 0, maxRetries, parse);
    if GoesOn(v) {
      CrawlPagesWithin(script, cursor + v.attempts, page + 1, lastPage, maxRetries, parse);
    } else {
      assert Repeat(page, v.attempts) + [] == Repeat(page, v.attempts);
    }
  }

  /** A page's visit, followed by attempts for other pages among which `p`
      occurs at most `maxRetries` times, holds `p` at most `maxRetries`
      times. */
  lemma VisitCount(script: seq<Outcome>, cursor: nat, page: nat, maxRetries: int,
                   parse: seq<Container> -> seq<Record>, rest: seq<nat>, p: nat)
    requires page !in rest && Count(rest, p) <= if maxRetries > 0 then maxRetries else 0
    ensures Count(Repeat(page, VisitPage(script, cursor, 0, maxRetries, parse).attempts) + rest, p)
              <= if maxRetries > 0 then maxRetries else 0
  {
    VisitAttempts(script, cursor, 0, maxRetries, parse);
    RepeatAppendCount(page, VisitPage(script, cursor, 0, maxRetries, parse).attempts, rest,
                      if maxRetries > 0 then maxRetries else 0, p);
  }

  /** The crawl makes at most `maxRetries` attempts for any one page `p`,
      and none when `maxRetries` is not positive. */
  lemma {:induction false} CrawlAttemptsPerPage(script: seq<Outcome>, cursor: nat, page: nat, lastPage: int, maxRetries: int,
                                                parse: seq<Container> -> seq<Record>, p: nat)
    ensures var pages := CrawlFrom(script, cursor, page, lastPage, maxRetries, parse).pages;
            Count(pages, p) <= if maxRetries > 0 then maxRetries else 0
    decreases lastPage - page
  {
    if page <= lastPage {
      var v := VisitPage(script, cursor, 0, maxRetries, parse);
      var rest: seq<nat> := [];
      CrawlSplit(script, cursor, page, lastPage, maxRetries, parse);
      if GoesOn(v) {
        rest := CrawlFrom(script, cursor + v.attempts, page + 1, lastPage, maxRetries, parse).pages;
        CrawlAttemptsPerPage(script, cursor + v.attempts, page + 1, lastPage, maxRetries, parse, p);
      }
      VisitCount(script, cursor, page, maxRetries, parse, rest, p);
    }
  }

  /** Attempt `n` gave a ready page that yields records and shows an
      enabled "next" control. */
  predicate AdvancesAt(script: seq<Outcome>, n: nat, parse: seq<Container> -> seq<Record>) {
    var o := OutcomeAt(script, n);
    Ready(o) && parse(o.containers) != [] && HasNextPage(o)
  }

  /** The attempts `pages`, numbered from `cursor`, each explained by the
      stop rule up to the last one: an attempt followed by one for the same
      page failed, and an attempt followed by one for another page advanced. */
  ghost predicate Explained(pages: seq<nat>, script: seq<Outcome>, cursor: nat, parse: seq<Container> -> seq<Record>)
    decreases |pages|
  {
    || |pages| <= 1
    || (&& (pages[1] == pages[0] ==> FailsAt(script, cursor))
        && (pages[1] != pages[0] ==> AdvancesAt(script, cursor, parse))
        && Explained(pages[1..], script, cursor + 1, parse))
  }

  /** `Explained` attempt by attempt: attempt `k` followed by one for the
      same page failed, and attempt `k` followed by one for another page
      advanced. */
  lemma {:induction false} ExplainedAt(pages: seq<nat>, script: seq<Outcome>, cursor: nat,
                                       parse: seq<Container> -> seq<Record>, k: nat)
    requires Explained(pages, script, cursor, parse) && k + 1 < |pages|
    ensures pages[k + 1] == pages[k] ==> FailsAt(script, cursor + k)
    ensures pages[k + 1] != pages[k] ==> AdvancesAt(script, cursor + k, parse)
    decreases k
  {
    if k > 0 {
      ExplainedAt(pages[1..], script, cursor + 1, parse, k - 1);
      assert pages[1..][k - 1] == pages[k] && pages[1..][k] == pages[k + 1];
    }
  }

  /** A visit of `a` attempts for `page` whose retries failed, followed by
      explained attempts that start at the next page after an advance, is
      explained. */
  lemma {:induction false} ExplainedAppend(script: seq<Outcome>, cursor: nat, page: nat, a: nat, rest: seq<nat>,
                                           parse: seq<Container> -> seq<Record>)
    requires a >= 1
    requires forall n :: cursor <= n < cursor + a - 1 ==> FailsAt(script, n)
    requires rest != [] ==> rest[0] == page + 1 && AdvancesAt(script, cursor + a - 1, parse)
    requires Explained(rest, script, cursor + a, parse)
    ensures Explained(Repeat(page, a) + rest, script, cursor, parse)
    decreases a
  {
    var pages := Repeat(page, a) + rest;
    if a == 1 {
      assert pages[1..] == rest;
    } else {
      ExplainedAppend(script, cursor + 1, page, a - 1, rest, parse);
      assert pages[1..] == Repeat(page, a - 1) + rest;
      assert pages[0] == page && pages[1] == page;
    }
  }

  /** A page's visit, followed by the attempts `rest` that come after it,
      is explained when `rest` is: its retries failed, and when the crawl
      goes on its last attempt advanced to the first page of `rest`. */
  lemma VisitExplained(script: seq<Outcome>, cursor: nat, page: nat, maxRetries: int,
                       parse: seq<Container> -> seq<Record>, rest: seq<nat>)
    requires var v := VisitPage(script, cursor, 0, maxRetries, parse);
             && (GoesOn(v) ==> Explained(rest, script, cursor + v.attempts, parse) && (rest != [] ==> rest[0] == page + 1))
             && (!GoesOn(v) ==> rest == [])
    ensures Explained(Repeat(page, VisitPage(script, cursor, 0, maxRetries, parse).attempts) + rest, script, cursor, parse)
  {
    var v := VisitPage(script, cursor, 0, maxRetries, parse);
    var a := v.attempts;
    if a > 0 {
      VisitRetriesFailed(script, cursor, 0, maxRetries, parse);
      VisitEndsReady(script, cursor, 0, maxRetries, parse);
      ExplainedAppend(script, cursor, page, a, rest, parse);
    } else {
      assert Repeat(page, a) + rest == [];
    }
  }

  /** The whole crawl is explained by the stop rule: every attempt but the
      last either failed and was retried for the same page, or gave a ready
      page with records and an enabled "next" control and was followed by
      the next page. So the crawl ends only at a page whose retries ran out,
      that yields no record, that has no "next", or at the page limit. */
  lemma {:induction false} CrawlStopsOnlyAtEnd(script: seq<Outcome>, cursor: nat, page: nat, lastPage: int, maxRetries: int,
                                               parse: seq<Container> -> seq<Record>)
    ensures Explained(CrawlFrom(script, cursor, page, lastPage, maxRetries, parse).pages, script, cursor, parse)
    decreases lastPage - page
  {
    if page <= lastPage {
      var v := VisitPage(script, cursor, 0, maxRetries, parse);
      var rest: seq<nat> := [];
      CrawlSplit(script, cursor, page, lastPage, maxRetries, parse);
      if GoesOn(v) {
        rest := CrawlFrom(script, cursor + v.attempts, page + 1, lastPage, maxRetries, parse).pages;
        CrawlStopsOnlyAtEnd(script, cursor + v.attempts, page + 1, lastPage, maxRetries, parse);
        CrawlStartsAt(script, cursor + v.attempts, page + 1, lastPage, maxRetries, parse);
      }
      VisitExplained(script, cursor, page, maxRetries, parse, rest);
    }
  }

  /** The stop rule at attempt `k` of the crawl: followed by an attempt for
      the same page, it failed; followed by one for another page, it gave a
      ready page with records and an enabled "next" control. */
  lemma CrawlStepAt(script: seq<Outcome>, cursor: nat, page: nat, lastPage: int, maxRetries: int,
                    parse: seq<Container> -> seq<Record>, k: nat)
    requires k + 1 < |CrawlFrom(script, cursor, page, lastPage, maxRetries, parse).pages|
    ensures var pages := CrawlFrom(script, cursor, page, lastPage, maxRetries, parse).pages;
            && (pages[k + 1] == pages[k] ==> FailsAt(script, cursor + k))
            && (pages[k + 1] != pages[k] ==> AdvancesAt(script, cursor + k, parse))
  {
    CrawlStopsOnlyAtEnd(script, cursor, page, lastPage, maxRetries, parse);
    ExplainedAt(CrawlFrom(script, cursor, page, lastPage, maxRetries, parse).pages, script, cursor, parse, k);
  }

  /** The crawl's records are exactly those of the ready pages among the
      attempts it made, in order: nothing is parsed twice or skipped. */
  lemma {:induction false} CrawlHarvest(script: seq<Outcome>, cursor: nat, page: nat, lastPage: int, maxRetries: int,
                                        parse: seq<Container> -> seq<Record>)
    ensures var t := CrawlFrom(script, cursor, page, lastPage, maxRetries, parse);
            t.products == Harvest(script, cursor, |t.pages|, parse)
    decreases lastPage - page
  {
    if page <= lastPage {
      var v := VisitPage(script, cursor, 0, maxRetries, parse);
      VisitHarvest(script, cursor, 0, maxRetries, parse);
      if v.records != [] && HasNextPage(v.shown) {
        var rest := CrawlFrom(script, cursor + v.attempts, page + 1, lastPage, maxRetries, parse);
        CrawlHarvest(script, cursor + v.attempts, page + 1, lastPage, maxRetries, parse);
        HarvestSplit(script, cursor, v.attempts, |rest.pages|, parse);
      }
    }
  }

  /** Each record of the crawl has the columns the extraction flags select. */
  lemma CrawlRecordKeys(script: seq<Outcome>, maxPages: Option<int>, cfg: CrawlerConfig)
    ensures var t := Crawl(script, maxPages, cfg);
            forall i :: 0 <= i < |t.products| ==> t.products[i].Keys == AdvancedKeys(cfg.extraction)
  {
    var t := Crawl(script, maxPages, cfg);
    CrawlHarvest(script, 0, 1, EffectiveMaxPages(maxPages, cfg), cfg.maxRetries, AdvancedParser(cfg.extraction));
    var parse := AdvancedParser(cfg.extraction);
    var keyed := (r: Record) => r.Keys == AdvancedKeys(cfg.extraction);
    forall cs: seq<Container>, i | 0 <= i < |parse(cs)| ensures keyed(parse(cs)[i]) {
      assert parse(cs) == ParsedAdvanced(cs, cfg.extraction);
    }
    HarvestAll(script, 0, |t.pages|, parse, keyed);
  }

  /** Without any retry allowed the crawl loads nothing and finds nothing. */
  lemma NoRetriesNoCrawl(script: seq<Outcome>, maxPages: Option<int>, cfg: CrawlerConfig)
    requires cfg.maxRetries <= 0
    ensures Crawl(script, maxPages, cfg) == Trace([], [])
  {
    VisitAttempts(script, 0, 0, cfg.maxRetries, AdvancedParser(cfg.extraction));
  }

  /** A first page that never becomes ready is tried `maxRetries` times,
      then the crawl ends with no records. */
  lemma FirstPageTimesOut(script: seq<Outcome>, maxPages: Option<int>, cfg: CrawlerConfig)
    requires EffectiveMaxPages(maxPages, cfg) >= 1 && cfg.maxRetries >= 1
    requires forall n :: 0 <= n < cfg.maxRetries ==> FailsAt(script, n)
    ensures Crawl(script, maxPages, cfg) == Trace([], Repeat(1, cfg.maxRetries))
  {
    FailuresExhaustRetries(script, 0, 0, cfg.maxRetries, AdvancedParser(cfg.extraction));
  }

  /** A visit whose first attempt gives a ready page parses that page. */
  lemma ReadyVisit(script: seq<Outcome>, cursor: nat, maxRetries: int, parse: seq<Container> -> seq<Record>)
    requires maxRetries >= 1 && Ready(OutcomeAt(script, cursor))
    ensures var o := OutcomeAt(script, cursor);
            VisitPage(script, cursor, 0, maxRetries, parse) == PageVisit(parse(o.containers), 1, o)
  {
  }

  /** A page that is ready at the first attempt and yields records: the
      crawl goes on to the next page exactly when it has a "next" control. */
  lemma ReadyPage(script: seq<Outcome>, cursor: nat, page: nat, lastPage: int, maxRetries: int,
                  parse: seq<Container> -> seq<Record>)
    requires page <= lastPage && maxRetries >= 1
    requires Ready(OutcomeAt(script, cursor)) && parse(OutcomeAt(script, cursor).containers) != []
    ensures var o := OutcomeAt(script, cursor);
            var t := CrawlFrom(script, cursor, page, lastPage, maxRetries, parse);
            var rest := CrawlFrom(script, cursor + 1, page + 1, lastPage, maxRetries, parse);
            t == if o.hasNext then Trace(parse(o.containers) + rest.products, [page] + rest.pages)
                 else Trace(parse(o.containers), [page])
  {
    ReadyVisit(script, cursor, maxRetries, parse);
    if GoesOn(VisitPage(script, cursor, 0, maxRetries, parse)) {
      CrawlGoesOn(script, cursor, page, lastPage, maxRetries, parse);
    } else {
      CrawlStops(script, cursor, page, lastPage, maxRetries, parse);
    }
    assert Repeat(page, 1) == [page];
  }

  /** Two ready pages, the first with a "next" control and the second
      without: the crawl loads each once and returns the records of the
      first page, then those of the second. */
  lemma TwoReadyPages(script: seq<Outcome>, cs1: seq<Container>, cs2: seq<Container>, maxPages: Option<int>, cfg: CrawlerConfig)
    requires EffectiveMaxPages(maxPages, cfg) >= 2 && cfg.maxRetries >= 1
    requires ParsedAdvanced(cs1, cfg.extraction) != [] && ParsedAdvanced(cs2, cfg.extraction) != []
    requires OutcomeAt(script, 0) == Loaded(cs1, true) && OutcomeAt(script, 1) == Loaded(cs2, false)
    ensures Crawl(script, maxPages, cfg) == Trace(ParsedAdvanced(cs1, cfg.extraction) + ParsedAdvanced(cs2, cfg.extraction), [1, 2])
  {
    var parse := AdvancedParser(cfg.extraction);
    var last := EffectiveMaxPages(maxPages, cfg);
    assert parse(cs1) == ParsedAdvanced(cs1, cfg.extraction) && parse(cs2) == ParsedAdvanced(cs2, cfg.extraction);
    ReadyPage(script, 1, 2, last, cfg.maxRetries, parse);
    ReadyPage(script, 0, 1, last, cfg.maxRetries, parse);
  }

  /** Two ready pages of linked containers, the first with a "next" control
      and the second without: every container gives a record. */
  lemma TwoFullPages(script: seq<Outcome>, cs1: seq<Container>, cs2: seq<Container>, maxPages: Option<int>, cfg: CrawlerConfig)
    requires EffectiveMaxPages(maxPages, cfg) >= 2 && cfg.maxRetries >= 1
    requires |cs1| > 0 && |cs2| > 0
    requires forall i :: 0 <= i < |cs1| ==> LinkSelector in cs1[i].first
    requires forall i :: 0 <= i < |cs2| ==> LinkSelector in cs2[i].first
    requires OutcomeAt(script, 0) == Loaded(cs1, true) && OutcomeAt(script, 1) == Loaded(cs2, false)
    ensures |Crawl(script, maxPages, cfg).products| == |cs1| + |cs2|
  {
    ParsedAdvancedAllLinked(cs1, cfg.extraction);
    ParsedAdvancedAllLinked(cs2, cfg.extraction);
    TwoReadyPages(script, cs1, cs2, maxPages, cfg);
  }

  /** The page loop of `search_products_advanced`: pages 1 .. `lastPage`,
      each visited by `_crawl_page`, stopping early on an empty page or a
      page without a next-page link. Returns the records and the page of
      every attempt. */
  method CrawlPages(script: seq<Outcome>, lastPage: int, maxRetries: int, flags: ExtractionFlags)
    returns (products: seq<Record>, pages: seq<nat>)
    ensures Trace(products, pages) == CrawlFrom(script, 0, 1, lastPage, maxRetries, AdvancedParser(flags))
  {
    ghost var parse := AdvancedParser(flags);
    ghost var whole := CrawlFrom(script, 0, 1, lastPage, maxRetries, parse);
    products, pages := [], [];
    assert Gathered(whole, products, pages, script, 0, 1, lastPage, maxRetries, parse) by {
      assert [] + whole.products == whole.products && [] + whole.pages == whole.pages;
    }
    var cursor: nat := 0;
    var page: nat := 1;
    while page <= lastPage
      invariant 1 <= page
      invariant Gathered(whole, products, pages, script, cursor, page, lastPage, maxRetries, parse)
      decreases lastPage - page
    {
      var records, attempts, shown := CrawlPage(script, cursor, maxRetries, flags);
      LoopStep(script, cursor, page, lastPage, maxRetries, parse, whole, products, pages, records, attempts, shown);
      var here := Repeat(page, attempts);
      if records == [] {
        pages := pages + here;
        break;
      }
      if !HasNextPage(shown) {
        products := products + records;
        pages := pages + here;
        break;
      }
      products := products + records;
      pages := pages + here;
      cursor := cursor + attempts;
      page := page + 1;
    }
    if page > lastPage {
      LoopDone(script, cursor, page, lastPage, maxRetries, parse, whole, products, pages);
    }
  }

  /** `search_products_advanced(keyword, filters, max_pages, sort_by)`
      against the browser: returns the crawl's records and the URLs handed
      to `driver.get`, one per attempt. The `filters` argument is ignored by
      the crawler and is not a parameter here. */
  method SearchProductsAdvanced(keyword: string, maxPages: Option<int>, sortBy: Option<string>, cfg: CrawlerConfig, script: seq<Outcome>)
    returns (products: seq<Record>, loads: seq<string>)
    ensures products == Crawl(script, maxPages, cfg).products
    ensures loads == PageUrls(BuildSearchUrl(keyword, sortBy), Crawl(script, maxPages, cfg).pages)
  {
    var lastPage := EffectiveMaxPages(maxPages, cfg);
    var base := BuildSearchUrl(keyword, sortBy);
    var pages;
    products, pages := CrawlPages(script, lastPage, cfg.maxRetries, cfg.extraction);
    loads := PageUrls(base, pages);
  }
}
