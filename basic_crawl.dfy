/** The page loop of the basic crawler: one load per page, no retry. A load
    that fails (or a wait that times out) ends the whole crawl, keeping the
    records of the earlier pages; a page without an enabled "next" control
    ends it after its records are kept. */
module BasicCrawl {
  import opened Seqs
  import opened Dom
  import opened SearchUrl
  import opened BasicExtraction

  /** The page loop of `search_products` from page `page` on, attempt number
      `cursor` being the load of that page. */
  function BasicFrom(script: seq<Outcome>, cursor: nat, page: nat, maxPages: int, parse: seq<Container> -> seq<Record>): Trace
    decreases maxPages - page
  {
    if page > maxPages then Trace([], [])
    else
      var o := OutcomeAt(script, cursor);
      if !Ready(o) then Trace([], [page])
      else if !HasNextPage(o) then Trace(parse(o.containers), [page])
      else
        var rest := BasicFrom(script, cursor + 1, page + 1, maxPages, parse);
        Trace(parse(o.containers) + rest.products, [page] + rest.pages)
  }

  /** The page parser `_parse_products` as a function value. */
  function BasicParser(): seq<Container> -> seq<Record> {
    cs => Parsed(cs)
  }

  /** The whole crawl of `search_products(keyword, max_pages)`. */
  function BasicCrawl(script: seq<Outcome>, maxPages: int): Trace {
    BasicFrom(script, 0, 1, maxPages, BasicParser())
  }

  /** Attempt `n` gave a ready page with an enabled "next" control. */
  predicate MovesOn(script: seq<Outcome>, n: nat) {
    Ready(OutcomeAt(script, n)) && HasNextPage(OutcomeAt(script, n))
  }

  /** The pages are loaded once each, in order, starting at `page`, and
      never past `maxPages`. */
  lemma {:induction false} BasicPagesInOrder(script: seq<Outcome>, cursor: nat, page: nat, maxPages: int,
                                             parse: seq<Container> -> seq<Record>)
    ensures var pages := BasicFrom(script, cursor, page, maxPages, parse).pages;
            && |pages| <= (if page <= maxPages then maxPages - page + 1 else 0)
            && forall k :: 0 <= k < |pages| ==> pages[k] == page + k
    decreases maxPages - page
  {
    if page <= maxPages {
      var o := OutcomeAt(script, cursor);
      if Ready(o) && HasNextPage(o) {
        var rest := BasicFrom(script, cursor + 1, page + 1, maxPages, parse);
        BasicPagesInOrder(script, cursor + 1, page + 1, maxPages, parse);
        var pages := [page] + rest.pages;
        assert BasicFrom(script, cursor, page, maxPages, parse).pages == pages;
        forall k | 0 <= k < |pages| ensures pages[k] == page + k {
          if k > 0 {
            assert pages[k] == rest.pages[k - 1];
          }
        }
      }
    }
  }

  /** Every load but the last one gave a ready page with a "next" control:
      the crawl ends at the first failure or the first last page. */
  lemma {:induction false} BasicStopsOnlyAtEnd(script: seq<Outcome>, cursor: nat, page: nat, maxPages: int,
                                               parse: seq<Container> -> seq<Record>)
    ensures var n := |BasicFrom(script, cursor, page, maxPages, parse).pages|;
            forall m :: cursor <= m < cursor + n - 1 ==> MovesOn(script, m)
    decreases maxPages - page
  {
    if page <= maxPages && MovesOn(script, cursor) {
      BasicStopsOnlyAtEnd(script, cursor + 1, page + 1, maxPages, parse);
    }
  }

  /** The records are those of the pages that loaded, in order: a failed
      load adds none and nothing is parsed twice. */
  lemma {:induction false} BasicHarvest(script: seq<Outcome>, cursor: nat, page: nat, maxPages: int,
                                        parse: seq<Container> -> seq<Record>)
    ensures var t := BasicFrom(script, cursor, page, maxPages, parse);
            t.products == Harvest(script, cursor, |t.pages|, parse)
    decreases maxPages - page
  {
    if page <= maxPages {
      var o := OutcomeAt(script, cursor);
      assert Harvest(script, cursor, 1, parse) == if Ready(o) then parse(o.containers) else [];
      if Ready(o) && HasNextPage(o) {
        var rest := BasicFrom(script, cursor + 1, page + 1, maxPages, parse);
        BasicHarvest(script, cursor + 1, page + 1, maxPages, parse);
        HarvestSplit(script, cursor, 1, |rest.pages|, parse);
      }
    }
  }

  /** A load that fails on the first page leaves the crawl with no records. */
  lemma FirstLoadFails(script: seq<Outcome>, maxPages: int)
    requires maxPages >= 1 && !Ready(OutcomeAt(script, 0))
    ensures BasicCrawl(script, maxPages) == Trace([], [1])
  {
  }

  /** A page that loads with a "next" control, below the page limit: its
      records are kept and the crawl goes on with the next page at the next
      load, whatever the page held. */
  lemma BasicGoesOn(script: seq<Outcome>, cursor: nat, page: nat, maxPages: int,
                    parse: seq<Container> -> seq<Record>)
    requires page <= maxPages && MovesOn(script, cursor)
    ensures var t := BasicFrom(script, cursor, page, maxPages, parse);
            var rest := BasicFrom(script, cursor + 1, page + 1, maxPages, parse);
            && t.products == parse(OutcomeAt(script, cursor).containers) + rest.products
            && t.pages == [page] + rest.pages
  {
  }

  /** A failure after earlier pages keeps their records: the crawl from a
      failing load adds nothing. */
  lemma FailureKeepsEarlier(script: seq<Outcome>, cursor: nat, page: nat, maxPages: int,
                            parse: seq<Container> -> seq<Record>)
    requires page <= maxPages && !Ready(OutcomeAt(script, cursor))
    ensures BasicFrom(script, cursor, page, maxPages, parse) == Trace([], [page])
  {
  }

  /** A basic record: the eleven columns, the store rated "N/A". */
  predicate BasicShape(r: Record) {
    r.Keys == BasicKeys && r[StoreRating] == Str(NA)
  }

  /** Each record of the crawl has the eleven columns and the store rating
      "N/A" (so no store-rating threshold can ever exclude one). */
  lemma BasicRecordShape(script: seq<Outcome>, maxPages: int)
    ensures var t := BasicCrawl(script, maxPages);
            forall i :: 0 <= i < |t.products| ==> t.products[i].Keys == BasicKeys && t.products[i][StoreRating] == Str(NA)
  {
    var t := BasicCrawl(script, maxPages);
    BasicHarvest(script, 0, 1, maxPages, BasicParser());
    forall cs: seq<Container>, i | 0 <= i < |BasicParser()(cs)| ensures BasicShape(BasicParser()(cs)[i]) {
      assert BasicParser()(cs)[i] == ExtractProductInfo(cs[i]);
    }
    HarvestAll(script, 0, |t.pages|, BasicParser(), BasicShape);
  }

  /** The invariant of the page loop: what has been gathered, followed by
      the rest of the crawl from the current page, is the whole crawl. */
  ghost predicate BasicGathered(whole: Trace, products: seq<Record>, pages: seq<nat>, script: seq<Outcome>,
                                page: nat, maxPages: int, parse: seq<Container> -> seq<Record>)
    requires page >= 1
  {
    var rest := BasicFrom(script, page - 1, page, maxPages, parse);
    whole == Trace(products + rest.products, pages + rest.pages)
  }

  /** The loop invariant carried over one page. */
  lemma BasicStep(script: seq<Outcome>, page: nat, maxPages: int, whole: Trace,
                  products: seq<Record>, pages: seq<nat>, parse: seq<Container> -> seq<Record>)
    requires 1 <= page <= maxPages
    requires BasicGathered(whole, products, pages, script, page, maxPages, parse)
    ensures var o := OutcomeAt(script, page - 1);
            && (!Ready(o) ==> whole == Trace(products, pages + [page]))
            && (Ready(o) && !HasNextPage(o) ==> whole == Trace(products + parse(o.containers), pages + [page]))
            && (Ready(o) && HasNextPage(o) ==>
                  BasicGathered(whole, products + parse(o.containers), pages + [page], script, page + 1, maxPages, parse))
  {
    var o := OutcomeAt(script, page - 1);
    if Ready(o) && HasNextPage(o) {
      var rest := BasicFrom(script, page, page + 1, maxPages, parse);
      assert products + (parse(o.containers) + rest.products) == (products + parse(o.containers)) + rest.products;
      assert pages + ([page] + rest.pages) == (pages + [page]) + rest.pages;
    }
  }

  /** The page loop of `search_products`: returns the records and, for each
      load, its page number. */
  method BasicPages(script: seq<Outcome>, maxPages: int) returns (products: seq<Record>, pages: seq<nat>)
    ensures Trace(products, pages) == BasicCrawl(script, maxPages)
  {
    ghost var parse := BasicParser();
    ghost var whole := BasicCrawl(script, maxPages);
    products, pages := [], [];
    assert BasicGathered(whole, products, pages, script, 1, maxPages, parse) by {
      assert [] + whole.products == whole.products && [] + whole.pages == whole.pages;
    }
    var page: nat := 1;
    while page <= maxPages
      invariant 1 <= page
      invariant BasicGathered(whole, products, pages, script, page, maxPages, parse)
      decreases maxPages - page
    {
      BasicStep(script, page, maxPages, whole, products, pages, parse);
      var o := OutcomeAt(script, page - 1);
      pages := pages + [page];
      if !Ready(o) {
        break;
      }
      var pageProducts := ParseProducts(o.containers);
      assert pageProducts == parse(o.containers);
      products := products + pageProducts;
      if !HasNextPage(o) {
        break;
      }
      page := page + 1;
    }
    if page > maxPages {
      assert products + [] == products && pages + [] == pages;
    }
  }

  /** `search_products(keyword, max_pages)` against the browser: the records
      of the crawl and the URLs handed to `driver.get`, one per page. */
  method SearchProducts(keyword: string, maxPages: int, script: seq<Outcome>)
    returns (products: seq<Record>, loads: seq<string>)
    ensures products == BasicCrawl(script, maxPages).products
    ensures loads == PageUrls(BaseUrl(keyword), BasicCrawl(script, maxPages).pages)
  {
    var pages;
    products, pages := BasicPages(script, maxPages);
    loads := PageUrls(BaseUrl(keyword), pages);
  }
}
