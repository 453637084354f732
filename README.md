# Amazon search-result crawler: a Dafny model

This project models the decision logic of the two crawlers of the
`crawler-amazon` repository: `AmazonCrawler` (`amazon_crawler.py`) and
`AdvancedAmazonCrawler` (`advanced_crawler.py`), with the defaults of
`config.py`.

- **Search URLs.** The keyword has its spaces replaced by `+`. The advanced
  crawler appends a sort fragment. Page `p > 1` adds `&page=p`.
- **Page loops.** The browser is a script of load outcomes, one per
  `driver.get` plus wait. Each outcome is a failure, or a page with its
  result containers and a flag for an enabled "next" control.
  - The advanced loop visits each page with up to `max_retries` attempts.
    It stops on a page that yields no records, on a page without "next",
    or at the page limit.
  - The basic loop makes one attempt per page. The first failure ends the
    crawl and keeps the records gathered so far.
- **Record extraction.** A container is the first element each CSS selector
  finds in it. Field helpers fall back to `"N/A"`.
  - The advanced extractor drops a container without its `h2 a` link. The
    extraction flags decide which columns a record has.
  - The basic extractor always builds the same eleven columns.
  - The two regular expressions `(\d+\.?\d*)` and `(\d+)` are modelled as
    string scanners.
- **Filtering.** Each criterion is a check that passes, fails, or raises
  into the outer handler, which keeps the record. A falsy threshold switches
  its check off. Python's `float()` and `int()` are parameters: partial
  functions from text to numbers.
- **Statistics.** The price and rating summaries use the positive parsed
  values. The store tally is a dict kept in insertion order. It is sorted by
  count with a stable sort, and at most five stores are kept.

Loops of the source are methods with loop invariants. Each is proved equal
to a function: `CrawlFrom`, `BasicCrawl`, `VisitPage`, `ParsedAdvanced`,
`Parsed`, `Select`, `FilterMap`, `Tally` and `StatisticsOf`. Lemmas prove
the promised properties of these functions.

## Model

| member | source | states |
|---|---|---|
| Text.Strip | advanced_crawler.py:261 | `strip()` removes exactly the surrounding whitespace: the result is a slice of the input, with only whitespace cut on either side, and starts and ends with non-whitespace |
| Text.StripUnique | advanced_crawler.py:261 | there is only one way to strip a string, so the characterisation fixes `strip()` |
| Text.StripKeepsDigits | advanced_crawler.py:319-320 | stripping never removes a digit |
| Text.Lower | advanced_crawler.py:439-440 | `lower()` keeps the length and lowers each letter in place |
| Text.LowerIdempotent | advanced_crawler.py:445-446 | lowering an already lowered text changes nothing |
| Text.ContainsIff | advanced_crawler.py:440 | `needle in hay` holds exactly when the needle occurs at some position of the haystack |
| Text.DeleteChar | amazon_crawler.py:222 | `replace(c, '')` leaves no `c`, keeps every other character as often as it occurred, and is the identity on a text without `c` |
| Text.DeleteCharKeepsOrder | amazon_crawler.py:222 | `replace(c, '')` is the input with every `c` dropped and every other character kept in its order |
| Text.DeleteLeading | advanced_crawler.py:396 | deleting `c` from `c` followed by a `c`-free text gives that text |
| Text.DeleteCharKeepsDigits | advanced_crawler.py:320 | deleting commas keeps every digit |
| Text.ReplaceChar | advanced_crawler.py:187 | `replace(a, b)` keeps the length and replaces exactly the `a` characters |
| Text.NatToString | advanced_crawler.py:159 | `str(page)` is a non-empty string of digits without a leading zero |
| Text.NatToStringRoundTrip | advanced_crawler.py:159 | reading back the digits of `str(n)` gives `n` |
| Text.NatToStringInjective | advanced_crawler.py:159 | different page numbers print differently |
| Text.DecimalEndMatches | advanced_crawler.py:310 | the greedy scan from a digit yields a full match of `\d+\.?\d*` that cannot be extended |
| Text.FirstDecimal | advanced_crawler.py:310-311 | `re.search(r'(\d+\.?\d*)', s)` is None exactly when `s` has no digit, and otherwise is the maximal match at the first digit |
| Text.FirstDigitRun | advanced_crawler.py:320-321 | `re.search(r'(\d+)', s)` is None exactly when `s` has no digit, and otherwise is the maximal digit run at the first digit |
| Seqs.SelectAppend | advanced_crawler.py:383-385 | filtering a concatenation is concatenating the filtered parts |
| Seqs.SelectMultiplicity | advanced_crawler.py:383-385 | filtering keeps each accepted record as often as it occurs and drops each rejected one |
| Seqs.SelectExtend | amazon_crawler.py:317-319 | filtering one more record appends it exactly when it is kept |
| Seqs.SelectAll | advanced_crawler.py:378-379 | filtering with a test that accepts every element returns the list itself |
| Seqs.SelectSelect | advanced_crawler.py:396 | two deletions in a row keep what both keep, in order |
| Seqs.FilterMapIndices | advanced_crawler.py:240-244 | the j-th collected value is the one produced at the j-th position where one is produced |
| Seqs.FilterMapTotal | advanced_crawler.py:240-244 | when every element produces a value, nothing is skipped |
| Seqs.WithinAppend | advanced_crawler.py:153 | two lists of page numbers within a range concatenate to one within it |
| Seqs.CountIsMultiplicity | advanced_crawler.py:207 | the number of occurrences `Count(s, x)` is the multiplicity of `x` in `multiset(s)` |
| Seqs.ConsecutiveAppend | advanced_crawler.py:153 | two consecutive runs of page numbers that meet at the boundary concatenate to a consecutive run |
| Dom.HarvestSplit | advanced_crawler.py:161-166 | the records of two consecutive stretches of load attempts are those of their union |
| Dom.HarvestAll | advanced_crawler.py:166 | a property every parsed record has, every harvested record has |
| SearchUrl.EncodeKeyword | advanced_crawler.py:187 | each space becomes `+` and every other character is kept in place; the result has no space and a `+` exactly where the keyword had a space or a `+` |
| SearchUrl.BaseUrlRoundTrip | amazon_crawler.py:110 | a keyword without `+` is recovered from its search URL |
| SearchUrl.SortFragment | advanced_crawler.py:190-198 | `price_low`, `price_high`, `rating` and `newest` give `&s=price-asc-rank`, `&s=price-desc-rank`, `&s=review-rank` and `&s=date-desc-rank`; the fragment is empty exactly when no such key is given |
| SearchUrl.BuildSearchUrl | advanced_crawler.py:185-200 | the URL is the unsorted URL followed by the sort fragment, so it equals the unsorted URL exactly when no known non-relevance sort key is given |
| SearchUrl.PageUrlInjective | advanced_crawler.py:156-159 | different pages are fetched at different URLs |
| SearchUrl.PageUrlsAppend | advanced_crawler.py:156-161 | the URLs of concatenated page lists are the concatenated URL lists |
| SearchUrl.PageUrlsRepeat | advanced_crawler.py:207-209 | retrying a page `n` times loads its URL `n` times |
| Dom.StrippedTextOr | advanced_crawler.py:297-357 | the text helpers `_extract_price`, `_extract_store_name`, `_extract_availability` and `_extract_shipping` (lines 297-303, 325-331, 343-357) give `"N/A"` without an element, and otherwise the stripped element text |
| AdvancedExtraction.DecimalInInnerHtml | advanced_crawler.py:305-341 | the rating helpers `_extract_rating` and `_extract_store_rating` (lines 305-313, 333-341) give `"N/A"` exactly when there is no element, no innerHTML or no digit in it, and otherwise the first `\d+\.?\d*` match |
| AdvancedExtraction.ExtractReviews | advanced_crawler.py:315-323 | the review count is `"N/A"` exactly when there is no element or no digit in its text, and otherwise the first digit run of the stripped text with commas deleted |
| AdvancedExtraction.AdvancedKeysMembers | advanced_crawler.py:257-289 | a column is in an advanced record exactly when it is the name, the link, or a column whose flag is on |
| AdvancedExtraction.WithField | advanced_crawler.py:265-289 | one flagged assignment adds its column exactly when the flag is on, and never makes a non-link value None |
| AdvancedExtraction.WithFieldStep | advanced_crawler.py:265-266 | a flagged assignment stores its value when the flag is on and keeps every other column |
| AdvancedExtraction.WithFieldsCarry | advanced_crawler.py:257-289 | after the seven flagged assignments the name and link are unchanged and each flagged column holds its own value |
| AdvancedExtraction.ExtractProductInfoAdvanced | advanced_crawler.py:254-295 | None exactly when the `h2 a` link is missing; otherwise the record has exactly the flagged columns and only the link can be None |
| AdvancedExtraction.ExtractedValues | advanced_crawler.py:257-289 | an extracted record holds the stripped link text as name, the link's `href`, and under each flagged column the value of that column's field helper |
| AdvancedExtraction.ParsedAdvanced | advanced_crawler.py:238-247 | a page gives at most one record per container, each with the flagged columns |
| AdvancedExtraction.ParsedAdvancedKeepsLinked | advanced_crawler.py:240-244 | the records come, in order, from exactly the containers that have the title link |
| AdvancedExtraction.ParsedAdvancedAllLinked | advanced_crawler.py:240-244 | a page whose containers all have the title link gives one record per container |
| AdvancedExtraction.ParseProductsAdvanced | advanced_crawler.py:232-252 | the append loop returns the page's records, at most one per container, with the flagged columns |
| BasicExtraction.CompleteUrl | amazon_crawler.py:181-184 | a missing or empty href gives `"N/A"`, a relative one is prefixed with the host, any other is kept, and the result never starts with `/` |
| BasicExtraction.ExtractTitle | amazon_crawler.py:175-194 | the title link gives the stripped name and the completed URL; otherwise the name falls back to `.a-text-normal` and the URL is `"N/A"`; with neither both are `"N/A"` |
| BasicExtraction.ExtractRating | amazon_crawler.py:206-215 | `"N/A"` exactly when there is no element or no digit in its innerHTML-or-text, and otherwise the first `\d+\.?\d*` match |
| BasicExtraction.ExtractReviews | amazon_crawler.py:218-224 | the review text is the stripped element text with every comma deleted, so it keeps every digit; `"N/A"` without the element |
| BasicExtraction.BasicRecord | amazon_crawler.py:275-291 | the record literal has the eleven columns, each holding the value given for it, store "Amazon", store rating `"N/A"`, and only ASIN and image URL may be None |
| BasicExtraction.ExtractProductInfo | amazon_crawler.py:171-294 | every container gives a record with the eleven columns: title and URL from the title helper, price, promotion and delivery as stripped texts, rating and reviews from their helpers, the `data-asin` attribute or None, the image URL, store "Amazon" and store rating `"N/A"` |
| BasicExtraction.ParseProducts | amazon_crawler.py:145-169 | the append loop returns one record per container, in container order |
| AdvancedCrawl.VisitAttempts | advanced_crawler.py:204-230 | a page visit makes at least one and at most `max_retries` attempts, and none with `max_retries <= 0` |
| AdvancedCrawl.VisitHarvest | advanced_crawler.py:207-218 | a visit returns the records of the ready page among its attempts |
| AdvancedCrawl.VisitRetriesFailed | advanced_crawler.py:220-226 | every attempt of a visit but the last one failed |
| AdvancedCrawl.VisitEndsReady | advanced_crawler.py:209-218 | a visit that returns records ended on the ready page it parsed, which the browser then shows |
| AdvancedCrawl.FailuresExhaustRetries | advanced_crawler.py:220-226 | a page that fails every attempt uses up all remaining retries and returns no record |
| AdvancedCrawl.RetryStep | advanced_crawler.py:207-228 | one attempt of the retry loop returns the parse of a ready page, gives up at the retry limit, or carries the loop invariant over |
| AdvancedCrawl.CrawlPage | advanced_crawler.py:202-230 | the retry loop returns what the visit function says: records, number of attempts and the page shown |
| AdvancedCrawl.CrawlGoesOn | advanced_crawler.py:161-172 | step of the page-loop proof: the crawl function unfolded at a page with records and an enabled "next" control |
| AdvancedCrawl.CrawlStops | advanced_crawler.py:161-172 | step of the page-loop proof: the crawl function unfolded at any other page, which ends the crawl with its own records and attempts |
| AdvancedCrawl.LoopStep | advanced_crawler.py:153-172 | one iteration of the page loop keeps "gathered so far + rest of crawl = whole crawl", or ends it with the whole crawl |
| AdvancedCrawl.LoopDone | advanced_crawler.py:153 | step of the page-loop proof: past the page limit the rest of the crawl is empty |
| AdvancedCrawl.EffectiveMaxPages | advanced_crawler.py:147 | `max_pages` of None or 0 means the configured default, any other value is used as given |
| AdvancedCrawl.CrawlPagesWithin | advanced_crawler.py:153 | every attempt is for a page between the first page and the page limit |
| AdvancedCrawl.CrawlStartsAt | advanced_crawler.py:153 | the first attempt is for the first page |
| AdvancedCrawl.CrawlPagesConsecutive | advanced_crawler.py:153-172 | each attempt is for the page of the previous attempt or the next one: pages are neither skipped nor revisited |
| AdvancedCrawl.CrawlAttemptsBound | advanced_crawler.py:153-161 | in all, at most `max_retries` times as many attempts as there are pages from the first page to the limit |
| AdvancedCrawl.CrawlAttemptsPerPage | advanced_crawler.py:202-230 | each page `p` is attempted at most `max_retries` times, and never when `max_retries <= 0` (`Count` is the multiplicity, by `Seqs.CountIsMultiplicity`) |
| AdvancedCrawl.CrawlStopsOnlyAtEnd | advanced_crawler.py:161-172 | the whole crawl obeys the stop rule: every attempt but the last either failed and was retried for the same page, or gave a ready page with records and an enabled "next" control and was followed by the next page |
| AdvancedCrawl.ExplainedAt | advanced_crawler.py:161-172 | the stop rule of a trace, read attempt by attempt |
| AdvancedCrawl.CrawlStepAt | advanced_crawler.py:161-172 | attempt `k` of the crawl, when followed by one for the same page, failed; when followed by one for another page, it gave records and an enabled "next" control |
| AdvancedCrawl.CrawlHarvest | advanced_crawler.py:161-166 | the crawl's records are exactly those of the ready pages among its attempts, in order |
| AdvancedCrawl.CrawlRecordKeys | advanced_crawler.py:166 | every record of the crawl has exactly the columns the extraction flags select |
| AdvancedCrawl.NoRetriesNoCrawl | advanced_crawler.py:207-230 | with `max_retries <= 0` nothing is loaded and nothing is found |
| AdvancedCrawl.FirstPageTimesOut | advanced_crawler.py:220-226 | a first page that never becomes ready is tried `max_retries` times and the crawl returns no record |
| AdvancedCrawl.ReadyVisit | advanced_crawler.py:209-218 | a page ready at the first attempt is parsed after one attempt |
| AdvancedCrawl.ReadyPage | advanced_crawler.py:161-172 | a page ready at once that yields records goes on to the next page exactly when it has a "next" control |
| AdvancedCrawl.TwoReadyPages | advanced_crawler.py:153-172 | two ready pages, the second without "next": the records of both in order, each page loaded once |
| AdvancedCrawl.TwoFullPages | advanced_crawler.py:153-172 | two such pages of linked containers give one record per container |
| AdvancedCrawl.CrawlPages | advanced_crawler.py:146-183 | the page loop returns exactly the crawl function's records and per-attempt page numbers |
| AdvancedCrawl.SearchProductsAdvanced | advanced_crawler.py:132-183 | returns the crawl's records, and loads the URL of each attempt's page |
| BasicCrawl.BasicPagesInOrder | amazon_crawler.py:113-119 | pages are loaded once each, in increasing order from page 1, never past `max_pages` |
| BasicCrawl.BasicStopsOnlyAtEnd | amazon_crawler.py:121-138 | every load but the last gave a ready page with a "next" control |
| BasicCrawl.BasicHarvest | amazon_crawler.py:121-131 | the records are those of the loaded pages in order; a failed load adds none |
| BasicCrawl.FirstLoadFails | amazon_crawler.py:112-143 | a first load that fails leaves the crawl with no records |
| BasicCrawl.BasicGoesOn | amazon_crawler.py:130-138 | a page with "next" control keeps its records, even none, and the crawl goes on |
| BasicCrawl.FailureKeepsEarlier | amazon_crawler.py:112-143 | a failing load ends the crawl without adding records, so earlier records are kept |
| BasicCrawl.BasicRecordShape | amazon_crawler.py:276-291 | every record of the crawl has the eleven columns and store rating `"N/A"` |
| BasicCrawl.BasicStep | amazon_crawler.py:113-138 | one iteration of the page loop keeps "gathered so far + rest of crawl = whole crawl", or ends it with the whole crawl |
| BasicCrawl.BasicPages | amazon_crawler.py:109-143 | the page loop returns exactly the crawl function's records and page numbers |
| BasicCrawl.SearchProducts | amazon_crawler.py:98-143 | returns the crawl's records, and loads the URL of each page it visits |
| Filters.VerdictIff | advanced_crawler.py:390-453 | a record is kept exactly when every failing check comes after a check that raised into the outer handler |
| Filters.NoRaiseVerdict | amazon_crawler.py:324-375 | without a raising check, a record is kept exactly when no check fails |
| Filters.PriceText | advanced_crawler.py:396 | the price text has no `$` and no `,` and keeps every other character |
| Filters.PriceTextKeepsOrder | advanced_crawler.py:396 | the price text is the input with `$` and `,` dropped and every other character kept in its order |
| Filters.PriceTextPlain | advanced_crawler.py:396 | a text without `$` or `,` is its own price text |
| Filters.PriceTextDollar | advanced_crawler.py:396 | `$` followed by a plain number reads as that number |
| Filters.AtLeast | advanced_crawler.py:394-400 | a minimum check never raises, and fails exactly when it is active and the parsed value is below the threshold |
| Filters.AtMost | advanced_crawler.py:402-408 | a maximum check never raises, and fails exactly when it is active and the parsed value is above the threshold |
| Filters.ContainsCheck | advanced_crawler.py:438-447 | a name check raises exactly on a None field, and fails exactly when the lowered field does not contain the lowered needle |
| Filters.MeetsBasicIff | amazon_crawler.py:324-375 | the basic criteria keep a record exactly when no numeric check fails |
| Filters.InactiveKeepsAll | advanced_crawler.py:394-449 | with every threshold falsy both crawlers keep every record |
| Filters.UnparsablePriceIgnored | advanced_crawler.py:394-408 | a price the parser rejects never excludes a record |
| Filters.MissingPrice | amazon_crawler.py:328-342 | without a price column the basic criteria ignore the price bounds, while the advanced ones read "0" and a positive minimum excludes |
| Filters.MinPriceMonotone | advanced_crawler.py:394-400 | raising the minimum price can only exclude more records |
| Filters.NameFilterIgnoresCase | advanced_crawler.py:444-447 | the product-name filter gives the same verdict for a needle and its lower-case form |
| Filters.MissingStoreNameExcluded | advanced_crawler.py:438-441 | a record without a store name is excluded by an active store-name filter |
| Filters.NullStoreNameKeeps | advanced_crawler.py:438-453 | a None store name raises into the outer handler, so the record is kept exactly when the numeric checks passed |
| Filters.BasicAgreesWithAdvanced | amazon_crawler.py:324-371 | on records holding the numeric columns as strings, with text filters off, both crawlers decide alike |
| Filters.StoreRatingNeverExcludesBasic | amazon_crawler.py:344-351 | a minimum store rating never excludes a basic record, whose store rating is `"N/A"` |
| Filters.FilterProducts | amazon_crawler.py:304-322 | the filter loop returns the records meeting the basic criteria, in order |
| Filters.FilterProductsAdvanced | advanced_crawler.py:367-388 | with no filters the list itself, otherwise the records meeting the advanced criteria, in order |
| Filters.AdvancedFilterIsSelection | advanced_crawler.py:378-388 | the no-filter shortcut agrees with filtering: every record is kept as often as it occurs |
| Statistics.Positive | advanced_crawler.py:504-506 | a value is kept exactly when it parsed and is strictly positive |
| Statistics.Min | advanced_crawler.py:511 | `min` is a value of the list no greater than any other |
| Statistics.Max | advanced_crawler.py:511 | `max` is a value of the list no smaller than any other |
| Statistics.SumBetween | advanced_crawler.py:511 | a sum of values between `lo` and `hi` lies between `n*lo` and `n*hi` |
| Statistics.SumAppend | advanced_crawler.py:511 | `sum` of a concatenation is the sum of the parts' sums, so `Sum` adds up every value once |
| Statistics.MeanOfBetween | advanced_crawler.py:511 | the mean of values between `lo` and `hi` lies between them |
| Statistics.MeanBetween | advanced_crawler.py:511 | arithmetic step for the mean: a total of `n` values between `lo` and `hi`, divided by `n`, lies between them |
| Statistics.Summarize | advanced_crawler.py:510-511 | the summary's minimum and maximum are values of the list bounding all others, and its mean is `sum(values) / len(values)`, which lies between them |
| Statistics.SummaryRows | advanced_crawler.py:510-524 | no row for an empty list, otherwise exactly the list's summary row |
| Statistics.StoreOf | advanced_crawler.py:529 | the store of a product is its store name, or "未知" without one |
| Statistics.BumpCount | advanced_crawler.py:530 | counting a store adds one to its count and changes no other |
| Statistics.BumpTotal | advanced_crawler.py:530 | counting a store adds one to the total |
| Statistics.BumpListed | advanced_crawler.py:530 | counting a store lists it and unlists none |
| Statistics.BumpKeepsShape | advanced_crawler.py:530 | counting keeps every store listed once with a positive count |
| Statistics.TallyCorrect | advanced_crawler.py:527-530 | the dict counts each store as often as it occurs, lists exactly the stores that occur, each once with a positive count, and its counts add up to the number of products |
| Statistics.SortSorted | advanced_crawler.py:532 | the sort orders by non-increasing count |
| Statistics.SortPermutes | advanced_crawler.py:532 | the sort keeps every entry as often as it occurs |
| Statistics.SortStable | advanced_crawler.py:532 | the sort keeps entries of equal count in first-seen order |
| Statistics.Top5 | advanced_crawler.py:532 | `[:5]` keeps the first `min(5, n)` entries |
| Statistics.SortedDistinct | advanced_crawler.py:532 | sorting keeps every store listed once |
| Statistics.RankedStoresCorrect | advanced_crawler.py:527-532 | the sorted tally is by non-increasing count, lists every store of the products once with its product count, and nothing else |
| Statistics.StoreCountsAddUp | advanced_crawler.py:527-530 | the store counts add up to the number of products, and a product without store name is counted under "未知" |
| Statistics.TopOfRanking | advanced_crawler.py:532 | the first five of a ranking are ordered, distinct, with true counts; a store left out has no more products than any listed one |
| Statistics.TopStoresCorrect | advanced_crawler.py:526-533 | at most five distinct stores with their product counts, by non-increasing count; a store left out has no more products than any listed one; with at most five stores all are listed |
| Statistics.DollarPriceValue | advanced_crawler.py:504 | a price `$` followed by a plain number is read as that number |
| Statistics.PlainPriceValue | advanced_crawler.py:504 | a price without `$` or `,` is read as it is |
| Statistics.ThreePrices | advanced_crawler.py:501-508 | the collected prices of three records are the values of those that parse |
| Statistics.PriceSummaryExample | advanced_crawler.py:500-511 | prices "$10.00", "$50.00" and "N/A" summarise to 10, 50 and 30; no products give no rows |
| Statistics.PositiveValues | advanced_crawler.py:501-508 | the loop collects the positive parsed values, in product order |
| Statistics.CountStores | advanced_crawler.py:527-530 | the loop builds the store tally |
| Statistics.GenerateStatistics | advanced_crawler.py:496-535 | returns the sheet: price summary, rating summary, then the top-store rows |

## Left out

- Browser set-up, `close()`, driver download, logging, `time.sleep` and the
  random delays: I/O and timing. The wait timeout is part of the load
  outcome.
- The CSS selector engine: a container maps each selector to the first
  element it finds. `_has_next_page` is the `hasNext` flag of the page the
  browser shows.
- A loaded page without any result container counts as a wait timeout,
  since the wait looks for such a container.
- Exceptions from `find_elements` itself, and the outer `try` blocks of
  `_parse_products` (amazon_crawler.py:149-165), `_parse_products_advanced`
  (advanced_crawler.py:237-249) and `search_products_advanced`
  (advanced_crawler.py:152-180), are not modelled: every call inside them
  catches its own errors. The outer `try` of `search_products`
  (amazon_crawler.py:112-141) is modelled: its `driver.get` and wait catch
  nothing, so a failed load ends the crawl there with the records gathered
  so far (`BasicCrawl.BasicFrom`, `FirstLoadFails`, `FailureKeepsEarlier`).
- Spreadsheet writing (`save_to_excel*`) and the number formatting of the
  statistics rows (`:.2f`, `:.1f`, `%`).
- Text.Strip: removes the ASCII characters `str.strip()` removes (tab to
  carriage return, 0x1C-0x1F and space); the non-ASCII whitespace it also
  removes (such as U+0085 and U+00A0) is not modelled.
- Text.Lower: only ASCII letters are lowered; Unicode case folding is not
  modelled.
- Text.FirstDecimal, Text.FirstDigitRun: `\d` matches the ASCII digits
  only; Python's `re` also matches the other Unicode decimal digits.
- BasicCrawl.SearchProducts: the caller always gives `max_pages`; the
  default of 5 in the signature (amazon_crawler.py:98) is not modelled.
- Records are maps from columns to values; the key order of the source's
  dicts is not modelled.
- Python's `float()` and `int()` are parameters. NaN is modelled as a
  rejected value, because every comparison with NaN is false, so both
  outcomes agree. Infinities are not representable.
- Statistics.Summarize: prices and ratings are exact reals, so the mean is
  the exact `sum / len`; the rounding of floating-point addition and
  division is not modelled.
- The `else` fallbacks in the basic promotion and delivery extraction, and
  the `if title_elem:` tests, are dead code. A found element is always
  truthy, so these are not modelled.
- The basic `_extract_product_info` never returns None: every lookup in it
  is guarded. `_parse_products` therefore keeps every container.
- `search_products_advanced` ignores its `filters` argument, so the model
  has no such parameter.
- The model returns the URLs loaded as the page URL of each attempt, in
  order. The source computes the URL once per page, before the retries.
- Facts about the code that the model keeps, although a reader might
  expect otherwise:
  - Fallback chains switch on a missing element, not on an empty value.
  - A link, ASIN or image URL can be None instead of `"N/A"`.
  - No record has a search-keyword column.
  - Summaries use only values greater than zero.
  - The basic crawler never retries.
