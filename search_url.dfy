/** Search and page URLs of both crawlers. */
module SearchUrl {
  import opened Wrappers
  import opened Text
  import opened Seqs

  const SearchPrefix := "https://www.amazon.com/s?k="

  /** `keyword.replace(' ', '+')`: no other character is escaped. */
  function EncodeKeyword(keyword: string): (r: string)
    ensures |r| == |keyword|
    ensures ' ' !in r
    ensures forall i :: 0 <= i < |r| ==> (r[i] == '+' <==> keyword[i] == ' ' || keyword[i] == '+')
    ensures forall i :: 0 <= i < |r| ==> r[i] == (if keyword[i] == ' ' then '+' else keyword[i])
  {
    ReplaceChar(keyword, ' ', '+')
  }

  /** The unsorted search URL; the basic crawler always uses it. */
  function BaseUrl(keyword: string): string {
    SearchPrefix + EncodeKeyword(keyword)
  }

  /** Reads the keyword back out of a search URL without sort fragment. */
  function KeywordOf(url: string): string
    requires StartsWith(url, SearchPrefix)
  {
    ReplaceChar(url[|SearchPrefix|..], '+', ' ')
  }

  /** A keyword without `+` is recovered from its URL; so two such
      keywords share a URL only when they are equal. */
  lemma BaseUrlRoundTrip(keyword: string)
    requires '+' !in keyword
    ensures StartsWith(BaseUrl(keyword), SearchPrefix)
    ensures KeywordOf(BaseUrl(keyword)) == keyword
  {
    var u := BaseUrl(keyword);
    assert u[..|SearchPrefix|] == SearchPrefix;
    assert u[|SearchPrefix|..] == EncodeKeyword(keyword);
  }

  /** The sort keys the advanced crawler knows. */
  predicate IsSortKey(key: string) {
    key == "relevance" || key == "price_low" || key == "price_high" || key == "rating" || key == "newest"
  }

  /** The query fragment appended for `sort_by`: nothing when `sort_by` is
      None or empty, for "relevance", or for a key not in the table. */
  function SortFragment(sortBy: Option<string>): (r: string)
    ensures r == "" <==> !(sortBy.Some? && IsSortKey(sortBy.value) && sortBy.value != "relevance")
    ensures r != "" ==> StartsWith(r, "&s=")
    ensures sortBy == Some("price_low") ==> r == "&s=price-asc-rank"
    ensures sortBy == Some("price_high") ==> r == "&s=price-desc-rank"
    ensures sortBy == Some("rating") ==> r == "&s=review-rank"
    ensures sortBy == Some("newest") ==> r == "&s=date-desc-rank"
  {
    if sortBy.None? || sortBy.value == "" then ""
    else if sortBy.value == "price_low" then "&s=price-asc-rank"
    else if sortBy.value == "price_high" then "&s=price-desc-rank"
    else if sortBy.value == "rating" then "&s=review-rank"
    else if sortBy.value == "newest" then "&s=date-desc-rank"
    else ""
  }

  /** `_build_search_url`: the base URL followed by the sort fragment. It is
      exactly the unsorted URL unless a non-relevance sort key is given. */
  function BuildSearchUrl(keyword: string, sortBy: Option<string>): (r: string)
    ensures r == BaseUrl(keyword) + SortFragment(sortBy)
    ensures StartsWith(r, BaseUrl(keyword))
    ensures r == BaseUrl(keyword) <==> !(sortBy.Some? && IsSortKey(sortBy.value) && sortBy.value != "relevance")
  {
    var r := BaseUrl(keyword) + SortFragment(sortBy);
    assert r[..|BaseUrl(keyword)|] == BaseUrl(keyword);
    r
  }

  /** The URL of page `page`: the base URL itself for page 1, else the base
      URL followed by `&page=` and the page number. */
  function PageUrl(base: string, page: nat): string {
    if page == 1 then base else base + "&page=" + NatToString(page)
  }

  /** Different pages are fetched at different URLs. */
  lemma PageUrlInjective(base: string, p: nat, q: nat)
    requires PageUrl(base, p) == PageUrl(base, q)
    ensures p == q
  {
    var tag := "&page=";
    if p != 1 && q != 1 {
      var u := PageUrl(base, p);
      var n := |base| + |tag|;
      assert u[n..] == NatToString(p);
      assert PageUrl(base, q)[n..] == NatToString(q);
      NatToStringInjective(p, q);
    }
  }

  /** `PageUrl` for a fixed base URL, as a function value. */
  function PageUrlFor(base: string): nat -> string {
    (page: nat) => PageUrl(base, page)
  }

  /** The URLs of a sequence of page numbers. */
  function PageUrls(base: string, pages: seq<nat>): seq<string> {
    MapSeq(pages, PageUrlFor(base))
  }

  lemma PageUrlsAppend(base: string, a: seq<nat>, b: seq<nat>)
    ensures PageUrls(base, a + b) == PageUrls(base, a) + PageUrls(base, b)
  {
    MapSeqAppend(a, b, PageUrlFor(base));
  }

  /** Retrying a page `n` times loads its URL `n` times. */
  lemma PageUrlsRepeat(base: string, page: nat, n: nat)
    ensures PageUrls(base, Repeat(page, n)) == Repeat(PageUrl(base, page), n)
  {
    MapSeqRepeat(page, n, PageUrlFor(base));
  }
}
