/** What the crawler sees of a result page: elements, result containers,
    product records, and the outcome of one page-load attempt. The CSS
    selector engine is not modelled: a container is given as the first
    element each selector finds in it. */
module Dom {
  import opened Wrappers
  import opened Text

  /** A page element: its visible text and its attributes (including the
      `innerHTML` property, which Selenium reads like an attribute). */
  datatype Element = Element(text: string, attributes: map<string, string>)

  /** `element.get_attribute(name)`: None when the element has no such attribute. */
  function Attribute(e: Element, name: string): Option<string> {
    if name in e.attributes then Some(e.attributes[name]) else None
  }

  /** One `[data-component-type='s-search-result']` node. `first[sel]` is
      what `container.find_element(By.CSS_SELECTOR, sel)` returns; a
      selector that is not a key raises NoSuchElementException. */
  datatype Container = Container(first: map<string, Element>, attributes: map<string, string>)

  /** A record value: a Python string, or Python's None (what
      `get_attribute` yields for a missing attribute). */
  datatype Value = Str(s: string) | Null

  function AttributeValue(a: Option<string>): Value {
    match a
    case Some(s) => Str(s)
    case None => Null
  }

  /** The record columns (the spreadsheet headers the crawler writes). */
  datatype Column =
    | Name | Link | Price | Rating | Reviews | StoreName | StoreRating
    | Availability | Shipping | Asin | Image | Promotion

  /** The dict key, as the crawler spells it, of each column. */
  function Header(col: Column): string {
    match col
    case Name => "商品名称"
    case Link => "商品链接"
    case Price => "价格"
    case Rating => "评分"
    case Reviews => "评论数"
    case StoreName => "店铺名称"
    case StoreRating => "店铺评分"
    case Availability => "库存状态"
    case Shipping => "配送信息"
    case Asin => "ASIN"
    case Image => "图片URL"
    case Promotion => "促销信息"
  }

  /** A product record: the dict the crawler builds, keyed by column. */
  type Record = map<Column, Value>

  /** `record.get(key, default)`. */
  function FieldOr(r: Record, key: Column, default: string): Value {
    if key in r then r[key] else Str(default)
  }

  const NA := "N/A"

  /** The text field helpers of both crawlers (price, store name,
      availability, shipping; price, promotion, delivery): the stripped text
      of the element the selector finds, or "N/A" when it finds none. */
  function StrippedTextOr(c: Container, selector: string): (r: string)
    ensures selector !in c.first ==> r == NA
    ensures selector in c.first ==> IsStripOf(c.first[selector].text, r)
  {
    if selector in c.first then Strip(c.first[selector].text) else NA
  }

  /** One `driver.get(url)` followed by the wait for the result containers:
      either it fails (navigation error or wait timeout), or the page is
      there with its result containers and with or without an enabled
      `.s-pagination-next` control. */
  datatype Outcome = LoadFailed | Loaded(containers: seq<Container>, hasNext: bool)

  /** The browser's answer to the `n`-th load attempt of a crawl. A script
      that has run out stands for a browser that no longer answers. */
  function OutcomeAt(script: seq<Outcome>, n: nat): Outcome {
    if n < |script| then script[n] else LoadFailed
  }

  /** The wait for `[data-component-type='s-search-result']` succeeds: the
      page loaded and holds at least one result container. A page without
      any is a wait timeout, like a failed load. */
  predicate Ready(o: Outcome) {
    o.Loaded? && |o.containers| > 0
  }

  /** `_has_next_page()`, asked of the page the browser currently shows. */
  predicate HasNextPage(current: Outcome) {
    current.Loaded? && current.hasNext
  }

  /** What a crawl leaves behind: the records, and for every load attempt
      the number of the page it was for. */
  datatype Trace = Trace(products: seq<Record>, pages: seq<nat>)

  /** The records obtained by parsing, in order, every page that became
      ready among the `n` attempts starting at attempt `from`; failed
      attempts give none. */
  function Harvest(script: seq<Outcome>, from: nat, n: nat, parse: seq<Container> -> seq<Record>): seq<Record>
    decreases n
  {
    if n == 0 then []
    else
      Harvest(script, from, n - 1, parse)
      + var o := OutcomeAt(script, from + n - 1);
        if Ready(o) then parse(o.containers) else []
  }

  /** Harvesting two consecutive stretches of attempts is harvesting their union. */
  lemma {:induction false} HarvestSplit(script: seq<Outcome>, from: nat, m: nat, n: nat, parse: seq<Container> -> seq<Record>)
    ensures Harvest(script, from, m + n, parse) == Harvest(script, from, m, parse) + Harvest(script, from + m, n, parse)
    decreases n
  {
    if n > 0 {
      HarvestSplit(script, from, m, n - 1, parse);
    }
  }

  /** A property every record of every parsed page has, every harvested
      record has. */
  lemma {:induction false} HarvestAll(script: seq<Outcome>, from: nat, n: nat, parse: seq<Container> -> seq<Record>,
                                      ok: Record -> bool)
    requires forall cs: seq<Container>, i :: 0 <= i < |parse(cs)| ==> ok(parse(cs)[i])
    ensures forall i :: 0 <= i < |Harvest(script, from, n, parse)| ==> ok(Harvest(script, from, n, parse)[i])
    decreases n
  {
    if n > 0 {
      HarvestAll(script, from, n - 1, parse, ok);
      var prev := Harvest(script, from, n - 1, parse);
      var o := OutcomeAt(script, from + n - 1);
      var added: seq<Record> := if Ready(o) then parse(o.containers) else [];
      assert Harvest(script, from, n, parse) == prev + added;
      forall i | 0 <= i < |prev + added| ensures ok((prev + added)[i]) {
        if i < |prev| {
          assert (prev + added)[i] == prev[i];
        } else {
          assert (prev + added)[i] == added[i - |prev|];
        }
      }
    }
  }
}
