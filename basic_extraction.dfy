/** Record extraction of the basic crawler: every container yields a record
    with the same eleven keys; each field is looked up on its own and falls
    back to "N/A" when its element is missing. */
module BasicExtraction {
  import opened Wrappers
  import opened Text
  import opened Dom
  import opened Seqs

  const TitleSelector := "[data-cy=\"title-recipe\"] a.a-link-normal"
  const FallbackTitleSelector := ".a-text-normal"
  const PriceSelector := ".a-price .a-offscreen"
  const RatingSelector := "i.a-icon-star-small span.a-icon-alt"
  const ReviewsSelector := "span.a-size-base.s-underline-text"
  const ImageSelector := "img.s-image"
  const PromotionSelector := ".a-price.a-text-price .a-offscreen"
  const DeliverySelector := "[data-cy=\"delivery-recipe\"] .a-row.a-size-base.a-color-secondary"

  /** The host prepended to a relative product link. */
  const LinkHost := "https://www.amazon.sg"

  /** Product name and link as the title chain finds them. */
  datatype Title = Title(name: string, url: string)

  /** `get_attribute("href") or "N/A"`, made absolute when it starts with "/". */
  function CompleteUrl(href: Option<string>): (r: string)
    ensures href.None? || href.value == "" ==> r == NA
    ensures href.Some? && StartsWith(href.value, "/") ==> r == LinkHost + href.value
    ensures href.Some? && href.value != "" && !StartsWith(href.value, "/") ==> r == href.value
    ensures !StartsWith(r, "/")
  {
    var url := href.GetOr("");
    var url := if url == "" then NA else url;
    assert !StartsWith(NA, "/") by { assert NA[0] == 'N'; }
    if StartsWith(url, "/") then
      assert (LinkHost + url)[0] == 'h';
      LinkHost + url
    else url
  }

  /** The title chain: the title-recipe link gives name and (completed) link;
      without it the name falls back to the `.a-text-normal` text and the
      link stays "N/A"; without either both are "N/A". */
  function ExtractTitle(c: Container): (t: Title)
    ensures TitleSelector in c.first ==>
              IsStripOf(c.first[TitleSelector].text, t.name)
              && t.url == CompleteUrl(Attribute(c.first[TitleSelector], "href"))
    ensures TitleSelector !in c.first ==> t.url == NA
    ensures TitleSelector !in c.first && FallbackTitleSelector in c.first ==>
              IsStripOf(c.first[FallbackTitleSelector].text, t.name)
    ensures TitleSelector !in c.first && FallbackTitleSelector !in c.first ==> t.name == NA
    ensures !StartsWith(t.url, "/")
  {
    if TitleSelector in c.first then
      var e := c.first[TitleSelector];
      Title(Strip(e.text), CompleteUrl(Attribute(e, "href")))
    else if FallbackTitleSelector in c.first then
      assert !StartsWith(NA, "/") by { assert NA[0] == 'N'; }
      Title(Strip(c.first[FallbackTitleSelector].text), NA)
    else
      assert !StartsWith(NA, "/") by { assert NA[0] == 'N'; }
      Title(NA, NA)
  }

  /** `get_attribute("innerHTML") or element.text`. */
  function RatingText(e: Element): string {
    match Attribute(e, "innerHTML")
    case Some(html) => if html != "" then html else e.text
    case None => e.text
  }

  /** The rating: the first `\d+\.?\d*` match of the rating text, "N/A"
      exactly when there is no element or no digit in its rating text. */
  function ExtractRating(c: Container): (r: string)
    ensures r == NA <==> RatingSelector !in c.first || NoDigit(RatingText(c.first[RatingSelector]))
    ensures r != NA ==> var t := RatingText(c.first[RatingSelector]);
              DecimalMatchAt(t, SkipNonDigits(t, 0), r)
  {
    if RatingSelector !in c.first then NA
    else
      match FirstDecimal(RatingText(c.first[RatingSelector]))
      case None => NA
      case Some(m) =>
        assert m != NA by {
          var d: int :| 1 <= d <= |m| && AllDigits(m[..d]) && (d == |m| || (m[d] == '.' && AllDigits(m[d + 1..])));
          assert IsDigit(m[0]);
        }
        m
  }

  /** The review count: the stripped text with every comma deleted (no
      digit is lost, no comma is left); "N/A" without an element. */
  function ExtractReviews(c: Container): (r: string)
    ensures ReviewsSelector !in c.first ==> r == NA
    ensures ReviewsSelector in c.first ==> r == DeleteChar(Strip(c.first[ReviewsSelector].text), ',')
    ensures ReviewsSelector in c.first ==> ',' !in r && (NoDigit(r) <==> NoDigit(c.first[ReviewsSelector].text))
  {
    if ReviewsSelector !in c.first then NA
    else
      var text := c.first[ReviewsSelector].text;
      StripKeepsDigits(text);
      DeleteCharKeepsDigits(Strip(text), ',');
      DeleteChar(Strip(text), ',')
  }

  /** The image URL: the `src` of the image (None without one), "N/A" without an image. */
  function ExtractImage(c: Container): Value {
    if ImageSelector in c.first then AttributeValue(Attribute(c.first[ImageSelector], "src")) else Str(NA)
  }

  /** The eleven columns of a basic record. */
  const BasicKeys: set<Column> := {
    Name, Link, Price, Rating, Reviews, Asin, Image,
    Promotion, Shipping, StoreName, StoreRating
  }

  /** No value other than the ASIN and the image URL is None. */
  predicate OnlyAttributesMayBeNull(r: Record) {
    forall k :: k in r && k != Asin && k != Image ==> r[k].Str?
  }

  /** The eleven values of the record literal of `_extract_product_info`. */
  datatype BasicFields = BasicFields(
    name: string, url: string, price: string, rating: string, reviews: string,
    asin: Value, image: Value, promotion: string, delivery: string)

  /** The value the record literal pairs with column `k`; the store columns
      are the constants "Amazon" and "N/A". */
  function BasicValue(v: BasicFields, k: Column): Value {
    match k
    case Name => Str(v.name)
    case Link => Str(v.url)
    case Price => Str(v.price)
    case Rating => Str(v.rating)
    case Reviews => Str(v.reviews)
    case Asin => v.asin
    case Image => v.image
    case Promotion => Str(v.promotion)
    case Shipping => Str(v.delivery)
    case StoreName => Str("Amazon")
    case StoreRating => Str(NA)
    case Availability => Null
  }

  /** The record literal of `_extract_product_info`, from its field values. */
  function BasicRecord(v: BasicFields): (r: Record)
    ensures r.Keys == BasicKeys
    ensures r[StoreName] == Str("Amazon") && r[StoreRating] == Str(NA)
    ensures OnlyAttributesMayBeNull(r)
    ensures r[Name] == Str(v.name) && r[Link] == Str(v.url) && r[Price] == Str(v.price)
    ensures r[Rating] == Str(v.rating) && r[Reviews] == Str(v.reviews)
    ensures r[Asin] == v.asin && r[Image] == v.image
    ensures r[Promotion] == Str(v.promotion) && r[Shipping] == Str(v.delivery)
  {
    map k | k in BasicKeys :: BasicValue(v, k)
  }

  /** `_extract_product_info`: every container gives a record with the same
      eleven keys. Name and link come from the title chain, price, promotion
      and delivery are stripped element texts, rating and reviews come from
      their helpers, ASIN and image URL are attributes (None when missing).
      The store is always "Amazon" with rating "N/A". */
  function ExtractProductInfo(c: Container): (r: Record)
    ensures r.Keys == BasicKeys
    ensures r[StoreName] == Str("Amazon") && r[StoreRating] == Str(NA)
    ensures OnlyAttributesMayBeNull(r)
    ensures r[Name] == Str(ExtractTitle(c).name) && r[Link] == Str(ExtractTitle(c).url)
    ensures r[Price] == Str(StrippedTextOr(c, PriceSelector))
    ensures r[Rating] == Str(ExtractRating(c)) && r[Reviews] == Str(ExtractReviews(c))
    ensures r[Asin] == (if "data-asin" in c.attributes then Str(c.attributes["data-asin"]) else Null)
    ensures r[Image] == ExtractImage(c)
    ensures r[Promotion] == Str(StrippedTextOr(c, PromotionSelector))
    ensures r[Shipping] == Str(StrippedTextOr(c, DeliverySelector))
  {
    var title := ExtractTitle(c);
    BasicRecord(BasicFields(
      title.name, title.url,
      StrippedTextOr(c, PriceSelector), ExtractRating(c), ExtractReviews(c),
      AttributeValue(if "data-asin" in c.attributes then Some(c.attributes["data-asin"]) else None),
      ExtractImage(c),
      StrippedTextOr(c, PromotionSelector), StrippedTextOr(c, DeliverySelector)))
  }

  /** The records of a page: one per container, in container order. */
  function Parsed(cs: seq<Container>): seq<Record> {
    MapSeq(cs, ExtractProductInfo)
  }

  /** `_parse_products` over the containers the page holds: one record per
      container, in container order. */
  method ParseProducts(containers: seq<Container>) returns (products: seq<Record>)
    ensures products == Parsed(containers)
    ensures |products| == |containers|
    ensures forall i :: 0 <= i < |products| ==> products[i] == ExtractProductInfo(containers[i])
  {
    products := [];
    for i := 0 to |containers|
      invariant products == MapSeq(containers[..i], ExtractProductInfo)
    {
      MapSeqExtend(containers, i, ExtractProductInfo);
      products := products + [ExtractProductInfo(containers[i])];
    }
    assert containers[..|containers|] == containers;
  }
}
