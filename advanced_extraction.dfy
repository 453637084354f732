/** Record extraction of the advanced crawler: one field helper per column,
    each degrading to "N/A" instead of failing, a record per container that
    has the title link, and the append loop over a page's containers. */
module AdvancedExtraction {
  import opened Wrappers
  import opened Text
  import opened Dom
  import opened Config
  import opened Seqs

  const LinkSelector := "h2 a"
  const PriceSelector := ".a-price-whole"
  const RatingSelector := "i.a-icon-star-small .a-icon-alt"
  const ReviewsSelector := "span[aria-label*='stars'] + span"
  const StoreNameSelector := ".a-row .a-size-base"
  const StoreRatingSelector := ".a-row .a-icon-alt"
  const AvailabilitySelector := ".a-color-success"
  const ShippingSelector := ".a-color-secondary"

  function ExtractPrice(c: Container): string {
    StrippedTextOr(c, PriceSelector)
  }

  function ExtractStoreName(c: Container): string {
    StrippedTextOr(c, StoreNameSelector)
  }

  function ExtractAvailability(c: Container): string {
    StrippedTextOr(c, AvailabilitySelector)
  }

  function ExtractShipping(c: Container): string {
    StrippedTextOr(c, ShippingSelector)
  }

  /** The element's `innerHTML`, when the selector finds an element that has one. */
  function InnerHtml(c: Container, selector: string): Option<string> {
    if selector in c.first then Attribute(c.first[selector], "innerHTML") else None
  }

  /** The rating helpers (`_extract_rating`, `_extract_store_rating`): the
      first `\d+\.?\d*` match in the element's innerHTML. "N/A" exactly when
      there is no element, no innerHTML, or no digit in it. */
  function DecimalInInnerHtml(c: Container, selector: string): (r: string)
    ensures r == NA <==> InnerHtml(c, selector).None? || NoDigit(InnerHtml(c, selector).value)
    ensures r != NA ==> var html := InnerHtml(c, selector).value;
              DecimalMatchAt(html, SkipNonDigits(html, 0), r)
  {
    match InnerHtml(c, selector)
    case None => NA
    case Some(html) =>
      match FirstDecimal(html)
      case None => NA
      case Some(m) =>
        assert m != NA by {
          var d: int :| 1 <= d <= |m| && AllDigits(m[..d]) && (d == |m| || (m[d] == '.' && AllDigits(m[d + 1..])));
          assert IsDigit(m[0]);
        }
        m
  }

  function ExtractRating(c: Container): string {
    DecimalInInnerHtml(c, RatingSelector)
  }

  function ExtractStoreRating(c: Container): string {
    DecimalInInnerHtml(c, StoreRatingSelector)
  }

  /** `_extract_reviews`: the first run of digits of the stripped text once
      its thousands separators are deleted. "N/A" exactly when there is no
      element or its text holds no digit at all. */
  function ExtractReviews(c: Container): (r: string)
    ensures r == NA <==> ReviewsSelector !in c.first || NoDigit(c.first[ReviewsSelector].text)
    ensures r != NA ==> |r| >= 1 && AllDigits(r)
    ensures r != NA ==>
              (ReviewsSelector in c.first
               && FirstDigitRun(DeleteChar(Strip(c.first[ReviewsSelector].text), ',')) == Some(r))
  {
    if ReviewsSelector !in c.first then NA
    else
      var text := c.first[ReviewsSelector].text;
      StripKeepsDigits(text);
      DeleteCharKeepsDigits(Strip(text), ',');
      match FirstDigitRun(DeleteChar(Strip(text), ','))
      case None => NA
      case Some(m) => assert IsDigit(m[0]); m
  }

  /** The keys of a record built under `flags`: name and link always, each
      optional column exactly when its flag is on. */
  function AdvancedKeys(flags: ExtractionFlags): set<Column> {
    var k := {Name, Link};
    var k := KeysWith(k, flags.price, Price);
    var k := KeysWith(k, flags.rating, Rating);
    var k := KeysWith(k, flags.reviews, Reviews);
    var k := KeysWith(k, flags.storeName, StoreName);
    var k := KeysWith(k, flags.storeRating, StoreRating);
    var k := KeysWith(k, flags.availability, Availability);
    KeysWith(k, flags.shipping, Shipping)
  }

  /** `keys` with `key` added when `on`. */
  function KeysWith(keys: set<Column>, on: bool, key: Column): set<Column> {
    if on then keys + {key} else keys
  }

  /** A column is in the record exactly when it is the name or the link or
      its flag is on. */
  lemma AdvancedKeysMembers(flags: ExtractionFlags, k: Column)
    ensures k in AdvancedKeys(flags) <==>
              || k == Name || k == Link
              || (k == Price && flags.price) || (k == Rating && flags.rating)
              || (k == Reviews && flags.reviews) || (k == StoreName && flags.storeName)
              || (k == StoreRating && flags.storeRating) || (k == Availability && flags.availability)
              || (k == Shipping && flags.shipping)
  {
  }

  /** No value other than the link is None. */
  predicate OnlyLinkMayBeNull(r: Record) {
    forall k :: k in r && k != Link ==> r[k].Str?
  }

  /** One `if extraction_config.get(flag): product_info[key] = value` step. */
  function WithField(r: Record, on: bool, key: Column, value: string): (r': Record)
    ensures r'.Keys == KeysWith(r.Keys, on, key)
    ensures key != Link && OnlyLinkMayBeNull(r) ==> OnlyLinkMayBeNull(r')
  {
    if on then r[key := Str(value)] else r
  }

  /** When `on`, the record holds `value` under `key`. */
  predicate Carries(r: Record, on: bool, key: Column, value: string) {
    on ==> key in r && r[key] == Str(value)
  }

  /** One flagged assignment holds its value when its flag is on, and keeps
      every other column. */
  lemma WithFieldStep(r: Record, on: bool, key: Column, value: string)
    ensures Carries(WithField(r, on, key, value), on, key, value)
    ensures forall k :: k in r && k != key ==> k in WithField(r, on, key, value) && WithField(r, on, key, value)[k] == r[k]
  {
  }

  /** The seven flagged assignments of `_extract_product_info_advanced`, one
      after the other, keep the name and the link and leave each flagged
      column holding its own value. */
  lemma WithFieldsCarry(r0: Record, flags: ExtractionFlags, price: string, rating: string,
                        reviews: string, storeName: string, storeRating: string,
                        availability: string, shipping: string)
    requires Name in r0 && Link in r0
    ensures var r1 := WithField(r0, flags.price, Price, price);
            var r2 := WithField(r1, flags.rating, Rating, rating);
            var r3 := WithField(r2, flags.reviews, Reviews, reviews);
            var r4 := WithField(r3, flags.storeName, StoreName, storeName);
            var r5 := WithField(r4, flags.storeRating, StoreRating, storeRating);
            var r6 := WithField(r5, flags.availability, Availability, availability);
            var r7 := WithField(r6, flags.shipping, Shipping, shipping);
            && r7[Name] == r0[Name] && r7[Link] == r0[Link]
            && Carries(r7, flags.price, Price, price)
            && Carries(r7, flags.rating, Rating, rating)
            && Carries(r7, flags.reviews, Reviews, reviews)
            && Carries(r7, flags.storeName, StoreName, storeName)
            && Carries(r7, flags.storeRating, StoreRating, storeRating)
            && Carries(r7, flags.availability, Availability, availability)
            && Carries(r7, flags.shipping, Shipping, shipping)
  {
    var r1 := WithField(r0, flags.price, Price, price);
    WithFieldStep(r0, flags.price, Price, price);
    var r2 := WithField(r1, flags.rating, Rating, rating);
    WithFieldStep(r1, flags.rating, Rating, rating);
    var r3 := WithField(r2, flags.reviews, Reviews, reviews);
    WithFieldStep(r2, flags.reviews, Reviews, reviews);
    var r4 := WithField(r3, flags.storeName, StoreName, storeName);
    WithFieldStep(r3, flags.storeName, StoreName, storeName);
    var r5 := WithField(r4, flags.storeRating, StoreRating, storeRating);
    WithFieldStep(r4, flags.storeRating, StoreRating, storeRating);
    var r6 := WithField(r5, flags.availability, Availability, availability);
    WithFieldStep(r5, flags.availability, Availability, availability);
    WithFieldStep(r6, flags.shipping, Shipping, shipping);
  }

  /** `_extract_product_info_advanced`: None exactly when the container has no
      `h2 a` link (the only lookup that is not guarded); otherwise a record
      with the keys the flags select, where only the link can be None. */
  function ExtractProductInfoAdvanced(c: Container, flags: ExtractionFlags): (r: Option<Record>)
    ensures r.Some? <==> LinkSelector in c.first
    ensures r.Some? ==> r.value.Keys == AdvancedKeys(flags)
    ensures r.Some? ==> OnlyLinkMayBeNull(r.value)
  {
    if LinkSelector !in c.first then None
    else
      var link := c.first[LinkSelector];
      var r0 := map[Name := Str(Strip(link.text)), Link := AttributeValue(Attribute(link, "href"))];
      assert r0.Keys == {Name, Link};
      assert OnlyLinkMayBeNull(r0);
      var r1 := WithField(r0, flags.price, Price, ExtractPrice(c));
      var r2 := WithField(r1, flags.rating, Rating, ExtractRating(c));
      var r3 := WithField(r2, flags.reviews, Reviews, ExtractReviews(c));
      var r4 := WithField(r3, flags.storeName, StoreName, ExtractStoreName(c));
      var r5 := WithField(r4, flags.storeRating, StoreRating, ExtractStoreRating(c));
      var r6 := WithField(r5, flags.availability, Availability, ExtractAvailability(c));
      var r7 := WithField(r6, flags.shipping, Shipping, ExtractShipping(c));
      Some(r7)
  }

  /** The values of an extracted record: the stripped link text as name, its
      `href` as link, and under each flagged column the value of its field
      helper. */
  lemma ExtractedValues(c: Container, flags: ExtractionFlags)
    requires LinkSelector in c.first
    ensures var r := ExtractProductInfoAdvanced(c, flags).value;
            var link := c.first[LinkSelector];
            && r[Name] == Str(Strip(link.text))
            && r[Link] == AttributeValue(Attribute(link, "href"))
            && Carries(r, flags.price, Price, ExtractPrice(c))
            && Carries(r, flags.rating, Rating, ExtractRating(c))
            && Carries(r, flags.reviews, Reviews, ExtractReviews(c))
            && Carries(r, flags.storeName, StoreName, ExtractStoreName(c))
            && Carries(r, flags.storeRating, StoreRating, ExtractStoreRating(c))
            && Carries(r, flags.availability, Availability, ExtractAvailability(c))
            && Carries(r, flags.shipping, Shipping, ExtractShipping(c))
  {
    var link := c.first[LinkSelector];
    var r0 := map[Name := Str(Strip(link.text)), Link := AttributeValue(Attribute(link, "href"))];
    WithFieldsCarry(r0, flags, ExtractPrice(c), ExtractRating(c), ExtractReviews(c), ExtractStoreName(c),
                    ExtractStoreRating(c), ExtractAvailability(c), ExtractShipping(c));
  }

  /** `_extract_product_info_advanced` under fixed flags, as a function value. */
  function Extractor(flags: ExtractionFlags): Container -> Option<Record> {
    c => ExtractProductInfoAdvanced(c, flags)
  }

  /** The records of a page: one per container that yields one, in container order. */
  function ParsedAdvanced(cs: seq<Container>, flags: ExtractionFlags): (r: seq<Record>)
    ensures |r| <= |cs|
    ensures forall i :: 0 <= i < |r| ==> r[i].Keys == AdvancedKeys(flags)
  {
    FilterMapIndices(cs, Extractor(flags));
    FilterMap(cs, Extractor(flags))
  }

  /** Parsing keeps exactly the containers that have the title link, in
      order: the j-th record comes from the j-th such container. */
  lemma ParsedAdvancedKeepsLinked(cs: seq<Container>, flags: ExtractionFlags)
    ensures var linked := SomeIndices(cs, Extractor(flags));
            && |ParsedAdvanced(cs, flags)| == |linked|
            && (forall j :: 0 <= j < |linked| ==>
                  LinkSelector in cs[linked[j]].first
                  && ParsedAdvanced(cs, flags)[j] == ExtractProductInfoAdvanced(cs[linked[j]], flags).value)
            && (forall i :: 0 <= i < |cs| && LinkSelector in cs[i].first ==> i in linked)
  {
    FilterMapIndices(cs, Extractor(flags));
  }

  /** A page whose every container has the title link yields one record per container. */
  lemma ParsedAdvancedAllLinked(cs: seq<Container>, flags: ExtractionFlags)
    requires forall i :: 0 <= i < |cs| ==> LinkSelector in cs[i].first
    ensures |ParsedAdvanced(cs, flags)| == |cs|
  {
    FilterMapTotal(cs, Extractor(flags));
  }

  /** `_parse_products_advanced` over the containers the page holds. */
  method ParseProductsAdvanced(containers: seq<Container>, flags: ExtractionFlags) returns (products: seq<Record>)
    ensures products == ParsedAdvanced(containers, flags)
    ensures |products| <= |containers|
    ensures forall i :: 0 <= i < |products| ==> products[i].Keys == AdvancedKeys(flags)
  {
    products := [];
    for i := 0 to |containers|
      invariant products == FilterMap(containers[..i], Extractor(flags))
    {
      assert containers[..i + 1][..i] == containers[..i];
      var info := ExtractProductInfoAdvanced(containers[i], flags);
      if info.Some? {
        products := products + [info.value];
      }
    }
    assert containers[..|containers|] == containers;
  }
}
