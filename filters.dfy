/** Record filtering of both crawlers. A filter is a conjunction of
    independent checks; a threshold that is absent or falsy (zero, empty
    string) switches its check off, and a value the number parser rejects
    never excludes a record. Python's `float()` and `int()` are given as
    parameters: partial functions from text to numbers. */
module Filters {
  import opened Wrappers
  import opened Text
  import opened Seqs
  import opened Dom

  /** `float(text)` and `int(text)`: None where Python raises. */
  datatype Parsers = Parsers(toFloat: string -> Option<real>, toInt: string -> Option<int>)

  /** The filter dict: None for a key it does not hold. */
  datatype Filters = Filters(
    minPrice: Option<real>, maxPrice: Option<real>, minStoreRating: Option<real>,
    minRating: Option<real>, minReviews: Option<real>,
    storeNameContains: Option<string>, productNameContains: Option<string>)

  /** `"key" in filters and filters["key"]` for a number. */
  predicate Active(t: Option<real>) {
    t.Some? && t.value != 0.0
  }

  /** `"key" in filters and filters["key"]` for a string. */
  predicate ActiveText(t: Option<string>) {
    t.Some? && t.value != ""
  }

  /** No check is switched on. */
  predicate AllInactive(f: Filters) {
    && !Active(f.minPrice) && !Active(f.maxPrice) && !Active(f.minStoreRating)
    && !Active(f.minRating) && !Active(f.minReviews)
    && !ActiveText(f.storeNameContains) && !ActiveText(f.productNameContains)
  }

  /** `not filters`: the empty dict. */
  predicate NoFilters(f: Filters) {
    f == Filters(None, None, None, None, None, None, None)
  }

  /** How one check ends: it passes, it returns False, or it raises out of
      its own `try` into the outer handler (which returns True). */
  datatype Check = Pass | Fail | Raise

  /** The checks run in order: the first that does not pass decides. */
  function Verdict(checks: seq<Check>): bool {
    if checks == [] then true
    else match checks[0]
      case Pass => Verdict(checks[1..])
      case Fail => false
      case Raise => true
  }

  /** A record is kept exactly when every failing check comes after a
      check that raised. */
  lemma {:induction false} VerdictIff(checks: seq<Check>)
    ensures Verdict(checks) <==>
              forall i :: 0 <= i < |checks| && checks[i] == Fail ==>
                exists j :: 0 <= j < i && checks[j] == Raise
  {
    if checks != [] && checks[0] == Pass {
      VerdictIff(checks[1..]);
      if Verdict(checks) {
        forall i | 0 <= i < |checks| && checks[i] == Fail
          ensures exists j :: 0 <= j < i && checks[j] == Raise
        {
          assert checks[1..][i - 1] == Fail;
          var j :| 0 <= j < i - 1 && checks[1..][j] == Raise;
          assert checks[j + 1] == Raise;
        }
      } else {
        var i :| 0 <= i < |checks[1..]| && checks[1..][i] == Fail &&
                 forall j :: 0 <= j < i ==> checks[1..][j] != Raise;
        assert checks[i + 1] == Fail;
        forall j | 0 <= j < i + 1 ensures checks[j] != Raise {
          if j > 0 {
            assert checks[j] == checks[1..][j - 1];
          }
        }
      }
    } else if checks != [] && checks[0] == Fail {
      assert checks[0] == Fail;
    }
  }

  /** Without a raising check, a record is kept exactly when no check fails. */
  lemma NoRaiseVerdict(checks: seq<Check>)
    requires Raise !in checks
    ensures Verdict(checks) <==> Fail !in checks
  {
    VerdictIff(checks);
    if !Verdict(checks) {
      var i :| 0 <= i < |checks| && checks[i] == Fail && !exists j :: 0 <= j < i && checks[j] == Raise;
      assert Fail in checks;
    }
  }

  /** The text a numeric check hands to the parser; None when reading it
      already raises (a missing key in the basic crawler, a None value). */
  function TextOf(v: Value): Option<string> {
    match v
    case Str(s) => Some(s)
    case Null => None
  }

  /** A character the price clean-up keeps: neither `$` nor `,`. */
  predicate KeptInPrice(x: char) {
    x != '$' && x != ','
  }

  /** `.replace("$", "").replace(",", "")` on a price: every `$` and `,`
      removed, every other character kept in order. */
  function PriceText(s: string): (r: string)
    ensures '$' !in r && ',' !in r
    ensures forall c :: c != '$' && c != ',' ==> multiset(r)[c] == multiset(s)[c]
  {
    var once := DeleteChar(s, '$');
    var r := DeleteChar(once, ',');
    assert forall c :: c != '$' && c != ',' ==> multiset(r)[c] == multiset(once)[c];
    assert forall c :: c != '$' && c != ',' ==> multiset(once)[c] == multiset(s)[c];
    assert multiset(r)['$'] == multiset(once)['$'] == 0;
    assert '$' !in multiset(r);
    r
  }

  /** The clean-up keeps the other characters in their order: it is the
      selection of the characters that are neither `$` nor `,`. */
  lemma PriceTextKeepsOrder(s: string)
    ensures PriceText(s) == Select(s, KeptInPrice)
  {
    DeleteCharKeepsOrder(s, '$');
    DeleteCharKeepsOrder(DeleteChar(s, '$'), ',');
    SelectSelect(s, NotChar('$'), NotChar(','), KeptInPrice);
  }

  /** A price without `$` and `,` is read as it is. */
  lemma PriceTextPlain(t: string)
    requires '$' !in t && ',' !in t
    ensures PriceText(t) == t
  {
    PriceTextKeepsOrder(t);
    SelectAll(t, KeptInPrice);
  }

  /** A price written `$` followed by a plain number is read as that number. */
  lemma PriceTextDollar(t: string)
    requires '$' !in t && ',' !in t
    ensures PriceText("$" + t) == t
  {
    DeleteLeading('$', t);
  }

  /** `if value < threshold: return False`, inside its own `try`/`except: pass`. */
  function AtLeast(text: Option<string>, parse: string -> Option<real>, threshold: Option<real>): (c: Check)
    ensures c != Raise
    ensures c == Fail <==> Active(threshold) && text.Some? && parse(text.value).Some?
                           && parse(text.value).value < threshold.value
  {
    if !Active(threshold) || text.None? then Pass
    else match parse(text.value)
      case None => Pass
      case Some(x) => if x < threshold.value then Fail else Pass
  }

  /** `if value > threshold: return False`, inside its own `try`/`except: pass`. */
  function AtMost(text: Option<string>, parse: string -> Option<real>, threshold: Option<real>): (c: Check)
    ensures c != Raise
    ensures c == Fail <==> Active(threshold) && text.Some? && parse(text.value).Some?
                           && parse(text.value).value > threshold.value
  {
    if !Active(threshold) || text.None? then Pass
    else match parse(text.value)
      case None => Pass
      case Some(x) => if x > threshold.value then Fail else Pass
  }

  /** The price parser: the `$` and `,` characters are removed first. */
  function PriceParser(ps: Parsers): string -> Option<real> {
    s => ps.toFloat(PriceText(s))
  }

  /** `int(text)`, compared with the threshold as a number. */
  function CountParser(ps: Parsers): string -> Option<real> {
    s => match ps.toInt(s) case Some(n) => Some(n as real) case None => None
  }

  /** `needle.lower() not in field.lower()`; `.lower()` on None raises
      outside the check's own handler. */
  function ContainsCheck(field: Value, needle: Option<string>): (c: Check)
    ensures c == Raise <==> ActiveText(needle) && field.Null?
    ensures c == Fail <==> ActiveText(needle) && field.Str? && !Contains(Lower(field.s), Lower(needle.value))
  {
    if !ActiveText(needle) then Pass
    else match field
      case Null => Raise
      case Str(s) => if Contains(Lower(s), Lower(needle.value)) then Pass else Fail
  }

  /** The checks of `_meets_advanced_criteria`, in order. A missing price,
      rating or review count reads as "0", a missing store or product name
      as "". */
  function AdvancedChecks(p: Record, f: Filters, ps: Parsers): seq<Check> {
    [ AtLeast(TextOf(FieldOr(p, Price, "0")), PriceParser(ps), f.minPrice),
      AtMost(TextOf(FieldOr(p, Price, "0")), PriceParser(ps), f.maxPrice),
      AtLeast(TextOf(FieldOr(p, StoreRating, "0")), ps.toFloat, f.minStoreRating),
      AtLeast(TextOf(FieldOr(p, Rating, "0")), ps.toFloat, f.minRating),
      AtLeast(TextOf(FieldOr(p, Reviews, "0")), CountParser(ps), f.minReviews),
      ContainsCheck(FieldOr(p, StoreName, ""), f.storeNameContains),
      ContainsCheck(FieldOr(p, Name, ""), f.productNameContains) ]
  }

  /** `_meets_advanced_criteria(product, filters)`. */
  predicate MeetsAdvanced(p: Record, f: Filters, ps: Parsers) {
    Verdict(AdvancedChecks(p, f, ps))
  }

  /** `product[key]` read for a numeric check of the basic crawler: a
      missing key raises inside the check's own `try`. */
  function BasicText(p: Record, key: Column): Option<string> {
    if key in p then TextOf(p[key]) else None
  }

  /** The checks of `_meets_criteria`, in order. */
  function BasicChecks(p: Record, f: Filters, ps: Parsers): seq<Check> {
    [ AtLeast(BasicText(p, Price), PriceParser(ps), f.minPrice),
      AtMost(BasicText(p, Price), PriceParser(ps), f.maxPrice),
      AtLeast(BasicText(p, StoreRating), ps.toFloat, f.minStoreRating),
      AtLeast(BasicText(p, Rating), ps.toFloat, f.minRating),
      AtLeast(BasicText(p, Reviews), CountParser(ps), f.minReviews) ]
  }

  /** `_meets_criteria(product, filters)`. */
  predicate MeetsBasic(p: Record, f: Filters, ps: Parsers) {
    Verdict(BasicChecks(p, f, ps))
  }

  /** The basic criteria are a plain conjunction: a record is kept exactly
      when no numeric check fails (none of them can raise). The text
      filters are not read at all. */
  lemma MeetsBasicIff(p: Record, f: Filters, ps: Parsers)
    ensures MeetsBasic(p, f, ps) <==> Fail !in BasicChecks(p, f, ps)
  {
    NoRaiseVerdict(BasicChecks(p, f, ps));
  }

  /** With every check switched off, every record is kept, by both crawlers. */
  lemma InactiveKeepsAll(p: Record, f: Filters, ps: Parsers)
    requires AllInactive(f)
    ensures MeetsAdvanced(p, f, ps) && MeetsBasic(p, f, ps)
  {
    assert AdvancedChecks(p, f, ps) == [Pass, Pass, Pass, Pass, Pass, Pass, Pass];
    assert BasicChecks(p, f, ps) == [Pass, Pass, Pass, Pass, Pass];
    VerdictIff(AdvancedChecks(p, f, ps));
    VerdictIff(BasicChecks(p, f, ps));
  }

  /** A price the parser rejects never excludes a record: the result is the
      same as with no price bounds at all. */
  lemma UnparsablePriceIgnored(p: Record, f: Filters, ps: Parsers)
    requires Price in p && p[Price].Str? && PriceParser(ps)(p[Price].s).None?
    ensures MeetsAdvanced(p, f, ps) == MeetsAdvanced(p, f.(minPrice := None, maxPrice := None), ps)
    ensures MeetsBasic(p, f, ps) == MeetsBasic(p, f.(minPrice := None, maxPrice := None), ps)
  {
    var g := f.(minPrice := None, maxPrice := None);
    assert AdvancedChecks(p, f, ps) == AdvancedChecks(p, g, ps);
    assert BasicChecks(p, f, ps) == BasicChecks(p, g, ps);
  }

  /** A record without a price: the basic crawler ignores the price bounds,
      while the advanced one reads the price as "0", so a positive minimum
      price excludes the record. */
  lemma MissingPrice(p: Record, f: Filters, ps: Parsers)
    requires Price !in p
    ensures MeetsBasic(p, f, ps) == MeetsBasic(p, f.(minPrice := None, maxPrice := None), ps)
    ensures ps.toFloat("0") == Some(0.0) && Active(f.minPrice) && f.minPrice.value > 0.0 ==>
              !MeetsAdvanced(p, f, ps)
  {
    assert BasicChecks(p, f, ps) == BasicChecks(p, f.(minPrice := None, maxPrice := None), ps);
    if ps.toFloat("0") == Some(0.0) && Active(f.minPrice) && f.minPrice.value > 0.0 {
      var checks := AdvancedChecks(p, f, ps);
      assert FieldOr(p, Price, "0") == Str("0");
      PriceTextPlain("0");
      assert PriceParser(ps)("0") == Some(0.0);
      assert checks[0] == Fail;
    }
  }

  /** Raising the minimum price can only exclude more records. */
  lemma MinPriceMonotone(p: Record, f: Filters, ps: Parsers, low: real, high: real)
    requires low <= high && high != 0.0
    ensures MeetsAdvanced(p, f.(minPrice := Some(high)), ps) ==> MeetsAdvanced(p, f.(minPrice := Some(low)), ps)
    ensures MeetsBasic(p, f.(minPrice := Some(high)), ps) ==> MeetsBasic(p, f.(minPrice := Some(low)), ps)
  {
    var hi := AdvancedChecks(p, f.(minPrice := Some(high)), ps);
    var lo := AdvancedChecks(p, f.(minPrice := Some(low)), ps);
    assert lo[1..] == hi[1..];
    assert hi[0] == Pass ==> lo[0] == Pass;
    var bhi := BasicChecks(p, f.(minPrice := Some(high)), ps);
    var blo := BasicChecks(p, f.(minPrice := Some(low)), ps);
    assert blo[1..] == bhi[1..];
    assert bhi[0] == Pass ==> blo[0] == Pass;
  }

  /** The product-name filter ignores the case of its needle. */
  lemma NameFilterIgnoresCase(p: Record, f: Filters, ps: Parsers, needle: string)
    ensures MeetsAdvanced(p, f.(productNameContains := Some(needle)), ps)
            == MeetsAdvanced(p, f.(productNameContains := Some(Lower(needle))), ps)
  {
    LowerIdempotent(needle);
    assert needle == "" <==> Lower(needle) == "";
    assert AdvancedChecks(p, f.(productNameContains := Some(needle)), ps)
        == AdvancedChecks(p, f.(productNameContains := Some(Lower(needle))), ps);
  }

  /** A record without the store-name column is excluded by an active
      store-name filter once the numeric checks pass. */
  lemma MissingStoreNameExcluded(p: Record, f: Filters, ps: Parsers)
    requires StoreName !in p && ActiveText(f.storeNameContains)
    requires forall k :: 0 <= k < 5 ==> AdvancedChecks(p, f, ps)[k] == Pass
    ensures !MeetsAdvanced(p, f, ps)
  {
    var cs := AdvancedChecks(p, f, ps);
    assert !Contains("", Lower(f.storeNameContains.value));
    assert cs[5] == Fail;
    VerdictIff(cs);
  }

  /** A None store name (not a missing one) makes the advanced criteria
      raise into the outer handler: the record is kept unless an earlier
      numeric check already excluded it. */
  lemma NullStoreNameKeeps(p: Record, f: Filters, ps: Parsers)
    requires StoreName in p && p[StoreName] == Null && ActiveText(f.storeNameContains)
    ensures MeetsAdvanced(p, f, ps) <==> forall k :: 0 <= k < 5 ==> AdvancedChecks(p, f, ps)[k] == Pass
  {
    var cs := AdvancedChecks(p, f, ps);
    assert cs[5] == Raise;
    VerdictIff(cs);
    if forall k :: 0 <= k < 5 ==> cs[k] == Pass {
      assert forall i :: 0 <= i < 5 ==> cs[i] != Fail;
    }
  }

  /** On a record that holds its numeric columns as strings, and with the
      text filters off, both crawlers decide alike. */
  lemma BasicAgreesWithAdvanced(p: Record, f: Filters, ps: Parsers)
    requires forall k :: k in {Price, StoreRating, Rating, Reviews} ==> k in p && p[k].Str?
    requires !ActiveText(f.storeNameContains) && !ActiveText(f.productNameContains)
    ensures MeetsBasic(p, f, ps) == MeetsAdvanced(p, f, ps)
  {
    assert Price in {Price, StoreRating, Rating, Reviews};
    assert StoreRating in {Price, StoreRating, Rating, Reviews};
    assert Rating in {Price, StoreRating, Rating, Reviews};
    assert Reviews in {Price, StoreRating, Rating, Reviews};
    var adv := AdvancedChecks(p, f, ps);
    var basic := BasicChecks(p, f, ps);
    assert adv == basic + [Pass, Pass];
    NoRaiseVerdict(adv);
    NoRaiseVerdict(basic);
  }

  /** A basic record's store rating is "N/A", which `float()` rejects, so a
      minimum store rating never excludes one. */
  lemma StoreRatingNeverExcludesBasic(p: Record, f: Filters, ps: Parsers)
    requires StoreRating in p && p[StoreRating] == Str(NA) && ps.toFloat(NA).None?
    ensures MeetsBasic(p, f, ps) == MeetsBasic(p, f.(minStoreRating := None), ps)
  {
    assert BasicChecks(p, f, ps) == BasicChecks(p, f.(minStoreRating := None), ps);
  }

  /** `filter_products`: the records meeting the basic criteria, in order. */
  method FilterProducts(products: seq<Record>, f: Filters, ps: Parsers) returns (filtered: seq<Record>)
    ensures filtered == Select(products, p => MeetsBasic(p, f, ps))
  {
    filtered := [];
    for i := 0 to |products|
      invariant filtered == Select(products[..i], p => MeetsBasic(p, f, ps))
    {
      SelectExtend(products, i, p => MeetsBasic(p, f, ps));
      if MeetsBasic(products[i], f, ps) {
        filtered := filtered + [products[i]];
      }
    }
    assert products[..|products|] == products;
  }

  /** `filter_products_advanced`: no filters at all return the list itself;
      otherwise the records meeting the advanced criteria, in order. */
  method FilterProductsAdvanced(products: seq<Record>, f: Filters, ps: Parsers) returns (filtered: seq<Record>)
    ensures NoFilters(f) ==> filtered == products
    ensures !NoFilters(f) ==> filtered == Select(products, p => MeetsAdvanced(p, f, ps))
  {
    if NoFilters(f) {
      return products;
    }
    filtered := [];
    for i := 0 to |products|
      invariant filtered == Select(products[..i], p => MeetsAdvanced(p, f, ps))
    {
      SelectExtend(products, i, p => MeetsAdvanced(p, f, ps));
      if MeetsAdvanced(products[i], f, ps) {
        filtered := filtered + [products[i]];
      }
    }
    assert products[..|products|] == products;
  }

  /** The shortcut for no filters changes nothing: filtering is always the
      selection of the records meeting the criteria, each kept as often as
      it occurs. */
  lemma AdvancedFilterIsSelection(products: seq<Record>, f: Filters, ps: Parsers, x: Record)
    requires NoFilters(f)
    ensures Select(products, p => MeetsAdvanced(p, f, ps)) == products
    ensures multiset(Select(products, p => MeetsAdvanced(p, f, ps)))[x] == multiset(products)[x]
  {
    forall p | p in products ensures MeetsAdvanced(p, f, ps) {
      InactiveKeepsAll(p, f, ps);
    }
    SelectAll(products, p => MeetsAdvanced(p, f, ps));
  }
}
