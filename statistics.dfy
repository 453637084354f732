/** The statistics sheet of the advanced crawler: a summary row for the
    positive prices and one for the positive ratings, each left out when
    there is no such value, then up to five rows for the stores with the
    most products. Number formatting is not modelled. */
module Statistics {
  import opened Wrappers
  import opened Seqs
  import opened Dom
  import opened Filters

  // ---------------------------------------------------------------- summaries

  /** A parsed value counts only when it is strictly positive. */
  function Positive(x: Option<real>): (r: Option<real>)
    ensures r.Some? <==> x.Some? && x.value > 0.0
    ensures r.Some? ==> r.value == x.value
  {
    match x
    case Some(v) => if v > 0.0 then Some(v) else None
    case None => None
  }

  /** `float(product.get("价格", "0").replace("$", "").replace(",", ""))`
      when it parses and is positive; a None price raises and is skipped. */
  function PriceValue(ps: Parsers): Record -> Option<real> {
    p => match TextOf(FieldOr(p, Price, "0"))
         case Some(t) => Positive(ps.toFloat(PriceText(t)))
         case None => None
  }

  /** `float(product.get("评分", "0"))` when it parses and is positive. */
  function RatingValue(ps: Parsers): Record -> Option<real> {
    p => match TextOf(FieldOr(p, Rating, "0"))
         case Some(t) => Positive(ps.toFloat(t))
         case None => None
  }

  /** `sum(values)`, adding left to right. */
  function Sum(s: seq<real>): real {
    if s == [] then 0.0 else Sum(s[..|s| - 1]) + s[|s| - 1]
  }

  /** The sum of a concatenation is the sum of the sums of its parts. */
  lemma {:induction false} SumAppend(a: seq<real>, b: seq<real>)
    ensures Sum(a + b) == Sum(a) + Sum(b)
    decreases |b|
  {
    if b == [] {
      assert a + b == a;
    } else {
      var init := b[..|b| - 1];
      assert (a + b)[..|a + b| - 1] == a + init;
      SumAppend(a, init);
    }
  }

  /** `min(values)`. */
  function Min(s: seq<real>): (m: real)
    requires |s| > 0
    ensures m in s
    ensures forall i :: 0 <= i < |s| ==> m <= s[i]
  {
    var n := |s| - 1;
    if n == 0 then s[0]
    else
      var m := Min(s[..n]);
      assert forall i :: 0 <= i < n ==> s[..n][i] == s[i];
      if s[n] < m then s[n] else m
  }

  /** `max(values)`. */
  function Max(s: seq<real>): (m: real)
    requires |s| > 0
    ensures m in s
    ensures forall i :: 0 <= i < |s| ==> s[i] <= m
  {
    var n := |s| - 1;
    if n == 0 then s[0]
    else
      var m := Max(s[..n]);
      assert forall i :: 0 <= i < n ==> s[..n][i] == s[i];
      if s[n] > m then s[n] else m
  }

  /** A sum of values between `lo` and `hi` lies between `|s| * lo` and `|s| * hi`. */
  lemma {:induction false} SumBetween(s: seq<real>, lo: real, hi: real)
    requires forall i :: 0 <= i < |s| ==> lo <= s[i] <= hi
    ensures |s| as real * lo <= Sum(s) <= |s| as real * hi
    decreases |s|
  {
    if s != [] {
      var n := |s| - 1;
      assert forall i :: 0 <= i < n ==> s[..n][i] == s[i];
      SumBetween(s[..n], lo, hi);
      assert |s| as real * lo == n as real * lo + lo;
      assert |s| as real * hi == n as real * hi + hi;
    }
  }

  /** A total of `n` values between `lo` and `hi`, divided by `n`, lies
      between `lo` and `hi`. */
  lemma MeanBetween(total: real, n: nat, lo: real, hi: real)
    requires n > 0 && n as real * lo <= total <= n as real * hi
    ensures lo <= total / n as real <= hi
  {
    var d := n as real;
    assert total / d - lo == (total - d * lo) / d;
    assert hi - total / d == (d * hi - total) / d;
  }

  /** The mean of values between `lo` and `hi` lies between them. */
  lemma MeanOfBetween(s: seq<real>, lo: real, hi: real)
    requires |s| > 0 && forall i :: 0 <= i < |s| ==> lo <= s[i] <= hi
    ensures lo <= Sum(s) / |s| as real <= hi
  {
    SumBetween(s, lo, hi);
    MeanBetween(Sum(s), |s|, lo, hi);
  }

  /** A row of the sheet: a summary (`统计项`, minimum, maximum, mean), or
      a "热门店铺" row (store, product count, share of all products in percent). */
  datatype Row =
    | Summary(item: string, low: real, high: real, mean: real)
    | TopStore(store: Value, count: nat, percent: real)

  /** The summary of a non-empty list: its minimum and its maximum, which
      are values of the list bounding all others, and its mean
      `sum(values) / len(values)`, which lies between them. */
  function Summarize(item: string, s: seq<real>): (r: Row)
    requires |s| > 0
    ensures r.Summary? && r.item == item
    ensures r.low in s && r.high in s
    ensures forall i :: 0 <= i < |s| ==> r.low <= s[i] <= r.high
    ensures r.mean == Sum(s) / |s| as real
    ensures r.low <= r.mean <= r.high
  {
    var lo, hi := Min(s), Max(s);
    MeanOfBetween(s, lo, hi);
    Summary(item, lo, hi, Sum(s) / |s| as real)
  }

  const PriceItem := "价格统计"
  const RatingItem := "评分统计"

  /** The summary row for `values`, or none when the list is empty. */
  function SummaryRows(item: string, values: seq<real>): (rows: seq<Row>)
    ensures |rows| == if values == [] then 0 else 1
    ensures values != [] ==> rows == [Summarize(item, values)]
  {
    if values == [] then [] else [Summarize(item, values)]
  }

  // ---------------------------------------------------------------- store tally

  /** A store and the number of products it has. */
  datatype StoreCount = StoreCount(store: Value, count: nat)

  /** `product.get("店铺名称", "未知")`. */
  function StoreOf(p: Record): (s: Value)
    ensures StoreName !in p ==> s == Str("未知")
    ensures StoreName in p ==> s == p[StoreName]
  {
    FieldOr(p, StoreName, "未知")
  }

  /** The store of every product, in order. */
  function Stores(products: seq<Record>): seq<Value> {
    MapSeq(products, StoreOf)
  }

  /** `stores[store] = stores.get(store, 0) + 1` on a dict kept as the list
      of its entries in insertion order. */
  function Bump(t: seq<StoreCount>, s: Value): seq<StoreCount> {
    if t == [] then [StoreCount(s, 1)]
    else if t[0].store == s then [StoreCount(s, t[0].count + 1)] + t[1..]
    else [t[0]] + Bump(t[1..], s)
  }

  /** `stores.get(s, 0)`. */
  function CountOf(t: seq<StoreCount>, s: Value): nat {
    if t == [] then 0
    else if t[0].store == s then t[0].count
    else CountOf(t[1..], s)
  }

  /** `sum(stores.values())`. */
  function Total(t: seq<StoreCount>): nat {
    if t == [] then 0 else t[0].count + Total(t[1..])
  }

  /** The dict after counting every store of the list, in order. */
  function Tally(stores: seq<Value>): seq<StoreCount> {
    if stores == [] then []
    else Bump(Tally(stores[..|stores| - 1]), stores[|stores| - 1])
  }

  /** Each store is listed once. */
  predicate Distinct(t: seq<StoreCount>) {
    forall i, j :: 0 <= i < j < |t| ==> t[i].store != t[j].store
  }

  /** Every listed count is positive. */
  predicate Counted(t: seq<StoreCount>) {
    forall i :: 0 <= i < |t| ==> t[i].count > 0
  }

  /** The store is listed. */
  predicate Listed(t: seq<StoreCount>, s: Value) {
    exists i :: 0 <= i < |t| && t[i].store == s
  }

  lemma {:induction false} BumpCount(t: seq<StoreCount>, s: Value, x: Value)
    ensures CountOf(Bump(t, s), x) == CountOf(t, x) + (if x == s then 1 else 0)
    decreases |t|
  {
    if t != [] && t[0].store != s {
      BumpCount(t[1..], s, x);
    }
  }

  lemma {:induction false} BumpTotal(t: seq<StoreCount>, s: Value)
    ensures Total(Bump(t, s)) == Total(t) + 1
    decreases |t|
  {
    if t != [] && t[0].store != s {
      BumpTotal(t[1..], s);
    }
  }

  lemma {:induction false} BumpListed(t: seq<StoreCount>, s: Value, x: Value)
    ensures Listed(Bump(t, s), x) <==> Listed(t, x) || x == s
    decreases |t|
  {
    var b := Bump(t, s);
    if t == [] {
      assert b[0].store == s;
    } else if t[0].store == s {
      assert b[0].store == s;
      assert forall i :: 1 <= i < |t| ==> b[i] == t[i];
      if Listed(t, x) {
        var i :| 0 <= i < |t| && t[i].store == x;
        assert b[i].store == x;
      }
      if Listed(b, x) {
        var i :| 0 <= i < |b| && b[i].store == x;
        assert t[i].store == x;
      }
    } else {
      BumpListed(t[1..], s, x);
      assert b == [t[0]] + Bump(t[1..], s);
      if Listed(t, x) {
        var i :| 0 <= i < |t| && t[i].store == x;
        if i > 0 {
          assert t[1..][i - 1].store == x;
          var k :| 0 <= k < |Bump(t[1..], s)| && Bump(t[1..], s)[k].store == x;
          assert b[k + 1].store == x;
        } else {
          assert b[0].store == x;
        }
      }
      if x == s {
        var k :| 0 <= k < |Bump(t[1..], s)| && Bump(t[1..], s)[k].store == x;
        assert b[k + 1].store == x;
      }
      if Listed(b, x) {
        var i :| 0 <= i < |b| && b[i].store == x;
        if i > 0 {
          assert Bump(t[1..], s)[i - 1].store == x;
          if Listed(t[1..], x) {
            var k :| 0 <= k < |t[1..]| && t[1..][k].store == x;
            assert t[k + 1].store == x;
          }
        } else {
          assert t[0].store == x;
        }
      }
    }
  }

  lemma {:induction false} BumpKeepsShape(t: seq<StoreCount>, s: Value)
    requires Distinct(t) && Counted(t)
    ensures Distinct(Bump(t, s)) && Counted(Bump(t, s))
    decreases |t|
  {
    var b := Bump(t, s);
    if t != [] && t[0].store != s {
      BumpKeepsShape(t[1..], s);
      assert b == [t[0]] + Bump(t[1..], s);
      forall k | 0 <= k < |Bump(t[1..], s)| ensures Bump(t[1..], s)[k].store != t[0].store {
        var x := Bump(t[1..], s)[k].store;
        BumpListed(t[1..], s, x);
        assert Listed(Bump(t[1..], s), x);
        if Listed(t[1..], x) {
          var i :| 0 <= i < |t[1..]| && t[1..][i].store == x;
          assert t[i + 1].store == x;
        }
      }
    }
  }

  /** The tally counts each store as often as it occurs, lists exactly the
      stores that occur, each once and with a positive count, and its
      counts add up to the number of products. */
  lemma {:induction false} TallyCorrect(stores: seq<Value>)
    ensures forall x :: CountOf(Tally(stores), x) == multiset(stores)[x]
    ensures forall x :: Listed(Tally(stores), x) <==> x in stores
    ensures Distinct(Tally(stores)) && Counted(Tally(stores))
    ensures Total(Tally(stores)) == |stores|
    decreases |stores|
  {
    if stores != [] {
      var n := |stores| - 1;
      var init := stores[..n];
      assert stores == init + [stores[n]];
      TallyCorrect(init);
      var t := Tally(init);
      forall x ensures CountOf(Tally(stores), x) == multiset(stores)[x] {
        BumpCount(t, stores[n], x);
      }
      forall x ensures Listed(Tally(stores), x) <==> x in stores {
        BumpListed(t, stores[n], x);
      }
      BumpKeepsShape(t, stores[n]);
      BumpTotal(t, stores[n]);
    }
  }

  // ---------------------------------------------------------------- stable sort

  /** Counts never increase along the list. */
  predicate ByCount(t: seq<StoreCount>) {
    forall i, j :: 0 <= i < j < |t| ==> t[i].count >= t[j].count
  }

  /** Puts `x` after the entries whose count exceeds its own and before
      the rest. */
  function InsertByCount(x: StoreCount, t: seq<StoreCount>): seq<StoreCount> {
    if t == [] then [x]
    else if t[0].count > x.count then [t[0]] + InsertByCount(x, t[1..])
    else [x] + t
  }

  /** `sorted(entries, key=count, reverse=True)`: an insertion sort that
      keeps entries of equal count in their original order. */
  function SortByCount(t: seq<StoreCount>): seq<StoreCount> {
    if t == [] then [] else InsertByCount(t[0], SortByCount(t[1..]))
  }

  /** The entries with count `c`, in order. */
  function WithCount(t: seq<StoreCount>, c: nat): seq<StoreCount> {
    if t == [] then []
    else (if t[0].count == c then [t[0]] else []) + WithCount(t[1..], c)
  }

  lemma {:induction false} InsertMultiset(x: StoreCount, t: seq<StoreCount>)
    ensures multiset(InsertByCount(x, t)) == multiset{x} + multiset(t)
    decreases |t|
  {
    if t != [] && t[0].count > x.count {
      InsertMultiset(x, t[1..]);
      assert t == [t[0]] + t[1..];
    }
  }

  lemma {:induction false} InsertSorted(x: StoreCount, t: seq<StoreCount>)
    requires ByCount(t)
    ensures ByCount(InsertByCount(x, t))
    decreases |t|
  {
    if t != [] && t[0].count > x.count {
      var rest := InsertByCount(x, t[1..]);
      InsertSorted(x, t[1..]);
      InsertMultiset(x, t[1..]);
      forall k | 0 <= k < |rest| ensures t[0].count >= rest[k].count {
        assert rest[k] in multiset{x} + multiset(t[1..]);
        if rest[k] in t[1..] {
          var m :| 0 <= m < |t[1..]| && t[1..][m] == rest[k];
          assert t[m + 1] == rest[k];
        }
      }
    }
  }

  /** Inserting `x` puts it first among the entries of its count. */
  lemma {:induction false} InsertStable(x: StoreCount, t: seq<StoreCount>, c: nat)
    ensures WithCount(InsertByCount(x, t), c) == (if x.count == c then [x] else []) + WithCount(t, c)
    decreases |t|
  {
    if t != [] && t[0].count > x.count {
      InsertStable(x, t[1..], c);
      var rest := InsertByCount(x, t[1..]);
      assert ([t[0]] + rest)[1..] == rest;
    } else if t != [] {
      assert ([x] + t)[1..] == t;
    }
  }

  /** The sort orders by non-increasing count. */
  lemma {:induction false} SortSorted(t: seq<StoreCount>)
    ensures ByCount(SortByCount(t))
    decreases |t|
  {
    if t != [] {
      SortSorted(t[1..]);
      InsertSorted(t[0], SortByCount(t[1..]));
    }
  }

  /** The sort keeps every entry as often as it occurs. */
  lemma {:induction false} SortPermutes(t: seq<StoreCount>)
    ensures multiset(SortByCount(t)) == multiset(t)
    decreases |t|
  {
    if t != [] {
      SortPermutes(t[1..]);
      InsertMultiset(t[0], SortByCount(t[1..]));
      assert t == [t[0]] + t[1..];
    }
  }

  /** The sort keeps entries of equal count in their original order. */
  lemma {:induction false} SortStable(t: seq<StoreCount>, c: nat)
    ensures WithCount(SortByCount(t), c) == WithCount(t, c)
    decreases |t|
  {
    if t != [] {
      SortStable(t[1..], c);
      InsertStable(t[0], SortByCount(t[1..]), c);
    }
  }

  // ---------------------------------------------------------------- the sheet

  /** The percentage of the products a store holds. */
  function Percent(count: nat, total: nat): real {
    if total == 0 then 0.0 else count as real / total as real * 100.0
  }

  /** The row of one of the top stores. */
  function StoreRow(total: nat): StoreCount -> Row {
    (e: StoreCount) => TopStore(e.store, e.count, Percent(e.count, total))
  }

  /** `[:5]`: at most the first five entries. */
  function Top5(t: seq<StoreCount>): (r: seq<StoreCount>)
    ensures |r| == if |t| <= 5 then |t| else 5
    ensures r == t[..|r|]
  {
    if |t| <= 5 then t else t[..5]
  }

  /** The tally sorted by count. */
  function RankedStores(products: seq<Record>): seq<StoreCount> {
    SortByCount(Tally(Stores(products)))
  }

  /** The top stores: the tally sorted by count, at most five. */
  function TopStores(products: seq<Record>): seq<StoreCount> {
    Top5(RankedStores(products))
  }

  /** The statistics of `_generate_statistics`, in the order it appends them. */
  function StatisticsOf(products: seq<Record>, ps: Parsers): seq<Row> {
    SummaryRows(PriceItem, FilterMap(products, PriceValue(ps)))
    + SummaryRows(RatingItem, FilterMap(products, RatingValue(ps)))
    + MapSeq(TopStores(products), StoreRow(|products|))
  }

  /** In a tally without repeated stores each entry occurs once. */
  lemma {:induction false} DistinctOnce(t: seq<StoreCount>, a: nat)
    requires Distinct(t) && a < |t|
    ensures multiset(t)[t[a]] == 1
    decreases |t|
  {
    assert t == [t[0]] + t[1..];
    if a == 0 {
      assert t[0] !in t[1..] by {
        forall k | 0 <= k < |t| - 1 ensures t[1..][k] != t[0] {
          assert t[1..][k].store == t[k + 1].store;
        }
      }
    } else {
      DistinctOnce(t[1..], a - 1);
      assert t[1..][a - 1] == t[a];
      assert t[0] != t[a];
    }
  }

  /** Two positions of a list hold different entries when no entry occurs twice. */
  lemma DifferentPositions(t: seq<StoreCount>, i: nat, j: nat)
    requires i < j < |t|
    requires forall e :: multiset(t)[e] <= 1
    ensures t[i] != t[j]
  {
    var front, back := t[..j], t[j..];
    assert t == front + back;
    assert front[i] == t[i] && back[0] == t[j];
    assert multiset(t)[t[j]] == multiset(front)[t[j]] + multiset(back)[t[j]];
    assert multiset(back)[t[j]] >= 1;
  }

  /** Sorting a tally without repeated stores gives one without repeated stores. */
  lemma SortedDistinct(t: seq<StoreCount>)
    requires Distinct(t)
    ensures Distinct(SortByCount(t))
  {
    var sorted := SortByCount(t);
    SortPermutes(t);
    forall e ensures multiset(sorted)[e] <= 1 {
      if e in t {
        var a :| 0 <= a < |t| && t[a] == e;
        DistinctOnce(t, a);
      }
    }
    forall i, j | 0 <= i < j < |sorted| ensures sorted[i].store != sorted[j].store {
      DifferentPositions(sorted, i, j);
      assert sorted[i] in multiset(t) && sorted[j] in multiset(t);
      var a :| 0 <= a < |t| && t[a] == sorted[i];
      var b :| 0 <= b < |t| && t[b] == sorted[j];
    }
  }

  /** An entry of a tally without repeated stores holds that store's count. */
  lemma {:induction false} EntryCount(t: seq<StoreCount>, k: nat)
    requires Distinct(t) && k < |t|
    ensures CountOf(t, t[k].store) == t[k].count
    decreases |t|
  {
    if k > 0 {
      assert t[0].store != t[k].store;
      EntryCount(t[1..], k - 1);
    }
  }

  /** The counts a ranking holds: each store's number of occurrences in
      `stores`, positive, every store of `stores` listed. */
  ghost predicate Ranks(ranked: seq<StoreCount>, stores: seq<Value>) {
    && ByCount(ranked)
    && Distinct(ranked)
    && (forall i :: 0 <= i < |ranked| ==> ranked[i].count == multiset(stores)[ranked[i].store] > 0)
    && (forall s :: s in stores <==> Listed(ranked, s))
  }

  /** The ranked stores: by non-increasing count, each store of the
      products once, with the number of its products. */
  lemma RankedStoresCorrect(products: seq<Record>)
    ensures Ranks(RankedStores(products), Stores(products))
  {
    var stores := Stores(products);
    var t := Tally(stores);
    var ranked := SortByCount(t);
    TallyCorrect(stores);
    SortSorted(t);
    SortPermutes(t);
    SortedDistinct(t);
    forall i | 0 <= i < |ranked| ensures ranked[i].count == multiset(stores)[ranked[i].store] > 0 {
      assert ranked[i] in multiset(t);
      var k :| 0 <= k < |t| && t[k] == ranked[i];
      EntryCount(t, k);
    }
    forall s ensures s in stores <==> Listed(ranked, s) {
      if Listed(t, s) {
        var k :| 0 <= k < |t| && t[k].store == s;
        assert t[k] in multiset(ranked);
        var m :| 0 <= m < |ranked| && ranked[m] == t[k];
      }
      if Listed(ranked, s) {
        var m :| 0 <= m < |ranked| && ranked[m].store == s;
        assert ranked[m] in multiset(t);
        var k :| 0 <= k < |t| && t[k] == ranked[m];
      }
    }
  }

  /** The store counts add up to the number of products; a product without
      a store name is counted under "未知". */
  lemma StoreCountsAddUp(products: seq<Record>)
    ensures Total(Tally(Stores(products))) == |products|
    ensures forall i :: 0 <= i < |products| && StoreName !in products[i] ==>
              Listed(Tally(Stores(products)), Str("未知"))
  {
    TallyCorrect(Stores(products));
    forall i | 0 <= i < |products| && StoreName !in products[i]
      ensures Listed(Tally(Stores(products)), Str("未知"))
    {
      assert Stores(products)[i] == Str("未知");
    }
  }

  /** A prefix of a list ordered by count, without repeated stores, is so too. */
  lemma PrefixKeepsOrder(t: seq<StoreCount>, n: nat)
    requires n <= |t| && ByCount(t) && Distinct(t)
    ensures ByCount(t[..n]) && Distinct(t[..n])
  {
  }

  /** A store of a ranked list that its first `n` entries leave out has no
      more products than any of them. */
  lemma LeftOutRanksLower(t: seq<StoreCount>, n: nat, m: nat)
    requires n <= m < |t| && ByCount(t)
    ensures forall i :: 0 <= i < n ==> t[m].count <= t[i].count
  {
  }

  /** The first five entries of a ranking: ordered, distinct, with true
      counts; a store left out has no more occurrences than any listed one,
      and a ranking of at most five stores lists them all. */
  lemma TopOfRanking(ranked: seq<StoreCount>, stores: seq<Value>)
    requires Ranks(ranked, stores)
    ensures var top := Top5(ranked);
            && ByCount(top)
            && Distinct(top)
            && (forall i :: 0 <= i < |top| ==> top[i].count == multiset(stores)[top[i].store] > 0)
            && (forall s :: s in stores && !Listed(top, s) ==>
                  forall i :: 0 <= i < |top| ==> multiset(stores)[s] <= top[i].count)
            && (|ranked| <= 5 ==> forall s :: s in stores ==> Listed(top, s))
  {
    var top := Top5(ranked);
    PrefixKeepsOrder(ranked, |top|);
    assert forall i :: 0 <= i < |top| ==> top[i] == ranked[i];
    if |ranked| <= 5 {
      assert top == ranked;
    }
    forall s | s in stores && !Listed(top, s)
      ensures forall i :: 0 <= i < |top| ==> multiset(stores)[s] <= top[i].count
    {
      var m :| 0 <= m < |ranked| && ranked[m].store == s;
      assert forall k :: 0 <= k < |top| ==> top[k].store != s;
      assert m >= |top|;
      LeftOutRanksLower(ranked, |top|, m);
    }
  }

  /** The top stores are at most five distinct stores with their product
      counts, by non-increasing count; a store left out has no more
      products than any listed one, and with at most five stores in all
      every one is listed. */
  lemma TopStoresCorrect(products: seq<Record>)
    ensures var top := TopStores(products);
            && |top| <= 5
            && ByCount(top)
            && Distinct(top)
            && (forall i :: 0 <= i < |top| ==> top[i].count == multiset(Stores(products))[top[i].store] > 0)
            && (forall s :: s in Stores(products) && !Listed(top, s) ==>
                  forall i :: 0 <= i < |top| ==> multiset(Stores(products))[s] <= top[i].count)
            && (|RankedStores(products)| <= 5 ==> forall s :: s in Stores(products) ==> Listed(top, s))
  {
    RankedStoresCorrect(products);
    TopOfRanking(RankedStores(products), Stores(products));
  }

  /** A price written `$` followed by a plain number is read as that number. */
  lemma DollarPriceValue(ps: Parsers, p: Record, t: string)
    requires Price in p && p[Price] == Str("$" + t) && '$' !in t && ',' !in t
    ensures PriceValue(ps)(p) == Positive(ps.toFloat(t))
  {
    assert TextOf(FieldOr(p, Price, "0")) == Some("$" + t);
    PriceTextDollar(t);
  }

  /** A price without `$` or `,` is read as it is. */
  lemma PlainPriceValue(ps: Parsers, p: Record, t: string)
    requires Price in p && p[Price] == Str(t) && '$' !in t && ',' !in t
    ensures PriceValue(ps)(p) == Positive(ps.toFloat(t))
  {
    assert TextOf(FieldOr(p, Price, "0")) == Some(t);
    PriceTextPlain(t);
  }

  /** The list of prices `_generate_statistics` collects from three records. */
  lemma ThreePrices(p1: Record, p2: Record, p3: Record, value: Record -> Option<real>, x: real, y: real)
    requires value(p1) == Some(x) && value(p2) == Some(y) && value(p3).None?
    ensures FilterMap([p1, p2, p3], value) == [x, y]
  {
    var products := [p1, p2, p3];
    assert products[..2] == [p1, p2] && [p1, p2][..1] == [p1] && [p1][..0] == [];
    assert FilterMap([p1], value) == [x];
    assert FilterMap([p1, p2], value) == [x, y];
  }

  /** Prices "$10.00", "$50.00" and "N/A" give the price summary 10, 50,
      30 (the unparsable price is left out), and no products give no rows. */
  lemma PriceSummaryExample(ps: Parsers)
    requires ps.toFloat("10.00") == Some(10.0) && ps.toFloat("50.00") == Some(50.0) && ps.toFloat("N/A").None?
    ensures var products: seq<Record> := [map[Price := Str("$10.00")], map[Price := Str("$50.00")], map[Price := Str("N/A")]];
            SummaryRows(PriceItem, FilterMap(products, PriceValue(ps))) == [Summary(PriceItem, 10.0, 50.0, 30.0)]
    ensures StatisticsOf([], ps) == []
  {
    var p1, p2, p3: Record := map[Price := Str("$10.00")], map[Price := Str("$50.00")], map[Price := Str("N/A")];
    assert "$10.00" == "$" + "10.00" && "$50.00" == "$" + "50.00";
    DollarPriceValue(ps, p1, "10.00");
    DollarPriceValue(ps, p2, "50.00");
    PlainPriceValue(ps, p3, "N/A");
    ThreePrices(p1, p2, p3, PriceValue(ps), 10.0, 50.0);
    var prices := [10.0, 50.0];
    assert prices[..1] == [10.0];
    assert Sum(prices) == 60.0;
  }

  /** The positive values `value` reads off the products, in order: the
      list `_generate_statistics` fills with prices or with ratings. */
  method PositiveValues(products: seq<Record>, value: Record -> Option<real>) returns (values: seq<real>)
    ensures values == FilterMap(products, value)
  {
    values := [];
    for i := 0 to |products|
      invariant values == FilterMap(products[..i], value)
    {
      assert products[..i + 1][..i] == products[..i];
      var v := value(products[i]);
      if v.Some? {
        values := values + [v.value];
      }
    }
    assert products[..|products|] == products;
  }

  /** The `stores` dict of `_generate_statistics`, counted product by product. */
  method CountStores(products: seq<Record>) returns (stores: seq<StoreCount>)
    ensures stores == Tally(Stores(products))
  {
    stores := [];
    for i := 0 to |products|
      invariant stores == Tally(Stores(products[..i]))
    {
      MapSeqExtend(products, i, StoreOf);
      assert Stores(products[..i + 1])[..i] == Stores(products[..i]);
      stores := Bump(stores, StoreOf(products[i]));
    }
    assert products[..|products|] == products;
  }

  /** `_generate_statistics(products)`. */
  method GenerateStatistics(products: seq<Record>, ps: Parsers) returns (stats: seq<Row>)
    ensures stats == StatisticsOf(products, ps)
  {
    var prices := PositiveValues(products, PriceValue(ps));
    var ratings := PositiveValues(products, RatingValue(ps));
    var stores := CountStores(products);
    stats := SummaryRows(PriceItem, prices) + SummaryRows(RatingItem, ratings);
    var top := Top5(SortByCount(stores));
    ghost var head := stats;
    for i := 0 to |top|
      invariant stats == head + MapSeq(top[..i], StoreRow(|products|))
    {
      MapSeqExtend(top, i, StoreRow(|products|));
      stats := stats + [StoreRow(|products|)(top[i])];
    }
    assert top[..|top|] == top;
  }
}
