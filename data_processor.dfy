/**
 * The seven analytics views of data_processor.py. Each Python function that
 * fills a dict in a loop is a method with that loop; the dict is a sequence
 * of rows in key insertion order, looked up with `Find`. Each method is
 * proved equal to a reference definition built from `Keys` and `Group`, and
 * the promised properties are lemmas about those definitions.
 */
module DataProcessor {
  import opened Options
  import opened Text
  import opened Seqs
  import opened Sorting
  import opened Sales

  // ---------------------------------------------------------------------
  // calculate_total_revenue

  /** calculate_total_revenue: the sum of all line amounts, 0 for no records. */
  function CalculateTotalRevenue(ts: seq<Transaction>): (total: real)
    ensures ts == [] ==> total == 0.0
    ensures forall k :: 0 <= k <= |ts| ==> total == TotalRevenue(ts[..k]) + TotalRevenue(ts[k..])
  {
    assert forall k :: 0 <= k <= |ts| ==> ts == ts[..k] + ts[k..];
    forall k | 0 <= k <= |ts| ensures TotalRevenue(ts) == TotalRevenue(ts[..k]) + TotalRevenue(ts[k..]) {
      assert ts == ts[..k] + ts[k..];
      TotalRevenueAppend(ts[..k], ts[k..]);
    }
    TotalRevenue(ts)
  }

  // ---------------------------------------------------------------------
  // region_wise_sales

  datatype RegionStats = RegionStats(region: string, totalSales: real, transactionCount: nat, percentage: real)

  function RegionName(r: RegionStats): string { r.region }
  function RegionSales(r: RegionStats): real { r.totalSales }
  function RegionCount(r: RegionStats): real { r.transactionCount as real }
  function RegionShare(r: RegionStats): real { r.percentage }

  /** The entry the aggregation loop (lines 20-32) holds for region `k` with records `g`. */
  function RegionTotals(g: seq<Transaction>, k: string): RegionStats {
    RegionStats(k, TotalRevenue(g), |g|, 0.0)
  }

  /** Region `k`'s entry in the result. */
  function RegionRow(ts: seq<Transaction>, k: string): RegionStats {
    var g := Group(ts, ByRegion, k);
    RegionStats(k, TotalRevenue(g), |g|, Percentage(TotalRevenue(g), TotalRevenue(ts)))
  }

  /** One entry per region, regions in first-seen order. */
  function RegionTable(ts: seq<Transaction>): seq<RegionStats> {
    var ks := Keys(ts, ByRegion);
    seq(|ks|, j requires 0 <= j < |ks| => RegionRow(ts, ks[j]))
  }

  /** The result of region_wise_sales: the table stably sorted by descending sales. */
  function RankedRegions(ts: seq<Transaction>): seq<RegionStats> {
    StableSort(RegionTable(ts), RegionSales, true)
  }

  /** Lines 31-32: one more record counted into its region's entry. */
  function AddToRegion(r: RegionStats, t: Transaction): RegionStats {
    r.(totalSales := r.totalSales + Amount(t), transactionCount := r.transactionCount + 1)
  }

  lemma AddToRegionTotals(g: seq<Transaction>, t: Transaction)
    ensures AddToRegion(RegionTotals(g, t.region), t) == RegionTotals(g + [t], t.region)
  {
    TotalRevenueSnoc(g, t);
  }

  /** The aggregation loop of region_wise_sales (lines 20-32). */
  method TallyRegions(ts: seq<Transaction>) returns (table: seq<RegionStats>)
    ensures Tabulated(table, ts, ByRegion, RegionTotals)
  {
    table := [];
    for i := 0 to |ts|
      invariant Tabulated(table, ts[..i], ByRegion, RegionTotals)
    {
      var t := ts[i];
      assert ts[..i + 1] == ts[..i] + [t];
      var j := Find(table, RegionName, t.region);
      TabulatedFind(table, ts[..i], ByRegion, RegionTotals, RegionName, t.region, j);
      ghost var before := table;
      if j < 0 {
        table := table + [RegionStats(t.region, 0.0, 0, 0.0)];
        j := |table| - 1;
      }
      AddToRegionTotals(Group(ts[..i], ByRegion, t.region), t);
      TabulateStep(before, ts[..i], t, ByRegion, RegionTotals, AddToRegion, table, j);
      table := table[j := AddToRegion(table[j], t)];
    }
    assert ts[..|ts|] == ts;
  }

  /** The tallied sales add up to the total revenue (line 35). */
  lemma TalliedRegionSales(table: seq<RegionStats>, ts: seq<Transaction>)
    requires Tabulated(table, ts, ByRegion, RegionTotals)
    ensures SumBy(table, RegionSales) == TotalRevenue(ts)
  {
    SumOfGroupRevenues(table, RegionSales, ts, ByRegion, Keys(ts, ByRegion));
    RevenuePartition(ts, ByRegion);
  }

  method RegionWiseSales(ts: seq<Transaction>) returns (rows: seq<RegionStats>)
    ensures rows == RankedRegions(ts)
  {
    var table := TallyRegions(ts);
    var total := SumBy(table, RegionSales);
    TalliedRegionSales(table, ts);
    ghost var ks, tallied := Keys(ts, ByRegion), table;
    for j := 0 to |table|
      invariant |table| == |ks|
      invariant forall m :: 0 <= m < j ==> table[m] == RegionRow(ts, ks[m])
      invariant forall m :: j <= m < |table| ==> table[m] == tallied[m]
    {
      assert tallied[j] == RegionTotals(Group(ts, ByRegion, ks[j]), ks[j]);
      table := table[j := table[j].(percentage := Percentage(table[j].totalSales, total))];
    }
    assert table == RegionTable(ts);
    rows := StableSort(table, RegionSales, true);
  }

  /** Every region that occurs has exactly its own totals; the order is by sales, ties first-seen. */
  lemma RegionWiseSalesRows(ts: seq<Transaction>)
    ensures |RankedRegions(ts)| == |Keys(ts, ByRegion)|
    ensures forall r :: r in RankedRegions(ts) <==> exists t :: t in ts && r == RegionRow(ts, t.region)
    ensures DistinctKeys(RankedRegions(ts), RegionName)
    ensures SortedBy(RankedRegions(ts), RegionSales, true)
    ensures forall v :: WithKey(RankedRegions(ts), RegionSales, v) == WithKey(RegionTable(ts), RegionSales, v)
  {
    var rows := RankedRegions(ts);
    KeysOccur(ts, ByRegion);
    assert DistinctKeys(RegionTable(ts), RegionName);
    StableSortDistinct(RegionTable(ts), RegionSales, true, RegionName);
    forall r ensures r in rows <==> exists t :: t in ts && r == RegionRow(ts, t.region) {
      assert r in rows <==> r in multiset(RegionTable(ts));
      RegionTableMembers(ts, r);
    }
  }

  lemma RegionTableMembers(ts: seq<Transaction>, r: RegionStats)
    ensures r in RegionTable(ts) <==> exists t :: t in ts && r == RegionRow(ts, t.region)
  {
    var table, ks := RegionTable(ts), Keys(ts, ByRegion);
    KeysOccur(ts, ByRegion);
    if r in table {
      var j :| 0 <= j < |table| && table[j] == r;
      assert ks[j] in ks;
      var g := Group(ts, ByRegion, ks[j]);
      GroupMembers(ts, ByRegion, ks[j]);
      assert g[0] in g;
      var t := g[0];
      assert t in ts && r == RegionRow(ts, t.region);
    }
    if exists t :: t in ts && r == RegionRow(ts, t.region) {
      var t :| t in ts && r == RegionRow(ts, t.region);
      GroupMembers(ts, ByRegion, t.region);
      assert t in Group(ts, ByRegion, t.region);
      var j :| 0 <= j < |ks| && ks[j] == t.region;
      assert table[j] == r;
    }
  }

  /** The transaction counts of the regions add up to the number of records. */
  lemma RegionCountsSum(ts: seq<Transaction>)
    ensures SumBy(RankedRegions(ts), RegionCount) == |ts| as real
  {
    var table, ks := RegionTable(ts), Keys(ts, ByRegion);
    StableSortSum(table, RegionSales, true, RegionCount);
    SumOfGroupSizes(table, RegionCount, ts, ByRegion, ks);
    CountPartition(ts, ByRegion);
  }

  /** The sales column of the table adds up to the total revenue. */
  lemma RegionSalesSum(ts: seq<Transaction>)
    ensures SumBy(RegionTable(ts), RegionSales) == TotalRevenue(ts)
  {
    SumOfGroupRevenues(RegionTable(ts), RegionSales, ts, ByRegion, Keys(ts, ByRegion));
    RevenuePartition(ts, ByRegion);
  }

  lemma RegionSharesSum(ts: seq<Transaction>)
    ensures SumBy(RegionTable(ts), RegionShare) == Percentage(SumBy(RegionTable(ts), RegionSales), TotalRevenue(ts))
  {
    var table, total := RegionTable(ts), TotalRevenue(ts);
    forall r | r in table ensures RegionShare(r) == Percentage(RegionSales(r), total) {
      var j :| 0 <= j < |table| && table[j] == r;
    }
    SumOfPercentages(table, RegionSales, RegionShare, total);
  }

  /** The percentages add up to 100 when there is revenue, and are all 0 otherwise. */
  lemma RegionPercentagesSum(ts: seq<Transaction>)
    ensures TotalRevenue(ts) > 0.0 ==> SumBy(RankedRegions(ts), RegionShare) == 100.0
    ensures TotalRevenue(ts) <= 0.0 ==> forall r :: r in RankedRegions(ts) ==> r.percentage == 0.0
  {
    var table, total := RegionTable(ts), TotalRevenue(ts);
    if total > 0.0 {
      StableSortSum(table, RegionSales, true, RegionShare);
      RegionSharesSum(ts);
      RegionSalesSum(ts);
      WholePercentage(total);
    } else {
      forall r | r in RankedRegions(ts) ensures r.percentage == 0.0 {
        assert r in multiset(table);
        var j :| 0 <= j < |table| && table[j] == r;
      }
    }
  }

  // ---------------------------------------------------------------------
  // top_selling_products and low_performing_products

  /** A `(ProductName, TotalQuantity, TotalRevenue)` tuple. */
  datatype ProductStats = ProductStats(name: string, quantity: int, revenue: real)

  function ProductName(r: ProductStats): string { r.name }
  function QuantityKey(r: ProductStats): real { r.quantity as real }

  /** The entry the aggregation loop holds for product `k` with records `g`. */
  function ProductTotals(g: seq<Transaction>, k: string): ProductStats {
    ProductStats(k, TotalQuantity(g), TotalRevenue(g))
  }

  /** One entry per product name, in first-seen order. */
  function ProductTable(ts: seq<Transaction>): seq<ProductStats> {
    var ks := Keys(ts, ByProduct);
    seq(|ks|, j requires 0 <= j < |ks| => ProductTotals(Group(ts, ByProduct, ks[j]), ks[j]))
  }

  /** Lines 64-65 (and 188-189): one more record counted into its product's entry. */
  function AddToProduct(r: ProductStats, t: Transaction): ProductStats {
    r.(quantity := r.quantity + t.quantity, revenue := r.revenue + Amount(t))
  }

  lemma AddToProductTotals(g: seq<Transaction>, t: Transaction)
    ensures AddToProduct(ProductTotals(g, t.productName), t) == ProductTotals(g + [t], t.productName)
  {
    TotalRevenueSnoc(g, t);
    TotalQuantitySnoc(g, t);
  }

  /** The aggregation loop both product views run, and the `.items()` list it yields. */
  method AggregateProducts(ts: seq<Transaction>) returns (table: seq<ProductStats>)
    ensures table == ProductTable(ts)
  {
    table := [];
    for i := 0 to |ts|
      invariant Tabulated(table, ts[..i], ByProduct, ProductTotals)
    {
      var t := ts[i];
      assert ts[..i + 1] == ts[..i] + [t];
      var j := Find(table, ProductName, t.productName);
      TabulatedFind(table, ts[..i], ByProduct, ProductTotals, ProductName, t.productName, j);
      ghost var before := table;
      if j < 0 {
        table := table + [ProductStats(t.productName, 0, 0.0)];
        j := |table| - 1;
      }
      AddToProductTotals(Group(ts[..i], ByProduct, t.productName), t);
      TabulateStep(before, ts[..i], t, ByProduct, ProductTotals, AddToProduct, table, j);
      table := table[j := AddToProduct(table[j], t)];
    }
    assert ts[..|ts|] == ts;
  }

  /** Each product entry holds the totals of exactly the records naming that product. */
  lemma ProductTableMembers(ts: seq<Transaction>, r: ProductStats)
    ensures r in ProductTable(ts) <==>
              (exists t :: t in ts && t.productName == r.name) && r == ProductTotals(Group(ts, ByProduct, r.name), r.name)
  {
    var table, ks := ProductTable(ts), Keys(ts, ByProduct);
    KeysOccur(ts, ByProduct);
    GroupMembers(ts, ByProduct, r.name);
    if r in table {
      var j :| 0 <= j < |table| && table[j] == r;
      assert ks[j] in ks;
      var g := Group(ts, ByProduct, ks[j]);
      assert g[0] in g;
    }
    if (exists t :: t in ts && t.productName == r.name) && r == ProductTotals(Group(ts, ByProduct, r.name), r.name) {
      var t :| t in ts && t.productName == r.name;
      assert t in Group(ts, ByProduct, r.name);
      var j :| 0 <= j < |ks| && ks[j] == r.name;
      assert table[j] == r;
    }
  }

  /** The result of top_selling_products: the table by descending quantity, cut to `n`. */
  function TopProducts(ts: seq<Transaction>, n: int): seq<ProductStats> {
    SliceTo(StableSort(ProductTable(ts), QuantityKey, true), n)
  }

  method TopSellingProducts(ts: seq<Transaction>, n: int := 5) returns (top: seq<ProductStats>)
    ensures top == TopProducts(ts, n)
  {
    var table := AggregateProducts(ts);
    top := SliceTo(StableSort(table, QuantityKey, true), n);
  }

  /**
   * At most `n` products (all but the last `-n` when `n` is negative), each
   * with its true totals, by descending quantity, and no product left out
   * sold more than one kept.
   */
  lemma TopProductsCorrect(ts: seq<Transaction>, n: int)
    ensures var m := |Keys(ts, ByProduct)|;
            |TopProducts(ts, n)| == if n >= 0 then (if n <= m then n else m) else (if -n <= m then m + n else 0)
    ensures forall r :: r in TopProducts(ts, n) ==> r in ProductTable(ts)
    ensures SortedBy(TopProducts(ts, n), QuantityKey, true)
    ensures forall r, r' :: r in ProductTable(ts) && r !in TopProducts(ts, n) && r' in TopProducts(ts, n) ==>
              r.quantity <= r'.quantity
  {
    var table := ProductTable(ts);
    var sorted := StableSort(table, QuantityKey, true);
    var top := TopProducts(ts, n);
    SortedPrefix(sorted, QuantityKey, |top|);
    forall r | r in top ensures r in table {
      assert r in multiset(sorted);
    }
    forall r | r in table ensures r in sorted {
      assert r in multiset(table);
    }
  }

  predicate Below(r: ProductStats, threshold: int) {
    r.quantity < threshold
  }

  /** The result of low_performing_products: entries under the threshold by ascending quantity. */
  function LowProducts(ts: seq<Transaction>, threshold: int): seq<ProductStats> {
    StableSort(Filter(ProductTable(ts), r => Below(r, threshold)), QuantityKey, false)
  }

  method LowPerformingProducts(ts: seq<Transaction>, threshold: int := 10) returns (low: seq<ProductStats>)
    ensures low == LowProducts(ts, threshold)
  {
    var table := AggregateProducts(ts);
    low := StableSort(Filter(table, r => Below(r, threshold)), QuantityKey, false);
  }

  /**
   * Exactly the products whose total quantity is under the threshold, by
   * ascending quantity, equal quantities in first-seen order.
   */
  lemma LowProductsCorrect(ts: seq<Transaction>, threshold: int)
    ensures forall r :: r in LowProducts(ts, threshold) <==> r in ProductTable(ts) && r.quantity < threshold
    ensures SortedBy(LowProducts(ts, threshold), QuantityKey, false)
    ensures forall v :: v < threshold as real ==>
              WithKey(LowProducts(ts, threshold), QuantityKey, v) == WithKey(ProductTable(ts), QuantityKey, v)
  {
    var table := ProductTable(ts);
    var kept := Filter(table, r => Below(r, threshold));
    var low := LowProducts(ts, threshold);
    forall r ensures r in low <==> r in table && r.quantity < threshold {
      assert r in low <==> r in multiset(kept);
    }
    forall v | v < threshold as real ensures WithKey(low, QuantityKey, v) == WithKey(table, QuantityKey, v) {
      WithKeyFilter(table, r => Below(r, threshold), QuantityKey, v);
    }
  }

  // ---------------------------------------------------------------------
  // customer_analysis

  datatype CustomerStats = CustomerStats(customer: string, totalSpent: real, purchaseCount: nat,
                                         avgOrderValue: real, productsBought: seq<string>)

  function CustomerName(c: CustomerStats): string { c.customer }
  function CustomerSpent(c: CustomerStats): real { c.totalSpent }

  /** The product names of `g`, repetitions included, in record order. */
  function ProductNames(g: seq<Transaction>): (names: seq<string>)
    ensures |names| == |g|
    ensures forall a :: 0 <= a < |g| ==> names[a] == g[a].productName
  {
    if g == [] then [] else ProductNames(g[..|g| - 1]) + [g[|g| - 1].productName]
  }

  lemma {:induction false} ProductNamesMembers(g: seq<Transaction>)
    ensures forall x :: x in ProductNames(g) <==> exists t :: t in g && t.productName == x
  {
    if g != [] {
      ProductNamesMembers(g[..|g| - 1]);
      assert g == g[..|g| - 1] + [g[|g| - 1]];
    }
  }

  /** `total / count if count > 0 else 0`. */
  function Average(total: real, count: nat): real {
    if count > 0 then total / count as real else 0.0
  }

  /** The average, `count` times over, makes `total`. */
  lemma AverageTimesCount(total: real, count: nat)
    requires count > 0
    ensures Average(total, count) * count as real == total
  {
    var avg := total / count as real;
    assert avg * count as real == total;
  }

  /** The entry the loop at lines 86-106 holds for customer `k` with records `g`. */
  function CustomerTotals(g: seq<Transaction>, k: string): CustomerStats {
    CustomerStats(k, TotalRevenue(g), |g|, 0.0, Distinct(ProductNames(g)))
  }

  /** Customer `k`'s entry in the result. */
  function CustomerRow(ts: seq<Transaction>, k: string): CustomerStats {
    WithAverage(CustomerTotals(Group(ts, ByCustomer, k), k))
  }

  /** One entry per non-empty customer id, in first-seen order. */
  function CustomerTable(ts: seq<Transaction>): seq<CustomerStats> {
    var ks := Keys(WithCustomer(ts), ByCustomer);
    seq(|ks|, j requires 0 <= j < |ks| => CustomerRow(ts, ks[j]))
  }

  /** The result of customer_analysis: the table stably sorted by descending spending. */
  function RankedCustomers(ts: seq<Transaction>): seq<CustomerStats> {
    StableSort(CustomerTable(ts), CustomerSpent, true)
  }

  /** Lines 102-106: one more record counted into its customer's entry. */
  function AddToCustomer(c: CustomerStats, t: Transaction): CustomerStats {
    c.(totalSpent := c.totalSpent + Amount(t), purchaseCount := c.purchaseCount + 1,
       productsBought := if t.productName in c.productsBought then c.productsBought
                         else c.productsBought + [t.productName])
  }

  lemma AddToCustomerTotals(g: seq<Transaction>, t: Transaction)
    ensures AddToCustomer(CustomerTotals(g, t.customerId), t) == CustomerTotals(g + [t], t.customerId)
  {
    TotalRevenueSnoc(g, t);
    assert (g + [t])[..|g|] == g;
    assert ProductNames(g + [t]) == ProductNames(g) + [t.productName];
    assert (ProductNames(g) + [t.productName])[..|g|] == ProductNames(g);
  }

  /** The customers of the table are the non-empty ids that occur, and their groups lose nothing. */
  lemma CustomerKeys(ts: seq<Transaction>)
    ensures forall k :: k in Keys(WithCustomer(ts), ByCustomer) <==> k != "" && exists t :: t in ts && t.customerId == k
    ensures forall k :: k in Keys(WithCustomer(ts), ByCustomer) ==>
              Group(WithCustomer(ts), ByCustomer, k) == Group(ts, ByCustomer, k)
  {
    var w := WithCustomer(ts);
    KeysOccur(w, ByCustomer);
    forall k ensures k in Keys(w, ByCustomer) <==> k != "" && exists t :: t in ts && t.customerId == k {
      GroupMembers(w, ByCustomer, k);
      if k in Keys(w, ByCustomer) {
        var g := Group(w, ByCustomer, k);
        assert g[0] in g;
      }
      if k != "" && exists t :: t in ts && t.customerId == k {
        var t :| t in ts && t.customerId == k;
        assert t in w;
        assert t in Group(w, ByCustomer, k);
      }
    }
    forall k | k in Keys(w, ByCustomer) ensures Group(w, ByCustomer, k) == Group(ts, ByCustomer, k) {
      WithCustomerGroup(ts, k);
    }
  }

  /** After the loop, each entry holds all the records of its customer. */
  lemma CustomerTableTotals(table: seq<CustomerStats>, ts: seq<Transaction>)
    requires Tabulated(table, WithCustomer(ts), ByCustomer, CustomerTotals)
    ensures var ks := Keys(WithCustomer(ts), ByCustomer);
            forall m :: 0 <= m < |table| ==> table[m] == CustomerTotals(Group(ts, ByCustomer, ks[m]), ks[m])
  {
    var ks := Keys(WithCustomer(ts), ByCustomer);
    CustomerKeys(ts);
    forall m | 0 <= m < |table| ensures table[m] == CustomerTotals(Group(ts, ByCustomer, ks[m]), ks[m]) {
      assert ks[m] in ks;
    }
  }

  /** The loop at lines 86-106: totals, counts and products of each named customer. */
  method TallyCustomers(ts: seq<Transaction>) returns (table: seq<CustomerStats>)
    ensures Tabulated(table, WithCustomer(ts), ByCustomer, CustomerTotals)
  {
    table := [];
    ghost var named: seq<Transaction> := [];
    for i := 0 to |ts|
      invariant named == WithCustomer(ts[..i])
      invariant Tabulated(table, named, ByCustomer, CustomerTotals)
    {
      var t := ts[i];
      assert ts[..i + 1] == ts[..i] + [t];
      WithCustomerSnoc(ts[..i], t);
      ghost var named' := WithCustomer(ts[..i + 1]);
      if t.customerId == "" {
        assert named' == named;
        continue;
      }
      assert named' == named + [t];
      var j := Find(table, CustomerName, t.customerId);
      TabulatedFind(table, named, ByCustomer, CustomerTotals, CustomerName, t.customerId, j);
      ghost var before := table;
      if j < 0 {
        table := table + [CustomerStats(t.customerId, 0.0, 0, 0.0, [])];
        j := |table| - 1;
      }
      AddToCustomerTotals(Group(named, ByCustomer, t.customerId), t);
      TabulateStep(before, named, t, ByCustomer, CustomerTotals, AddToCustomer, table, j);
      table := table[j := AddToCustomer(table[j], t)];
      named := named';
    }
    assert ts[..|ts|] == ts;
  }

  /** The loop at lines 109-112: every entry gets its average order value. */
  method FillAverages(table: seq<CustomerStats>) returns (filled: seq<CustomerStats>)
    ensures |filled| == |table|
    ensures forall m :: 0 <= m < |table| ==> filled[m] == WithAverage(table[m])
  {
    filled := table;
    for j := 0 to |filled|
      invariant |filled| == |table|
      invariant forall m :: 0 <= m < j ==> filled[m] == WithAverage(table[m])
      invariant forall m :: j <= m < |table| ==> filled[m] == table[m]
    {
      var total, count := filled[j].totalSpent, filled[j].purchaseCount;
      filled := filled[j := filled[j].(avgOrderValue := Average(total, count))];
    }
  }

  method CustomerAnalysis(ts: seq<Transaction>) returns (rows: seq<CustomerStats>)
    ensures rows == RankedCustomers(ts)
  {
    var table := TallyCustomers(ts);
    CustomerTableTotals(table, ts);
    table := FillAverages(table);
    assert table == CustomerTable(ts);
    rows := StableSort(table, CustomerSpent, true);
  }


  /** Customer `k`'s entry: all their records, and an average that times the count gives the total. */
  lemma CustomerRowTotals(ts: seq<Transaction>, k: string)
    requires exists t :: t in ts && t.customerId == k
    ensures CustomerRow(ts, k).totalSpent == TotalRevenue(Group(ts, ByCustomer, k))
    ensures CustomerRow(ts, k).purchaseCount >= 1
  {
    var g := Group(ts, ByCustomer, k);
    GroupMembers(ts, ByCustomer, k);
    var t :| t in ts && t.customerId == k;
    assert t in g;
  }

  /** An entry with its average order value filled in. */
  function WithAverage(c: CustomerStats): CustomerStats {
    c.(avgOrderValue := Average(c.totalSpent, c.purchaseCount))
  }

  /** The average order value, times the number of purchases, is the amount spent. */
  lemma CustomerRowAverage(ts: seq<Transaction>, k: string)
    ensures var c := CustomerRow(ts, k);
            c.purchaseCount > 0 ==> c.avgOrderValue * c.purchaseCount as real == c.totalSpent
  {
    var g := Group(ts, ByCustomer, k);
    if |g| > 0 {
      AverageTimesCount(TotalRevenue(g), |g|);
    }
  }


  /** Customer `k`'s products: each one they bought, once, in first-bought order. */
  lemma CustomerRowProducts(ts: seq<Transaction>, k: string)
    ensures forall x :: x in CustomerRow(ts, k).productsBought <==>
              exists t :: t in ts && t.customerId == k && t.productName == x
    ensures forall i, j :: 0 <= i < j < |CustomerRow(ts, k).productsBought| ==>
              CustomerRow(ts, k).productsBought[i] != CustomerRow(ts, k).productsBought[j]
    ensures forall i, j :: 0 <= i < j < |CustomerRow(ts, k).productsBought| ==>
              SeenBefore(Group(ts, ByCustomer, k), ByProduct,
                         CustomerRow(ts, k).productsBought[i], CustomerRow(ts, k).productsBought[j])
  {
    var g := Group(ts, ByCustomer, k);
    assert CustomerRow(ts, k).productsBought == Distinct(ProductNames(g));
    GroupMembers(ts, ByCustomer, k);
    ProductNamesMembers(g);
    FirstBought(g);
  }

  /** Among a customer's records, one buying each product comes before every one buying a later product. */
  lemma FirstBought(g: seq<Transaction>)
    ensures var bought := Distinct(ProductNames(g));
            forall i, j :: 0 <= i < j < |bought| ==> SeenBefore(g, ByProduct, bought[i], bought[j])
  {
    var names := ProductNames(g);
    var bought := Distinct(names);
    DistinctOrder(names);
    forall i, j | 0 <= i < j < |bought| ensures SeenBefore(g, ByProduct, bought[i], bought[j]) {
      assert FirstBefore(names, bought[i], bought[j]);
      var a :| 0 <= a < |names| && names[a] == bought[i] && forall b :: 0 <= b <= a ==> names[b] != bought[j];
      assert Field(g[a], ByProduct) == bought[i];
    }
  }

  lemma CustomerTableMembers(ts: seq<Transaction>, c: CustomerStats)
    ensures c in CustomerTable(ts) <==> exists t :: t in ts && t.customerId != "" && c == CustomerRow(ts, t.customerId)
  {
    if c in CustomerTable(ts) {
      CustomerTableRowFrom(ts, c);
    }
    if exists t :: t in ts && t.customerId != "" && c == CustomerRow(ts, t.customerId) {
      var t :| t in ts && t.customerId != "" && c == CustomerRow(ts, t.customerId);
      CustomerTableHasRow(ts, t);
    }
  }

  lemma CustomerTableRowFrom(ts: seq<Transaction>, c: CustomerStats)
    requires c in CustomerTable(ts)
    ensures exists t :: t in ts && t.customerId != "" && c == CustomerRow(ts, t.customerId)
  {
    var table, ks := CustomerTable(ts), Keys(WithCustomer(ts), ByCustomer);
    var j :| 0 <= j < |table| && table[j] == c;
    assert ks[j] in ks;
    CustomerKeys(ts);
  }

  lemma CustomerTableHasRow(ts: seq<Transaction>, t: Transaction)
    requires t in ts && t.customerId != ""
    ensures CustomerRow(ts, t.customerId) in CustomerTable(ts)
  {
    var table, ks := CustomerTable(ts), Keys(WithCustomer(ts), ByCustomer);
    CustomerKeys(ts);
    assert t.customerId in ks;
    var j :| 0 <= j < |ks| && ks[j] == t.customerId;
    assert table[j] == CustomerRow(ts, t.customerId);
  }


  /** One entry per named customer, none for the empty id, by descending spending. */
  lemma CustomerAnalysisCorrect(ts: seq<Transaction>)
    ensures forall c :: c in RankedCustomers(ts) <==>
              exists t :: t in ts && t.customerId != "" && c == CustomerRow(ts, t.customerId)
    ensures forall c :: c in RankedCustomers(ts) ==> c.customer != ""
    ensures DistinctKeys(RankedCustomers(ts), CustomerName)
    ensures SortedBy(RankedCustomers(ts), CustomerSpent, true)
  {
    var table, ks := CustomerTable(ts), Keys(WithCustomer(ts), ByCustomer);
    var rows := RankedCustomers(ts);
    forall c ensures c in rows <==> exists t :: t in ts && t.customerId != "" && c == CustomerRow(ts, t.customerId) {
      assert c in rows <==> c in multiset(table);
      CustomerTableMembers(ts, c);
    }
    KeysOccur(WithCustomer(ts), ByCustomer);
    assert DistinctKeys(table, CustomerName);
    StableSortDistinct(table, CustomerSpent, true, CustomerName);
  }

  // ---------------------------------------------------------------------
  // daily_sales_trend

  /** A date's entry while the loop at lines 127-142 runs: customers still a set. */
  datatype DayTally = DayTally(date: string, revenue: real, transactionCount: nat, customers: set<string>)

  /** A date's entry in the result, the set replaced by its size. */
  datatype DayStats = DayStats(date: string, revenue: real, transactionCount: nat, uniqueCustomers: nat)

  function TallyDate(d: DayTally): string { d.date }
  function DayDate(d: DayStats): string { d.date }
  function DayRevenue(d: DayStats): real { d.revenue }

  /** The non-empty customer ids of `g`. */
  function Customers(g: seq<Transaction>): set<string> {
    if g == [] then {}
    else
      var t := g[|g| - 1];
      Customers(g[..|g| - 1]) + (if t.customerId != "" then {t.customerId} else {})
  }

  /** The distinct customers who bought on date `k`. */
  function DayCustomers(ts: seq<Transaction>, k: string): set<string> {
    set t | t in ts && t.date == k && t.customerId != "" :: t.customerId
  }

  /** The entry the loop holds for date `k` with records `g`. */
  function DayTotals(g: seq<Transaction>, k: string): DayTally {
    DayTally(k, TotalRevenue(g), |g|, Customers(g))
  }

  /** Date `k`'s entry in the result. */
  function DayRow(ts: seq<Transaction>, k: string): DayStats {
    var g := Group(ts, ByDate, k);
    DayStats(k, TotalRevenue(g), |g|, |Customers(g)|)
  }

  /** One entry per date, in first-seen order. */
  function DayTable(ts: seq<Transaction>): seq<DayStats> {
    var ks := Keys(ts, ByDate);
    seq(|ks|, j requires 0 <= j < |ks| => DayRow(ts, ks[j]))
  }

  /** The result of daily_sales_trend: the entries sorted by date. */
  function DailyTrend(ts: seq<Transaction>): seq<DayStats> {
    SortByText(DayTable(ts), DayDate)
  }

  /** Lines 139-142: one more record counted into its date's entry. */
  function AddToDay(d: DayTally, t: Transaction): DayTally {
    d.(revenue := d.revenue + Amount(t), transactionCount := d.transactionCount + 1,
       customers := if t.customerId != "" then d.customers + {t.customerId} else d.customers)
  }

  lemma AddToDayTotals(g: seq<Transaction>, t: Transaction)
    ensures AddToDay(DayTotals(g, t.date), t) == DayTotals(g + [t], t.date)
  {
    TotalRevenueSnoc(g, t);
    assert (g + [t])[..|g|] == g;
  }

  /** The loop at lines 127-142. */
  method TallyDays(ts: seq<Transaction>) returns (table: seq<DayTally>)
    ensures Tabulated(table, ts, ByDate, DayTotals)
  {
    table := [];
    for i := 0 to |ts|
      invariant Tabulated(table, ts[..i], ByDate, DayTotals)
    {
      var t := ts[i];
      assert ts[..i + 1] == ts[..i] + [t];
      var j := Find(table, TallyDate, t.date);
      TabulatedFind(table, ts[..i], ByDate, DayTotals, TallyDate, t.date, j);
      ghost var before := table;
      if j < 0 {
        table := table + [DayTally(t.date, 0.0, 0, {})];
        j := |table| - 1;
      }
      AddToDayTotals(Group(ts[..i], ByDate, t.date), t);
      TabulateStep(before, ts[..i], t, ByDate, DayTotals, AddToDay, table, j);
      table := table[j := AddToDay(table[j], t)];
    }
    assert ts[..|ts|] == ts;
  }

  method DailySalesTrend(ts: seq<Transaction>) returns (days: seq<DayStats>)
    ensures days == DailyTrend(ts)
  {
    var table := TallyDays(ts);
    ghost var ks := Keys(ts, ByDate);
    var counted: seq<DayStats> := [];
    for j := 0 to |table|
      invariant |counted| == j
      invariant forall m :: 0 <= m < j ==> counted[m] == DayRow(ts, ks[m])
    {
      var d := table[j];
      counted := counted + [DayStats(d.date, d.revenue, d.transactionCount, |d.customers|)];
    }
    assert counted == DayTable(ts);
    days := SortByText(counted, DayDate);
  }

  lemma {:induction false} CustomersMembers(g: seq<Transaction>)
    ensures forall c :: c in Customers(g) <==> c != "" && exists t :: t in g && t.customerId == c
  {
    if g != [] {
      CustomersMembers(g[..|g| - 1]);
      assert g == g[..|g| - 1] + [g[|g| - 1]];
    }
  }

  /** A date's entry counts every record of that date and each named customer once. */
  lemma DayRowCorrect(ts: seq<Transaction>, k: string)
    ensures DayRow(ts, k).revenue == TotalRevenue(Group(ts, ByDate, k))
    ensures DayRow(ts, k).uniqueCustomers == |DayCustomers(ts, k)|
  {
    var g := Group(ts, ByDate, k);
    GroupMembers(ts, ByDate, k);
    CustomersMembers(g);
    assert Customers(g) == DayCustomers(ts, k);
  }

  lemma DayTableMembers(ts: seq<Transaction>, d: DayStats)
    ensures d in DayTable(ts) <==> exists t :: t in ts && d == DayRow(ts, t.date)
  {
    var table, ks := DayTable(ts), Keys(ts, ByDate);
    KeysOccur(ts, ByDate);
    if d in table {
      var j :| 0 <= j < |table| && table[j] == d;
      assert ks[j] in ks;
      var g := Group(ts, ByDate, ks[j]);
      GroupMembers(ts, ByDate, ks[j]);
      assert g[0] in g;
    }
    if exists t :: t in ts && d == DayRow(ts, t.date) {
      var t :| t in ts && d == DayRow(ts, t.date);
      GroupMembers(ts, ByDate, t.date);
      assert t in Group(ts, ByDate, t.date);
      var j :| 0 <= j < |ks| && ks[j] == t.date;
      assert table[j] == d;
    }
  }

  /** One entry per date that occurs, in strictly increasing date order. */
  lemma DailyTrendCorrect(ts: seq<Transaction>)
    ensures |DailyTrend(ts)| == |Keys(ts, ByDate)|
    ensures DailyTrend(ts) == [] <==> ts == []
    ensures forall d :: d in DailyTrend(ts) <==> exists t :: t in ts && d == DayRow(ts, t.date)
    ensures Ascending(DailyTrend(ts), DayDate)
  {
    var table, days := DayTable(ts), DailyTrend(ts);
    forall d ensures d in days <==> exists t :: t in ts && d == DayRow(ts, t.date) {
      DailyTrendMembers(ts, d);
    }
    if ts != [] {
      assert DayRow(ts, ts[0].date) in days;
    }
    KeysOccur(ts, ByDate);
    assert DistinctKeys(table, DayDate);
    SortByTextAscending(table, DayDate);
  }

  lemma DailyTrendMembers(ts: seq<Transaction>, d: DayStats)
    ensures d in DailyTrend(ts) <==> exists t :: t in ts && d == DayRow(ts, t.date)
  {
    SortByTextMultiset(DayTable(ts), DayDate);
    assert d in DailyTrend(ts) <==> d in multiset(DayTable(ts));
    DayTableMembers(ts, d);
  }

  // ---------------------------------------------------------------------
  // find_peak_sales_day

  /** `(date, revenue, transaction_count)`, `(None, 0.0, 0)` for no records. */
  datatype PeakDay = PeakDay(date: Option<string>, revenue: real, transactionCount: nat)

  function FindPeakSalesDay(ts: seq<Transaction>): (peak: PeakDay)
    ensures peak.date == None <==> DailyTrend(ts) == []
    ensures peak.date == None ==> peak == PeakDay(None, 0.0, 0)
    ensures forall d :: d in DailyTrend(ts) ==> d.revenue <= peak.revenue
  {
    var days := DailyTrend(ts);
    if days == [] then PeakDay(None, 0.0, 0)
    else
      var best := days[MaxIndex(days, DayRevenue)];
      PeakDay(Some(best.date), best.revenue, best.transactionCount)
  }

  /**
   * The peak is a date that occurs, with that date's own totals, no date
   * earns more, and among dates that earn as much it is the earliest.
   */
  lemma FindPeakSalesDayCorrect(ts: seq<Transaction>)
    ensures FindPeakSalesDay(ts).date == None <==> ts == []
    ensures ts != [] ==>
              var k := FindPeakSalesDay(ts).date.value;
              && (exists t :: t in ts && t.date == k)
              && FindPeakSalesDay(ts).revenue == TotalRevenue(Group(ts, ByDate, k))
              && FindPeakSalesDay(ts).transactionCount == |Group(ts, ByDate, k)|
              && (forall t :: t in ts ==> TotalRevenue(Group(ts, ByDate, t.date)) <= FindPeakSalesDay(ts).revenue)
              && (forall t :: t in ts && TotalRevenue(Group(ts, ByDate, t.date)) == FindPeakSalesDay(ts).revenue ==>
                    k == t.date || StrLt(k, t.date))
  {
    DailyTrendCorrect(ts);
    if ts != [] {
      var days := DailyTrend(ts);
      var i := MaxIndex(days, DayRevenue);
      var peak := FindPeakSalesDay(ts);
      assert days[i] in days;
      var k := days[i].date;
      assert days[i] == DayRow(ts, k);
      forall t | t in ts ensures TotalRevenue(Group(ts, ByDate, t.date)) <= peak.revenue {
        assert DayRow(ts, t.date) in days;
      }
      forall t | t in ts && TotalRevenue(Group(ts, ByDate, t.date)) == peak.revenue ensures k == t.date || StrLt(k, t.date) {
        assert DayRow(ts, t.date) in days;
        EarliestPeak(days, i, DayRow(ts, t.date));
      }
    }
  }

  /** In a date-ascending list, the first entry of greatest revenue has the earliest date among those tied with it. */
  lemma EarliestPeak(days: seq<DayStats>, i: nat, d: DayStats)
    requires Ascending(days, DayDate) && i < |days|
    requires forall j :: 0 <= j < i ==> DayRevenue(days[j]) < DayRevenue(days[i])
    requires d in days && d.revenue == days[i].revenue
    ensures days[i].date == d.date || StrLt(days[i].date, d.date)
  {
    var j :| 0 <= j < |days| && days[j] == d;
    if j > i {
      assert StrLt(DayDate(days[i]), DayDate(days[j]));
    }
  }
}
