/**
 * The transaction record shared by the parser, the validator and the
 * aggregations, its line amount, and grouping of records by one of their
 * text fields in first-seen order (the order in which a Python dict keyed by
 * that field receives its keys).
 */
module Sales {
  import opened Seqs

  datatype Transaction = Transaction(
    transactionId: string,
    date: string,
    productId: string,
    productName: string,
    quantity: int,
    unitPrice: real,
    customerId: string,
    region: string)

  /** Quantity x UnitPrice, recomputed wherever it is needed. */
  function Amount(t: Transaction): real {
    t.quantity as real * t.unitPrice
  }

  /** `sum(t['Quantity'] * t['UnitPrice'] for t in ts)`, accumulated left to right. */
  function TotalRevenue(ts: seq<Transaction>): real {
    if ts == [] then 0.0 else TotalRevenue(ts[..|ts| - 1]) + Amount(ts[|ts| - 1])
  }

  /** Total revenue splits over any cut of the record list. */
  lemma {:induction false} TotalRevenueAppend(a: seq<Transaction>, b: seq<Transaction>)
    ensures TotalRevenue(a + b) == TotalRevenue(a) + TotalRevenue(b)
    decreases |b|
  {
    if b == [] {
      assert a + b == a;
    } else {
      assert (a + b)[..|a + b| - 1] == a + b[..|b| - 1];
      TotalRevenueAppend(a, b[..|b| - 1]);
    }
  }

  /** Records with positive amounts have positive revenue exactly when there are any. */
  lemma {:induction false} TotalRevenuePositive(ts: seq<Transaction>)
    requires forall t :: t in ts ==> Amount(t) > 0.0
    ensures TotalRevenue(ts) >= 0.0
    ensures TotalRevenue(ts) > 0.0 <==> ts != []
  {
    if ts != [] {
      assert ts[|ts| - 1] in ts;
      assert forall t :: t in ts[..|ts| - 1] ==> t in ts;
      TotalRevenuePositive(ts[..|ts| - 1]);
    }
  }

  /** `sum(t['Quantity'] for t in ts)`. */
  function TotalQuantity(ts: seq<Transaction>): int {
    if ts == [] then 0 else TotalQuantity(ts[..|ts| - 1]) + ts[|ts| - 1].quantity
  }

  /** The text field an aggregation groups by. */
  datatype Dimension = ByRegion | ByProduct | ByCustomer | ByDate

  function Field(t: Transaction, d: Dimension): string {
    match d
    case ByRegion => t.region
    case ByProduct => t.productName
    case ByCustomer => t.customerId
    case ByDate => t.date
  }

  /** The records of `ts` whose `d` field is `k`, in input order. */
  function Group(ts: seq<Transaction>, d: Dimension, k: string): (g: seq<Transaction>)
    ensures |g| <= |ts|
  {
    if ts == [] then []
    else
      var last := ts[|ts| - 1];
      Group(ts[..|ts| - 1], d, k) + (if Field(last, d) == k then [last] else [])
  }

  /** The distinct `d` field values of `ts` in first-seen order: the keys of the dict. */
  function Keys(ts: seq<Transaction>, d: Dimension): (ks: seq<string>)
    ensures |ks| <= |ts|
  {
    if ts == [] then []
    else
      var ks := Keys(ts[..|ts| - 1], d);
      var k := Field(ts[|ts| - 1], d);
      if k in ks then ks else ks + [k]
  }

  /** A group holds exactly the records with that key. */
  lemma {:induction false} GroupMembers(ts: seq<Transaction>, d: Dimension, k: string)
    ensures forall t :: t in Group(ts, d, k) <==> t in ts && Field(t, d) == k
  {
    if ts != [] {
      GroupMembers(ts[..|ts| - 1], d, k);
      assert ts == ts[..|ts| - 1] + [ts[|ts| - 1]];
    }
  }

  /** The keys are exactly the field values that occur, each once. */
  lemma {:induction false} KeysOccur(ts: seq<Transaction>, d: Dimension)
    ensures forall k :: k in Keys(ts, d) <==> Group(ts, d, k) != []
    ensures forall i, j :: 0 <= i < j < |Keys(ts, d)| ==> Keys(ts, d)[i] != Keys(ts, d)[j]
  {
    if ts != [] {
      KeysOccur(ts[..|ts| - 1], d);
    }
  }

  /** Some record whose `d` field is `k1` comes before every record whose `d` field is `k2`. */
  predicate SeenBefore(ts: seq<Transaction>, d: Dimension, k1: string, k2: string) {
    exists a :: 0 <= a < |ts| && Field(ts[a], d) == k1 && forall b :: 0 <= b <= a ==> Field(ts[b], d) != k2
  }

  /**
   * The keys are exactly the field values that occur, each once, in the
   * order in which they first occur.
   */
  lemma KeysMembers(ts: seq<Transaction>, d: Dimension)
    ensures forall k :: k in Keys(ts, d) <==> Group(ts, d, k) != []
    ensures forall i, j :: 0 <= i < j < |Keys(ts, d)| ==> Keys(ts, d)[i] != Keys(ts, d)[j]
    ensures forall i, j :: 0 <= i < j < |Keys(ts, d)| ==> SeenBefore(ts, d, Keys(ts, d)[i], Keys(ts, d)[j])
  {
    KeysOccur(ts, d);
    KeysOrder(ts, d);
  }

  lemma {:induction false} KeysOrder(ts: seq<Transaction>, d: Dimension)
    ensures forall i, j :: 0 <= i < j < |Keys(ts, d)| ==> SeenBefore(ts, d, Keys(ts, d)[i], Keys(ts, d)[j])
  {
    if ts != [] {
      var p, t := ts[..|ts| - 1], ts[|ts| - 1];
      assert ts == p + [t];
      KeysOrder(p, d);
      var ks := Keys(p, d);
      forall i, j | 0 <= i < j < |Keys(ts, d)| ensures SeenBefore(ts, d, Keys(ts, d)[i], Keys(ts, d)[j]) {
        if j < |ks| {
          SeenBeforeSnoc(p, t, d, ks[i], ks[j]);
        } else {
          SeenBeforeNew(p, d, ks[i], Field(t, d));
          SeenBeforeSnoc(p, t, d, ks[i], Field(t, d));
        }
      }
    }
  }

  lemma SeenBeforeSnoc(p: seq<Transaction>, t: Transaction, d: Dimension, k1: string, k2: string)
    requires SeenBefore(p, d, k1, k2)
    ensures SeenBefore(p + [t], d, k1, k2)
  {
    var a :| 0 <= a < |p| && Field(p[a], d) == k1 && forall b :: 0 <= b <= a ==> Field(p[b], d) != k2;
    assert forall b :: 0 <= b <= a ==> (p + [t])[b] == p[b];
  }

  /** A key already seen comes before one not seen yet. */
  lemma SeenBeforeNew(p: seq<Transaction>, d: Dimension, k1: string, k2: string)
    requires k1 in Keys(p, d) && k2 !in Keys(p, d)
    ensures SeenBefore(p, d, k1, k2)
  {
    KeysOccur(p, d);
    GroupMembers(p, d, k1);
    GroupMembers(p, d, k2);
    var g := Group(p, d, k1);
    assert g[0] in g;
    var a :| 0 <= a < |p| && p[a] == g[0];
    forall b | 0 <= b <= a ensures Field(p[b], d) != k2 {
      assert p[b] in p;
    }
  }

  /** Unfolding the last record of a group. */
  lemma GroupSnoc(ts: seq<Transaction>, t: Transaction, d: Dimension, k: string)
    ensures Group(ts + [t], d, k) == Group(ts, d, k) + (if Field(t, d) == k then [t] else [])
  {
    assert (ts + [t])[..|ts|] == ts;
  }

  /** Unfolding the last record of the key list. */
  lemma KeysSnoc(ts: seq<Transaction>, t: Transaction, d: Dimension)
    ensures Keys(ts + [t], d)
         == if Field(t, d) in Keys(ts, d) then Keys(ts, d) else Keys(ts, d) + [Field(t, d)]
  {
    assert (ts + [t])[..|ts|] == ts;
  }

  lemma TotalRevenueSnoc(ts: seq<Transaction>, t: Transaction)
    ensures TotalRevenue(ts + [t]) == TotalRevenue(ts) + Amount(t)
  {
    assert (ts + [t])[..|ts|] == ts;
  }

  lemma TotalQuantitySnoc(ts: seq<Transaction>, t: Transaction)
    ensures TotalQuantity(ts + [t]) == TotalQuantity(ts) + t.quantity
  {
    assert (ts + [t])[..|ts|] == ts;
  }

  /** Sum of the group revenues over a list of keys. */
  function GroupRevenueSum(ts: seq<Transaction>, d: Dimension, ks: seq<string>): real {
    if ks == [] then 0.0
    else GroupRevenueSum(ts, d, ks[..|ks| - 1]) + TotalRevenue(Group(ts, d, ks[|ks| - 1]))
  }

  /** Sum of the group sizes over a list of keys. */
  function GroupCountSum(ts: seq<Transaction>, d: Dimension, ks: seq<string>): nat {
    if ks == [] then 0
    else GroupCountSum(ts, d, ks[..|ks| - 1]) + |Group(ts, d, ks[|ks| - 1])|
  }

  lemma {:induction false} GroupRevenueSumStep(ts: seq<Transaction>, t: Transaction, d: Dimension, ks: seq<string>)
    requires forall i, j :: 0 <= i < j < |ks| ==> ks[i] != ks[j]
    ensures GroupRevenueSum(ts + [t], d, ks)
         == GroupRevenueSum(ts, d, ks) + (if Field(t, d) in ks then Amount(t) else 0.0)
  {
    if ks != [] {
      var init, k := ks[..|ks| - 1], ks[|ks| - 1];
      assert ks == init + [k];
      GroupRevenueSumStep(ts, t, d, init);
      GroupSnoc(ts, t, d, k);
      if Field(t, d) == k {
        TotalRevenueSnoc(Group(ts, d, k), t);
        assert k !in init;
      } else {
        assert Group(ts + [t], d, k) == Group(ts, d, k);
        assert Field(t, d) in ks <==> Field(t, d) in init;
      }
    }
  }

  lemma {:induction false} GroupCountSumStep(ts: seq<Transaction>, t: Transaction, d: Dimension, ks: seq<string>)
    requires forall i, j :: 0 <= i < j < |ks| ==> ks[i] != ks[j]
    ensures GroupCountSum(ts + [t], d, ks)
         == GroupCountSum(ts, d, ks) + (if Field(t, d) in ks then 1 else 0)
  {
    if ks != [] {
      var init, k := ks[..|ks| - 1], ks[|ks| - 1];
      assert ks == init + [k];
      GroupCountSumStep(ts, t, d, init);
      GroupSnoc(ts, t, d, k);
      if Field(t, d) == k {
        assert k !in init;
      } else {
        assert Field(t, d) in ks <==> Field(t, d) in init;
      }
    }
  }

  /** The groups partition the records: their revenues add up to the total revenue. */
  lemma {:induction false} RevenuePartition(ts: seq<Transaction>, d: Dimension)
    ensures GroupRevenueSum(ts, d, Keys(ts, d)) == TotalRevenue(ts)
  {
    if ts != [] {
      var p, t := ts[..|ts| - 1], ts[|ts| - 1];
      assert ts == p + [t];
      RevenuePartition(p, d);
      RevenuePartitionStep(p, t, d);
    }
  }

  lemma RevenuePartitionStep(p: seq<Transaction>, t: Transaction, d: Dimension)
    requires GroupRevenueSum(p, d, Keys(p, d)) == TotalRevenue(p)
    ensures GroupRevenueSum(p + [t], d, Keys(p + [t], d)) == TotalRevenue(p + [t])
  {
    var ks, k := Keys(p, d), Field(t, d);
    KeysOccur(p, d);
    GroupRevenueSumStep(p, t, d, ks);
    KeysSnoc(p, t, d);
    TotalRevenueSnoc(p, t);
    if k in ks {
      assert Keys(p + [t], d) == ks;
      assert GroupRevenueSum(p + [t], d, ks) == GroupRevenueSum(p, d, ks) + Amount(t);
    } else {
      assert Keys(p + [t], d) == ks + [k];
      assert GroupRevenueSum(p + [t], d, ks) == GroupRevenueSum(p, d, ks);
      NewKeyRevenue(p, t, d, ks);
    }
  }

  lemma NewKeyRevenue(p: seq<Transaction>, t: Transaction, d: Dimension, ks: seq<string>)
    requires Group(p, d, Field(t, d)) == []
    ensures GroupRevenueSum(p + [t], d, ks + [Field(t, d)])
         == GroupRevenueSum(p + [t], d, ks) + Amount(t)
  {
    var k := Field(t, d);
    var ks' := ks + [k];
    assert ks'[..|ks'| - 1] == ks;
    GroupSnoc(p, t, d, k);
    assert Group(p + [t], d, k) == [t];
    TotalRevenueSnoc([], t);
    assert [] + [t] == [t];
  }

  /** The groups partition the records: their sizes add up to the number of records. */
  lemma {:induction false} CountPartition(ts: seq<Transaction>, d: Dimension)
    ensures GroupCountSum(ts, d, Keys(ts, d)) == |ts|
  {
    if ts != [] {
      var p, t := ts[..|ts| - 1], ts[|ts| - 1];
      assert ts == p + [t];
      var ks, k := Keys(p, d), Field(t, d);
      CountPartition(p, d);
      KeysOccur(p, d);
      GroupCountSumStep(p, t, d, ks);
      KeysSnoc(p, t, d);
      if k !in ks {
        var ks' := ks + [k];
        assert ks'[..|ks'| - 1] == ks;
        GroupSnoc(p, t, d, k);
        assert Group(p, d, k) == [];
      }
    }
  }

  /** A sum over per-key rows that each carry their group's revenue is the sum of the group revenues. */
  lemma {:induction false} SumOfGroupRevenues<T>(rows: seq<T>, f: T -> real, ts: seq<Transaction>, d: Dimension, ks: seq<string>)
    requires |rows| == |ks|
    requires forall j :: 0 <= j < |rows| ==> f(rows[j]) == TotalRevenue(Group(ts, d, ks[j]))
    ensures SumBy(rows, f) == GroupRevenueSum(ts, d, ks)
  {
    if rows != [] {
      var n := |rows| - 1;
      var pre, kpre := rows[..n], ks[..n];
      forall j | 0 <= j < n ensures f(pre[j]) == TotalRevenue(Group(ts, d, kpre[j])) {
        assert pre[j] == rows[j] && kpre[j] == ks[j];
      }
      SumOfGroupRevenues(pre, f, ts, d, kpre);
      LastTermOfSum(rows, f);
      assert GroupRevenueSum(ts, d, ks) == GroupRevenueSum(ts, d, kpre) + TotalRevenue(Group(ts, d, ks[n]));
    }
  }

  lemma LastTermOfSum<T>(rows: seq<T>, f: T -> real)
    requires rows != []
    ensures SumBy(rows, f) == SumBy(rows[..|rows| - 1], f) + f(rows[|rows| - 1])
  {
    var n := |rows| - 1;
    assert rows == rows[..n] + [rows[n]];
    SumByAppend(rows[..n], [rows[n]], f);
    assert SumBy([rows[n]], f) == f(rows[n]) + SumBy([], f);
  }

  /** A sum over per-key rows that each carry their group's size is the sum of the group sizes. */
  lemma {:induction false} SumOfGroupSizes<T>(rows: seq<T>, f: T -> real, ts: seq<Transaction>, d: Dimension, ks: seq<string>)
    requires |rows| == |ks|
    requires forall j :: 0 <= j < |rows| ==> f(rows[j]) == |Group(ts, d, ks[j])| as real
    ensures SumBy(rows, f) == GroupCountSum(ts, d, ks) as real
  {
    if rows != [] {
      var n := |rows| - 1;
      var pre, kpre := rows[..n], ks[..n];
      forall j | 0 <= j < n ensures f(pre[j]) == |Group(ts, d, kpre[j])| as real {
        assert pre[j] == rows[j] && kpre[j] == ks[j];
      }
      SumOfGroupSizes(pre, f, ts, d, kpre);
      LastTermOfSum(rows, f);
      assert GroupCountSum(ts, d, ks) == GroupCountSum(ts, d, kpre) + |Group(ts, d, ks[n])|;
    }
  }

  /**
   * `table` is the dict an aggregation loop has built from the records `p`:
   * one entry per key in first-seen order, entry `j` computed by `row` from
   * the group of its key.
   */
  predicate Tabulated<T(==)>(table: seq<T>, p: seq<Transaction>, d: Dimension, row: (seq<Transaction>, string) -> T) {
    var ks := Keys(p, d);
    |table| == |ks| && forall j :: 0 <= j < |table| ==> table[j] == row(Group(p, d, ks[j]), ks[j])
  }

  /**
   * What a key lookup in a tabulated dict tells about the keys seen: found at
   * `j` means `k` is the `j`th key, not found means `k` is new.
   */
  lemma TabulatedFind<T>(table: seq<T>, p: seq<Transaction>, d: Dimension,
                         row: (seq<Transaction>, string) -> T, name: T -> string, k: string, j: int)
    requires Tabulated(table, p, d, row)
    requires forall g, k' :: name(row(g, k')) == k'
    requires -1 <= j < |table|
    requires j == -1 <==> forall i :: 0 <= i < |table| ==> name(table[i]) != k
    requires j >= 0 ==> name(table[j]) == k
    ensures j >= 0 ==> Keys(p, d)[j] == k
    ensures j == -1 ==> k !in Keys(p, d)
  {
    var ks := Keys(p, d);
    forall i | 0 <= i < |ks| ensures name(table[i]) == ks[i] {
      assert table[i] == row(Group(p, d, ks[i]), ks[i]);
    }
  }

  /**
   * One step of a loop that tabulates `row` per key: `grown` is the table
   * after the entry for `t`'s key was created if it was missing, `j` that
   * entry's index; adding `t` to it tabulates `p + [t]`.
   */
  lemma TabulateStep<T>(table: seq<T>, p: seq<Transaction>, t: Transaction, d: Dimension,
                        row: (seq<Transaction>, string) -> T, add: (T, Transaction) -> T, grown: seq<T>, j: int)
    requires Tabulated(table, p, d, row)
    requires (grown == table && 0 <= j < |table| && Keys(p, d)[j] == Field(t, d))
          || (grown == table + [row([], Field(t, d))] && j == |table| && Field(t, d) !in Keys(p, d))
    requires add(row(Group(p, d, Field(t, d)), Field(t, d)), t) == row(Group(p, d, Field(t, d)) + [t], Field(t, d))
    ensures 0 <= j < |grown|
    ensures Tabulated(grown[j := add(grown[j], t)], p + [t], d, row)
  {
    var k, ks := Field(t, d), Keys(p, d);
    var next := grown[j := add(grown[j], t)];
    KeysOccur(p, d);
    KeysSnoc(p, t, d);
    var ks' := Keys(p + [t], d);
    if j == |table| {
      assert ks' == ks + [k];
      assert Group(p, d, k) == [];
    } else {
      assert ks' == ks;
    }
    forall m | 0 <= m < |next| ensures next[m] == row(Group(p + [t], d, ks'[m]), ks'[m]) {
      GroupSnoc(p, t, d, ks'[m]);
      if m == j {
        assert ks'[m] == k;
        assert grown[j] == row(Group(p, d, k), k);
        assert Group(p + [t], d, k) == Group(p, d, k) + [t];
        assert next[m] == add(grown[j], t);
      } else {
        assert ks'[m] == ks[m] != k;
        assert next[m] == table[m];
        assert Group(p + [t], d, ks[m]) == Group(p, d, ks[m]);
      }
    }
  }


  predicate HasCustomer(t: Transaction) {
    t.customerId != ""
  }

  /** The records that name a customer: the ones customer_analysis does not skip. */
  function WithCustomer(ts: seq<Transaction>): seq<Transaction> {
    Filter(ts, HasCustomer)
  }

  lemma WithCustomerSnoc(ts: seq<Transaction>, t: Transaction)
    ensures WithCustomer(ts + [t]) == if HasCustomer(t) then WithCustomer(ts) + [t] else WithCustomer(ts)
  {
    assert (ts + [t])[..|ts|] == ts;
  }

  /** Skipping records without a customer loses no record of a named customer. */
  lemma {:induction false} WithCustomerGroup(ts: seq<Transaction>, k: string)
    requires k != ""
    ensures Group(WithCustomer(ts), ByCustomer, k) == Group(ts, ByCustomer, k)
  {
    if ts != [] {
      var p, t := ts[..|ts| - 1], ts[|ts| - 1];
      assert ts == p + [t];
      WithCustomerGroup(p, k);
      GroupSnoc(p, t, ByCustomer, k);
      if HasCustomer(t) {
        assert WithCustomer(ts) == WithCustomer(p) + [t];
        GroupSnoc(WithCustomer(p), t, ByCustomer, k);
      } else {
        assert WithCustomer(ts) == WithCustomer(p);
      }
    }
  }
}
