/**
 * The enrichment step of api_handler.py: a catalogue of products (what the
 * product API returned, taken here as an input) becomes a map from product
 * id to product information, each sales record's ProductID is turned into
 * a catalogue id, and every record is annotated with the catalogue's
 * category, brand and rating when that id is known.
 */
module ApiHandler {
  import opened Options
  import opened Text
  import opened Seqs
  import opened Sales

  /** One product as fetch_all_products returns it; any key may be missing (None). */
  datatype CatalogProduct = CatalogProduct(id: Option<int>, title: Option<string>, category: Option<string>,
                                           brand: Option<string>, price: Option<real>, rating: Option<real>)

  /** The value create_product_mapping stores for a product. */
  datatype ProductInfo = ProductInfo(title: Option<string>, category: Option<string>,
                                     brand: Option<string>, rating: Option<real>)

  function InfoOf(p: CatalogProduct): ProductInfo {
    ProductInfo(p.title, p.category, p.brand, p.rating)
  }

  /** `if product_id:` — present and non-zero. */
  predicate HasId(p: CatalogProduct) {
    p.id.Some? && p.id.value != 0
  }

  // ---------------------------------------------------------------------
  // create_product_mapping

  /** The mapping after the products of `ps`, in order; a later product overwrites an earlier one. */
  function Catalog(ps: seq<CatalogProduct>): map<int, ProductInfo> {
    if ps == [] then map[]
    else
      var m := Catalog(ps[..|ps| - 1]);
      var p := ps[|ps| - 1];
      if HasId(p) then m[p.id.value := InfoOf(p)] else m
  }

  method CreateProductMapping(apiProducts: seq<CatalogProduct>) returns (mapping: map<int, ProductInfo>)
    ensures mapping == Catalog(apiProducts)
  {
    mapping := map[];
    for i := 0 to |apiProducts|
      invariant mapping == Catalog(apiProducts[..i])
    {
      var product := apiProducts[i];
      assert apiProducts[..i + 1][..i] == apiProducts[..i];
      if product.id.Some? && product.id.value != 0 {
        mapping := mapping[product.id.value := InfoOf(product)];
      }
    }
    assert apiProducts[..|apiProducts|] == apiProducts;
  }

  /** The keys are the non-zero ids that occur. */
  lemma {:induction false} CatalogKeys(ps: seq<CatalogProduct>)
    ensures forall k :: k in Catalog(ps) <==> k != 0 && exists i :: 0 <= i < |ps| && ps[i].id == Some(k)
  {
    if ps != [] {
      var pre := ps[..|ps| - 1];
      CatalogKeys(pre);
      forall k ensures k in Catalog(ps) <==> k != 0 && exists i :: 0 <= i < |ps| && ps[i].id == Some(k) {
        if k != 0 && exists i :: 0 <= i < |ps| && ps[i].id == Some(k) {
          var i :| 0 <= i < |ps| && ps[i].id == Some(k);
          if i < |pre| {
            assert pre[i].id == Some(k);
          }
        }
        if k in Catalog(pre) {
          var i :| 0 <= i < |pre| && pre[i].id == Some(k);
          assert ps[i].id == Some(k);
        }
      }
    }
  }

  /** Each key holds the information of the last product carrying that id. */
  lemma {:induction false} CatalogLatest(ps: seq<CatalogProduct>, k: int)
    requires k in Catalog(ps)
    ensures exists i :: 0 <= i < |ps| && ps[i].id == Some(k) && Catalog(ps)[k] == InfoOf(ps[i])
                        && forall j :: i < j < |ps| ==> ps[j].id != Some(k)
  {
    var pre, p := ps[..|ps| - 1], ps[|ps| - 1];
    if HasId(p) && p.id.value == k {
      assert ps[|ps| - 1].id == Some(k) && Catalog(ps)[k] == InfoOf(ps[|ps| - 1]);
    } else {
      assert Catalog(ps) == if HasId(p) then Catalog(pre)[p.id.value := InfoOf(p)] else Catalog(pre);
      assert k in Catalog(pre) && Catalog(ps)[k] == Catalog(pre)[k];
      CatalogLatest(pre, k);
      var i :| 0 <= i < |pre| && pre[i].id == Some(k) && Catalog(pre)[k] == InfoOf(pre[i])
               && forall j :: i < j < |pre| ==> pre[j].id != Some(k);
      assert ps[i] == pre[i];
      CatalogKeys(pre);
      assert p.id != Some(k);
      forall j | i < j < |ps| ensures ps[j].id != Some(k) {
        if j < |pre| {
          assert ps[j] == pre[j];
        }
      }
    }
  }

  // ---------------------------------------------------------------------
  // _extract_id_from_second_digit_onwards

  /** `s.lstrip('Pp')`. */
  function StripLeading(s: string): (r: string)
    ensures |r| <= |s| && r == s[|s| - |r|..]
    ensures forall k :: 0 <= k < |s| - |r| ==> s[k] == 'P' || s[k] == 'p'
    ensures r == [] || (r[0] != 'P' && r[0] != 'p')
  {
    if s != [] && (s[0] == 'P' || s[0] == 'p') then StripLeading(s[1..]) else s
  }

  /** `"".join(ch for ch in s if ch.isdigit())`, on ASCII digits. */
  function KeepDigits(s: string): (ds: string)
    ensures AllDigits(ds)
    ensures |ds| <= |s|
  {
    if s == [] then ""
    else (if IsDigit(s[0]) then [s[0]] else "") + KeepDigits(s[1..])
  }

  /** The digits kept are exactly the digits of `s`, in order: `[c for c in s if c.isdigit()]`. */
  lemma {:induction false} KeepDigitsFilter(s: string)
    ensures KeepDigits(s) == Filter(s, IsDigit)
  {
    if s != [] {
      KeepDigitsFilter(s[1..]);
      assert [s[0]] + s[1..] == s;
      FilterCons(s[0], s[1..], IsDigit);
    }
  }

  /**
   * The catalogue id a ProductID denotes: its digits after the leading
   * `P`s, from the second one on, read as a decimal number; None for an
   * empty id or fewer than two digits.
   */
  function ExtractId(productId: string): Option<int> {
    if productId == "" then None
    else
      var digits := KeepDigits(StripLeading(productId));
      if |digits| < 2 then None else Some(DecimalValue(digits[1..]))
  }

  /**
   * The id's value over all inputs: the digits of the whole ProductID from
   * the second one on (stripping the leading `P`s first makes no
   * difference), or None when it has fewer than two digits, the empty id
   * included.
   */
  lemma ExtractIdValue(productId: string)
    ensures var digits := Filter(productId, IsDigit);
            && AllDigits(digits)
            && ExtractId(productId) == if |digits| < 2 then None else Some(DecimalValue(digits[1..]))
  {
    StripLeadingDigits(productId);
    KeepDigitsFilter(productId);
  }

  lemma {:induction false} KeepDigitsOfDigits(s: string)
    requires AllDigits(s)
    ensures KeepDigits(s) == s
  {
    if s != [] {
      KeepDigitsOfDigits(s[1..]);
    }
  }

  /** Stripping the prefix letters does not change the digits kept. */
  lemma {:induction false} StripLeadingDigits(s: string)
    ensures KeepDigits(StripLeading(s)) == KeepDigits(s)
  {
    if s != [] && (s[0] == 'P' || s[0] == 'p') {
      StripLeadingDigits(s[1..]);
    }
  }

  /** The documented examples: P102 gives 2, P172 gives 72, P2 and "" give nothing. */
  lemma ExtractIdExamples()
    ensures ExtractId("P102") == Some(2)
    ensures ExtractId("P172") == Some(72)
    ensures ExtractId("P2") == None
    ensures ExtractId("") == None
  {
    ExtractIdP102();
    ExtractIdP172();
    ExtractIdP2();
  }

  lemma ExtractIdP102()
    ensures ExtractId("P102") == Some(2)
  {
    var zero, two := '0', '2';
    assert DigitValue(zero) == 0 && DigitValue(two) == 2;
    ExtractIdTwoDigits(zero, two);
    assert "P102" == ['P', '1', zero, two];
  }

  lemma ExtractIdP172()
    ensures ExtractId("P172") == Some(72)
  {
    var seven, two := '7', '2';
    assert DigitValue(seven) == 7 && DigitValue(two) == 2;
    ExtractIdTwoDigits(seven, two);
    assert "P172" == ['P', '1', seven, two];
  }

  lemma ExtractIdP2()
    ensures ExtractId("P2") == None
  {
    assert "P2" == ['P', '2'];
    ExtractIdOneDigit('2');
  }

  /** `P1` and two digits: the id is the two-digit number. */
  lemma ExtractIdTwoDigits(a: char, b: char)
    requires IsDigit(a) && IsDigit(b)
    ensures ExtractId(['P', '1', a, b]) == Some(DigitValue(a) * 10 + DigitValue(b))
  {
    assert ['P', '1', a, b] == ['P', '1'] + [a, b];
    ExtractIdDigits('1', [a, b]);
    TwoDigitValue(a, b);
  }

  /** `P` and a single digit has no second digit. */
  lemma ExtractIdOneDigit(d: char)
    requires IsDigit(d)
    ensures ExtractId(['P', d]) == None
  {
    assert ['P', d] == ['P', d] + [];
    PrefixedDigits(d, []);
  }

  lemma TwoDigitValue(a: char, b: char)
    requires IsDigit(a) && IsDigit(b)
    ensures DecimalValue([a, b]) == DigitValue(a) * 10 + DigitValue(b)
  {
    assert [a, b][..1] == [a];
    assert [a][..0] == [];
    assert DecimalValue([a]) == DigitValue(a);
  }

  /** Stripping `P` then a digit leaves the digit and what follows. */
  lemma StripBeforeDigit(d: char, rest: string)
    requires IsDigit(d)
    ensures StripLeading(['P', d] + rest) == [d] + rest
  {
    var s := ['P', d] + rest;
    assert s[0] == 'P' && s[1..] == [d] + rest;
    assert StripLeading([d] + rest) == [d] + rest;
  }

  lemma PrefixedDigits(d: char, ds: string)
    requires IsDigit(d) && AllDigits(ds)
    ensures KeepDigits(StripLeading(['P', d] + ds)) == [d] + ds
  {
    StripBeforeDigit(d, ds);
    assert AllDigits([d] + ds);
    KeepDigitsOfDigits([d] + ds);
  }

  /** `P`, any digit, then digits `ds`: the id is the value of `ds`. */
  lemma ExtractIdDigits(d: char, ds: string)
    requires IsDigit(d) && AllDigits(ds) && ds != []
    ensures ExtractId(['P', d] + ds) == Some(DecimalValue(ds))
  {
    PrefixedDigits(d, ds);
    assert ([d] + ds)[1..] == ds;
  }

  /** `P` + any digit + the digits of `n` is read back as `n`. */
  lemma ExtractIdRoundTrip(d: char, n: nat)
    requires IsDigit(d)
    ensures ExtractId(['P', d] + DecimalString(n)) == Some(n)
  {
    ExtractIdDigits(d, DecimalString(n));
  }

  /** An id is derived iff the ProductID has at least two digit characters, and it is never negative. */
  lemma ExtractIdShape(productId: string)
    ensures ExtractId(productId).Some? ==> ExtractId(productId).value >= 0
    ensures ExtractId(productId).Some? <==> |productId| - CountFailing(productId, IsDigit) >= 2
  {
    ExtractIdValue(productId);
  }

  // ---------------------------------------------------------------------
  // enrich_sales_data

  /** A sales record with the four API_ fields added. */
  datatype EnrichedTransaction = EnrichedTransaction(txn: Transaction, apiCategory: Option<string>,
                                                     apiBrand: Option<string>, apiRating: Option<real>,
                                                     apiMatch: bool)

  /** The annotation lines 104-123 give one record. */
  function Enrich(t: Transaction, mapping: map<int, ProductInfo>): (e: EnrichedTransaction)
    ensures e.txn == t
    ensures e.apiMatch <==> ExtractId(t.productId).Some? && ExtractId(t.productId).value in mapping
  {
    var id := ExtractId(t.productId);
    if id.Some? && id.value in mapping then
      var info := mapping[id.value];
      EnrichedTransaction(t, info.category, info.brand, info.rating, true)
    else EnrichedTransaction(t, None, None, None, false)
  }

  method EnrichSalesData(transactions: seq<Transaction>, productMapping: map<int, ProductInfo>)
    returns (enriched: seq<EnrichedTransaction>)
    ensures |enriched| == |transactions|
    ensures forall i :: 0 <= i < |transactions| ==> enriched[i] == Enrich(transactions[i], productMapping)
  {
    enriched := [];
    for i := 0 to |transactions|
      invariant |enriched| == i
      invariant forall m :: 0 <= m < i ==> enriched[m] == Enrich(transactions[m], productMapping)
    {
      var txn := transactions[i];
      var enrichedTxn: EnrichedTransaction;
      var apiProductId := ExtractId(txn.productId);
      if apiProductId.Some? {
        if apiProductId.value in productMapping {
          var productInfo := productMapping[apiProductId.value];
          enrichedTxn := EnrichedTransaction(txn, productInfo.category, productInfo.brand, productInfo.rating, true);
        } else {
          enrichedTxn := EnrichedTransaction(txn, None, None, None, false);
        }
      } else {
        enrichedTxn := EnrichedTransaction(txn, None, None, None, false);
      }
      enriched := enriched + [enrichedTxn];
    }
  }

  /**
   * Every record keeps its fields and position; a matched record carries
   * the category, brand and rating of its catalogue entry, and an unmatched
   * one (always so for an empty mapping) carries none.
   */
  lemma EnrichCorrect(t: Transaction, mapping: map<int, ProductInfo>)
    ensures var e := Enrich(t, mapping);
            e.apiMatch ==>
              var info := mapping[ExtractId(t.productId).value];
              e.apiCategory == info.category && e.apiBrand == info.brand && e.apiRating == info.rating
    ensures var e := Enrich(t, mapping);
            !e.apiMatch ==> e.apiCategory.None? && e.apiBrand.None? && e.apiRating.None?
    ensures mapping == map[] ==> !Enrich(t, mapping).apiMatch
  {
  }

  /**
   * End to end: a record whose ProductID is `P`, a digit and the digits of
   * a catalogue id is matched with the last catalogue product of that id.
   */
  lemma EnrichFromCatalog(t: Transaction, ps: seq<CatalogProduct>, d: char, n: nat)
    requires IsDigit(d) && t.productId == ['P', d] + DecimalString(n)
    requires n != 0 && exists i :: 0 <= i < |ps| && ps[i].id == Some(n)
    ensures Enrich(t, Catalog(ps)).apiMatch
    ensures exists i :: 0 <= i < |ps| && ps[i].id == Some(n) && (forall j :: i < j < |ps| ==> ps[j].id != Some(n))
                        && Enrich(t, Catalog(ps)).apiCategory == ps[i].category
                        && Enrich(t, Catalog(ps)).apiBrand == ps[i].brand
                        && Enrich(t, Catalog(ps)).apiRating == ps[i].rating
  {
    ExtractIdRoundTrip(d, n);
    CatalogKeys(ps);
    assert n in Catalog(ps);
    CatalogLatest(ps, n);
  }
}
