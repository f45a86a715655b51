/**
 * The record parser and the validation/filter pipeline of
 * utils/file_handler.py. Raw lines arrive already read, with the header
 * dropped and blank lines removed; the parser turns each `|`-separated line
 * into a transaction or drops it, and the validator classifies the records
 * and narrows them by region and by line amount.
 */
module FileHandler {
  import opened Options
  import opened Text
  import opened Seqs
  import opened Sales

  // ---------------------------------------------------------------------
  // parse_transactions

  /** `s.strip().replace(',', '')`: the cleaning applied to the name and the numbers. */
  function Decomma(s: string): string {
    RemoveAll(Trim(s), ',')
  }

  /**
   * The dict built at lines 41-50 from the eight fields of a line, or None
   * when `int()` or `float()` raises ValueError.
   */
  function ParseFields(fields: seq<string>): Option<Transaction>
    requires |fields| == 8
  {
    var quantity := ParseInt(Decomma(fields[4]));
    var price := ParseFloat(Decomma(fields[5]));
    if quantity.None? || price.None? then None
    else
      Some(Transaction(Trim(fields[0]), Trim(fields[1]), Trim(fields[2]), Decomma(fields[3]),
                       quantity.value, price.value, Trim(fields[6]), Trim(fields[7])))
  }

  /** One line: split on `|`, skipped unless there are exactly eight fields. */
  function ParseLine(line: string): Option<Transaction> {
    var fields := Split(line, '|');
    if |fields| != 8 then None else ParseFields(fields)
  }

  /** The parsed records of `lines`, in line order. */
  function ParseAll(lines: seq<string>): seq<Transaction> {
    FilterMap(lines, ParseLine)
  }

  method ParseTransactions(rawLines: seq<string>) returns (transactions: seq<Transaction>)
    ensures transactions == ParseAll(rawLines)
  {
    transactions := [];
    for i := 0 to |rawLines|
      invariant transactions == ParseAll(rawLines[..i])
    {
      var line := rawLines[i];
      ghost var parsed := ParseLine(line);
      ParseAllPrefix(rawLines, i);
      var fields := Split(line, '|');
      if |fields| != 8 {
        assert parsed == None;
        continue;
      }
      var quantity := ParseInt(Decomma(fields[4]));
      var price := ParseFloat(Decomma(fields[5]));
      if quantity.None? || price.None? {
        assert parsed == None;
        continue;
      }
      var transaction := Transaction(Trim(fields[0]), Trim(fields[1]), Trim(fields[2]), Decomma(fields[3]),
                                     quantity.value, price.value, Trim(fields[6]), Trim(fields[7]));
      assert parsed == Some(transaction);
      transactions := transactions + [transaction];
    }
    assert rawLines[..|rawLines|] == rawLines;
  }

  /** Parsing one more line of the input. */
  lemma ParseAllPrefix(lines: seq<string>, i: nat)
    requires i < |lines|
    ensures ParseAll(lines[..i + 1]) == ParseAll(lines[..i]) + (if ParseLine(lines[i]).Some? then [ParseLine(lines[i]).value] else [])
  {
    assert lines[..i + 1][..i] == lines[..i];
  }

  /** Lines are parsed independently; at most one record per line; every record comes from a line. */
  lemma ParseAllProperties(a: seq<string>, b: seq<string>)
    ensures ParseAll(a + b) == ParseAll(a) + ParseAll(b)
    ensures |ParseAll(a)| <= |a|
    ensures forall t :: t in ParseAll(a) <==> exists line :: line in a && ParseLine(line) == Some(t)
  {
    FilterMapAppend(a, b, ParseLine);
    FilterMapBound(a, ParseLine);
    FilterMapMembers(a, ParseLine);
  }

  /**
   * A line gives a record exactly when it has seven `|` separators and both
   * numbers convert; the record's text fields are the trimmed fields, the
   * product name is its trimmed field with every comma removed, and the
   * numbers are the conversions of the cleaned fields.
   */
  lemma ParseLineCorrect(line: string)
    ensures var fields := Split(line, '|');
            ParseLine(line).Some? <==>
              Count(line, '|') == 7
              && ParseInt(Decomma(fields[4])).Some? && ParseFloat(Decomma(fields[5])).Some?
    ensures ParseLine(line).Some? ==>
              var fields, t := Split(line, '|'), ParseLine(line).value;
              && t.transactionId == Trim(fields[0]) && t.date == Trim(fields[1])
              && t.productId == Trim(fields[2]) && t.customerId == Trim(fields[6])
              && t.region == Trim(fields[7])
              && t.productName == RemoveAll(Trim(fields[3]), ',')
              && ',' !in t.productName && '|' !in t.productName
              && Some(t.quantity) == ParseInt(Decomma(fields[4]))
              && Some(t.unitPrice) == ParseFloat(Decomma(fields[5]))
              && Bare(t.transactionId) && Bare(t.date) && Bare(t.productId)
              && Bare(t.customerId) && Bare(t.region)
  {
    var fields := Split(line, '|');
    if |fields| == 8 {
      var quantity, price := ParseInt(Decomma(fields[4])), ParseFloat(Decomma(fields[5]));
      if quantity.Some? && price.Some? {
        assert ParseLine(line)
            == Some(Transaction(Trim(fields[0]), Trim(fields[1]), Trim(fields[2]), Decomma(fields[3]),
                                quantity.value, price.value, Trim(fields[6]), Trim(fields[7])));
        CleanName(fields[3]);
      }
    }
  }

  /** A field without `|` still has none after cleaning, and it has no comma. */
  lemma CleanName(field: string)
    requires '|' !in field
    ensures ',' !in Decomma(field) && '|' !in Decomma(field)
  {
    assert forall x :: x in Decomma(field) ==> x in Trim(field);
    assert Trim(field) == TrimEnd(TrimStart(field));
    assert forall x :: x in Trim(field) ==> x in field;
  }

  /** Cleaning leaves a field alone when it has no edge whitespace and no comma. */
  lemma DecommaClean(s: string)
    requires Bare(s) && ',' !in s
    ensures Decomma(s) == s
  {
    RemoveAbsent(s, ',');
  }

  lemma NoCommaInNumber(quantity: int)
    ensures ',' !in IntString(quantity)
  {
    var ds := DecimalString(if quantity < 0 then -quantity else quantity);
    assert !IsDigit(',');
    assert IntString(quantity) == (if quantity < 0 then "-" else "") + ds;
  }

  lemma NoCommaInDigits(ds: string)
    requires AllDigits(ds)
    ensures ',' !in ds
  {
    assert !IsDigit(',');
  }

  /**
   * Writing clean fields out with `|` and reading them back gives the
   * record: the quantity written as `str(q)`, a whole price as its digits.
   */
  lemma ParseLineJoin(fields: seq<string>, quantity: int, price: nat)
    requires |fields| == 8
    requires forall i :: 0 <= i < 8 ==> '|' !in fields[i] && Bare(fields[i])
    requires ',' !in fields[3]
    requires fields[4] == IntString(quantity) && fields[5] == DecimalString(price)
    ensures ParseLine(Join(fields, '|'))
         == Some(Transaction(fields[0], fields[1], fields[2], fields[3], quantity, price as real, fields[6], fields[7]))
  {
    SplitJoin(fields, '|');
    CleanFields(fields, quantity, price);
  }

  lemma CleanFields(fields: seq<string>, quantity: int, price: nat)
    requires |fields| == 8
    requires forall i :: 0 <= i < 8 ==> Bare(fields[i])
    requires ',' !in fields[3]
    requires fields[4] == IntString(quantity) && fields[5] == DecimalString(price)
    ensures ParseFields(fields)
         == Some(Transaction(fields[0], fields[1], fields[2], fields[3], quantity, price as real, fields[6], fields[7]))
  {
    DecommaClean(fields[3]);
    NoCommaInNumber(quantity);
    DecommaClean(fields[4]);
    NoCommaInDigits(fields[5]);
    DecommaClean(fields[5]);
    ParseIntString(quantity);
    ParseFloatDecimal(price);
    assert Bare(fields[0]) && Bare(fields[1]) && Bare(fields[2]) && Bare(fields[6]) && Bare(fields[7]);
  }

  // ---------------------------------------------------------------------
  // validate_and_filter

  /** Line 83: every required field is truthy (non-empty text, non-zero numbers). */
  predicate RequiredPresent(t: Transaction) {
    && t.transactionId != "" && t.date != "" && t.productId != "" && t.productName != ""
    && t.quantity != 0 && t.unitPrice != 0.0 && t.region != ""
  }

  /** The business rules of lines 72-97. */
  predicate IsValid(t: Transaction) {
    && t.quantity > 0
    && t.unitPrice > 0.0
    && RequiredPresent(t)
    && StartsWith(t.transactionId, "T")
    && StartsWith(t.productId, "P")
    && (t.customerId == "" || StartsWith(t.customerId, "C"))
  }

  /** The records passing every rule, in input order. */
  function ValidRecords(ts: seq<Transaction>): seq<Transaction> {
    Filter(ts, IsValid)
  }

  /** The region filter runs for a non-empty region only. */
  predicate RegionFilterOn(region: Option<string>) {
    region.Some? && region.value != ""
  }

  predicate InRegion(t: Transaction, region: Option<string>) {
    !RegionFilterOn(region) || t.region == region.value
  }

  /** The amount filter runs when either bound is given. */
  predicate AmountFilterOn(minAmount: Option<real>, maxAmount: Option<real>) {
    minAmount.Some? || maxAmount.Some?
  }

  /** Lines 138-139: an absent bound imposes nothing. */
  predicate InRange(t: Transaction, minAmount: Option<real>, maxAmount: Option<real>) {
    && (minAmount.None? || Amount(t) >= minAmount.value)
    && (maxAmount.None? || Amount(t) <= maxAmount.value)
  }

  function RegionStage(ts: seq<Transaction>, region: Option<string>): seq<Transaction> {
    if RegionFilterOn(region) then Filter(ts, t => InRegion(t, region)) else ts
  }

  function AmountStage(ts: seq<Transaction>, minAmount: Option<real>, maxAmount: Option<real>): seq<Transaction> {
    if AmountFilterOn(minAmount, maxAmount) then Filter(ts, t => InRange(t, minAmount, maxAmount)) else ts
  }

  /** The list validate_and_filter returns: valid records narrowed by region, then by amount. */
  function Filtered(ts: seq<Transaction>, region: Option<string>, minAmount: Option<real>, maxAmount: Option<real>): seq<Transaction> {
    AmountStage(RegionStage(ValidRecords(ts), region), minAmount, maxAmount)
  }

  /** The `filter_summary` dict of lines 144-151. */
  datatype FilterSummary = FilterSummary(totalInput: nat, invalid: nat, validAfterCleaning: nat,
                                         filteredByRegion: nat, filteredByAmount: nat, finalCount: nat)

  method ValidateAndFilter(ts: seq<Transaction>, region: Option<string>, minAmount: Option<real>, maxAmount: Option<real>)
    returns (kept: seq<Transaction>, invalidCount: nat, summary: FilterSummary)
    ensures kept == Filtered(ts, region, minAmount, maxAmount)
    ensures invalidCount == CountFailing(ts, IsValid)
    ensures summary.totalInput == |ts| && summary.invalid == invalidCount
    ensures summary.validAfterCleaning == |ValidRecords(ts)|
    ensures summary.filteredByRegion == |ValidRecords(ts)| - |RegionStage(ValidRecords(ts), region)|
    ensures summary.filteredByAmount == |RegionStage(ValidRecords(ts), region)| - |kept|
    ensures summary.finalCount == |kept|
  {
    var valid: seq<Transaction> := [];
    invalidCount := 0;
    for i := 0 to |ts|
      invariant valid == ValidRecords(ts[..i])
      invariant invalidCount == CountFailing(ts[..i], IsValid)
    {
      var t := ts[i];
      assert ts[..i + 1][..i] == ts[..i];
      var isValid := true;
      if t.quantity <= 0 {
        isValid := false;
      }
      if t.unitPrice <= 0.0 {
        isValid := false;
      }
      if !RequiredPresent(t) {
        isValid := false;
      }
      if !StartsWith(t.transactionId, "T") {
        isValid := false;
      }
      if !StartsWith(t.productId, "P") {
        isValid := false;
      }
      if t.customerId != "" && !StartsWith(t.customerId, "C") {
        isValid := false;
      }
      assert isValid == IsValid(t);
      if isValid {
        valid := valid + [t];
      } else {
        invalidCount := invalidCount + 1;
      }
    }
    assert ts[..|ts|] == ts;
    var validAfterCleaning := |valid|;

    kept := valid;
    var filteredByRegion, filteredByAmount := 0, 0;
    if RegionFilterOn(region) {
      var before := |kept|;
      kept := Filter(kept, t => InRegion(t, region));
      filteredByRegion := before - |kept|;
    }
    assert kept == RegionStage(valid, region);
    if AmountFilterOn(minAmount, maxAmount) {
      var before := |kept|;
      kept := Filter(kept, t => InRange(t, minAmount, maxAmount));
      filteredByAmount := before - |kept|;
    }
    summary := FilterSummary(|ts|, invalidCount, validAfterCleaning, filteredByRegion, filteredByAmount, |kept|);
  }

  /** Valid and invalid records account for every input, and the stages only remove. */
  lemma FilteredCounts(ts: seq<Transaction>, region: Option<string>, minAmount: Option<real>, maxAmount: Option<real>)
    ensures |ValidRecords(ts)| + CountFailing(ts, IsValid) == |ts|
    ensures |RegionStage(ValidRecords(ts), region)| <= |ValidRecords(ts)|
    ensures |Filtered(ts, region, minAmount, maxAmount)| <= |RegionStage(ValidRecords(ts), region)|
  {
  }

  /**
   * A record is kept iff it is an input record that passes every rule, is
   * in the requested region (when one is named) and has an amount within
   * the given bounds.
   */
  lemma FilteredMembers(ts: seq<Transaction>, region: Option<string>, minAmount: Option<real>, maxAmount: Option<real>)
    ensures forall t :: t in Filtered(ts, region, minAmount, maxAmount) <==>
              t in ts && IsValid(t) && InRegion(t, region) && InRange(t, minAmount, maxAmount)
  {
  }

  /** Filtering only narrows: the result is a subsequence of the valid records, which are one of the input. */
  lemma FilteredSubseq(ts: seq<Transaction>, region: Option<string>, minAmount: Option<real>, maxAmount: Option<real>)
    ensures IsSubseq(ValidRecords(ts), ts)
    ensures IsSubseq(Filtered(ts, region, minAmount, maxAmount), ValidRecords(ts))
    ensures IsSubseq(Filtered(ts, region, minAmount, maxAmount), ts)
  {
    var valid := ValidRecords(ts);
    var byRegion := RegionStage(valid, region);
    var kept := Filtered(ts, region, minAmount, maxAmount);
    IsSubseqReflexive(valid);
    IsSubseqReflexive(byRegion);
    IsSubseqTransitive(kept, byRegion, valid);
    IsSubseqTransitive(kept, valid, ts);
  }

  /** Running validation and the same filters again on the result changes nothing. */
  lemma FilteredIdempotent(ts: seq<Transaction>, region: Option<string>, minAmount: Option<real>, maxAmount: Option<real>)
    ensures var kept := Filtered(ts, region, minAmount, maxAmount);
            Filtered(kept, region, minAmount, maxAmount) == kept
  {
    var kept := Filtered(ts, region, minAmount, maxAmount);
    FilteredMembers(ts, region, minAmount, maxAmount);
    FilterKeepsAll(kept, IsValid);
    if RegionFilterOn(region) {
      FilterKeepsAll(kept, t => InRegion(t, region));
    }
    if AmountFilterOn(minAmount, maxAmount) {
      FilterKeepsAll(kept, t => InRange(t, minAmount, maxAmount));
    }
  }
}
