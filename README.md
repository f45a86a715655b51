# Sales analytics core in Dafny

This project models the data path of a small sales-analytics program. Raw
`|`-separated sales lines are parsed into transaction records. The records
are then validated against the business rules and narrowed by an optional
region and amount range. Next they are aggregated: total revenue, per-region
totals and shares, top-selling and low-performing products, per-customer
statistics, the daily trend and the peak sales day. Finally each record is
enriched with catalogue data from a product API.

The project has these modules:

- `Sales` (`sales.dfy`) holds the shared pieces:
  - the transaction record and its line amount (Quantity × UnitPrice);
  - total revenue;
  - grouping of records by a text field in first-seen order. This is the key order a Python dict receives when a loop fills it.
- `FileHandler` (`file_handler.dfy`) holds `parse_transactions` and `validate_and_filter` of `utils/file_handler.py`.
- `DataProcessor` (`data_processor.dfy`) holds the seven functions of `data_processor.py`.
- `ApiHandler` (`api_handler.dfy`) holds `create_product_mapping`, `_extract_id_from_second_digit_onwards` and `enrich_sales_data` of `api_handler.py`.
- The support modules are:
  - `Text`: Python's `strip`, `split`, `replace`, `startswith`, `int()` and `float()` on decimal text, and string `<`;
  - `Seqs`: filters, sums, percentages, slicing and `max`;
  - `Sorting`: Python's stable `sort`/`sorted` on a numeric key, and `sorted` on text keys;
  - `Options`.

How the Python data is represented:

- Each dict the source builds in a loop (`region_data`, `product_data`, `customer_data`, `daily_data`) is a sequence of rows in key-insertion order.
- The loop that fills the dict is a method. It is proved to build exactly the table given by a grouping function: row `j` holds key `j`'s totals, and the keys come in first-seen order. Sorting and slicing then act on that table.
- Money is `real`.
- A conversion that raises `ValueError` is `None`.

The comment at `api_handler.py` line 103 says a ProductID maps to its whole number (`P101 → 101`, `P5 → 5`). The code and its docstring (lines 63-88) instead take the digits from the second one onwards, so `P101 → 1`, `P102 → 2` and `P5 → None`. The model follows the code.

## Model

| member | source | states |
|---|---|---|
| FileHandler.ParseTransactions | utils/file_handler.py:25-56 | The list returned is the parsed record of each line that yields one, in line order. |
| FileHandler.ParseAllProperties | utils/file_handler.py:32-51 | Lines are parsed independently: parsing `a + b` gives the records of `a` followed by those of `b`. There are never more records than lines. A record appears iff some line parses to it. |
| FileHandler.ParseLineCorrect | utils/file_handler.py:33-54 | A line yields a record iff it has exactly seven pipe separators (eight fields) and both Quantity and UnitPrice convert. TransactionID, Date, ProductID, CustomerID and Region are the stripped fields. ProductName is the stripped field with every comma removed, so it contains no comma. Quantity and UnitPrice are `int()` and `float()` of the stripped, comma-free fields. |
| FileHandler.ParseLineJoin | utils/file_handler.py:33-50 | Joining eight clean fields with the pipe character and parsing the result gives back the record. Here Quantity is written as `str(q)` and the price as decimal digits. |
| FileHandler.ValidateAndFilter | utils/file_handler.py:59-153 | Returns the valid records, narrowed by the region filter and then the amount filter. Also returns the number of records that fail a rule, and a summary: total input, invalid count, valid count, removed by region, removed by amount, final count. |
| FileHandler.FilteredCounts | utils/file_handler.py:64-104 | Valid plus invalid records make up the whole input, and each stage can only shrink the list. |
| FileHandler.FilteredMembers | utils/file_handler.py:69-141 | A record is kept iff it is an input record, passes all six rules, has the requested region (when a non-empty region is given) and has an amount within each given bound. |
| FileHandler.FilteredSubseq | utils/file_handler.py:124-141 | The valid list is a subsequence of the input, and the filtered list is a subsequence of the valid list. |
| FileHandler.FilteredIdempotent | utils/file_handler.py:124-153 | Running validation and the same filters again on the result returns it unchanged. |
| DataProcessor.CalculateTotalRevenue | data_processor.py:3-9 | Total revenue is 0 for no records and splits as a sum over any cut of the list. |
| DataProcessor.TallyRegions | data_processor.py:17-32 | Row `j` of the dict holds the total sales and the record count of the `j`-th region in first-seen order. |
| DataProcessor.AddToRegionTotals | data_processor.py:31-32 | Adding a record's amount and a count of 1 to its region's row gives the totals of the extended group. |
| DataProcessor.TalliedRegionSales | data_processor.py:35 | The sum of the regions' sales equals the revenue of all records. |
| DataProcessor.RegionWiseSales | data_processor.py:12-42 | The result is the region table with percentages, stably sorted by total sales descending. |
| DataProcessor.RegionWiseSalesRows | data_processor.py:20-40 | There is one row per distinct region. A row is in the result iff it is the totals row of a region that occurs. Region names are distinct. Sales are non-increasing. Rows with equal sales keep first-seen order. |
| DataProcessor.RegionTableMembers | data_processor.py:20-37 | A row is in the region table iff it is the row of a region of some record. |
| DataProcessor.RegionCountsSum | data_processor.py:20-32 | The transaction counts of all regions add up to the number of records. |
| DataProcessor.RegionSalesSum | data_processor.py:20-35 | The regions' total sales add up to total revenue. |
| DataProcessor.RegionSharesSum | data_processor.py:35-37 | The sum of the percentages is the percentage of the summed sales. |
| DataProcessor.RegionPercentagesSum | data_processor.py:35-37 | With positive total revenue the percentages add up to 100. Otherwise every percentage is 0. |
| DataProcessor.AddToProductTotals | data_processor.py:64-65 | Adding a record's quantity and amount to its product's row gives the totals of the extended group. |
| DataProcessor.AggregateProducts | data_processor.py:50-71 | The product list is, in first-seen order, each product's summed quantity and revenue. |
| DataProcessor.ProductTableMembers | data_processor.py:53-71 | A row is in the product list iff its product occurs and the row holds that product's summed quantity and revenue. |
| DataProcessor.TopSellingProducts | data_processor.py:45-76 | Returns the product list stably sorted by quantity descending and cut with `[:n]`; `n` defaults to 5. |
| DataProcessor.TopProductsCorrect | data_processor.py:73-76 | The result length is `min(n, products)` for `n ≥ 0`, and Python's negative-slice length for `n < 0`. Every row is a product row. The result is non-increasing in quantity. No product left out has more quantity than one kept. |
| DataProcessor.LowPerformingProducts | data_processor.py:169-200 | Returns the products below the threshold, stably sorted by quantity ascending; the threshold defaults to 10. |
| DataProcessor.LowProductsCorrect | data_processor.py:191-199 | A row is returned iff it is a product row with quantity below the threshold. The result is non-decreasing in quantity. Equal quantities keep first-seen order. |
| DataProcessor.ProductNamesMembers | data_processor.py:92-106 | The names collected for a customer are exactly the product names of their records. |
| DataProcessor.FirstBought | data_processor.py:105-106 | Of two names in the deduplicated product list, the earlier one was bought first: some record carries it before any record carries the later one. |
| DataProcessor.AverageTimesCount | data_processor.py:112 | For a positive count, the average times the count is the total. |
| DataProcessor.AddToCustomerTotals | data_processor.py:102-106 | Adding a record to its customer's row adds its amount, adds 1 to the count, and appends the product only when it is new. The result is the totals of the extended group. |
| DataProcessor.CustomerKeys | data_processor.py:86-89 | The customers are exactly the non-empty CustomerIDs that occur. Skipping empty IDs does not change any customer's records. |
| DataProcessor.CustomerTableTotals | data_processor.py:84-106 | The dict built by the loop holds each customer's totals over that customer's records. |
| DataProcessor.TallyCustomers | data_processor.py:84-106 | Row `j` holds the totals of the `j`-th non-empty customer in first-seen order. |
| DataProcessor.FillAverages | data_processor.py:109-112 | Every row gets `total_spent / purchase_count`, or 0 for a zero count. Nothing else changes. |
| DataProcessor.CustomerAnalysis | data_processor.py:79-117 | The result is the customer table stably sorted by total spent, descending. |
| DataProcessor.CustomerRowTotals | data_processor.py:91-103 | A customer's total spent is the revenue of their records, and their purchase count is at least 1. |
| DataProcessor.CustomerRowAverage | data_processor.py:109-112 | With a positive count, the average order value times the count is the total spent. |
| DataProcessor.CustomerRowProducts | data_processor.py:92-106 | `products_bought` holds exactly the product names of the customer's records, without duplicates, in the order each was first bought by that customer. |
| DataProcessor.CustomerTableMembers | data_processor.py:86-106 | A row is in the customer table iff it is the row of a non-empty CustomerID that occurs. |
| DataProcessor.CustomerAnalysisCorrect | data_processor.py:86-117 | Every customer row is the row of an occurring non-empty CustomerID, and conversely. No row has an empty customer. Customers are distinct. Total spent is non-increasing. |
| DataProcessor.AddToDayTotals | data_processor.py:139-142 | Adding a record to its date's row adds its amount, adds 1 to the count, and adds its CustomerID when non-empty. |
| DataProcessor.TallyDays | data_processor.py:125-142 | Row `j` holds the revenue, count and customer set of the `j`-th date in first-seen order. |
| DataProcessor.DailySalesTrend | data_processor.py:120-151 | The result is the day table with customer sets turned into counts, sorted by date. |
| DataProcessor.CustomersMembers | data_processor.py:141-142 | A day's customer set is exactly the non-empty CustomerIDs of its records. |
| DataProcessor.DayRowCorrect | data_processor.py:127-146 | A day's revenue is the revenue of its records. `unique_customers` is the number of distinct non-empty CustomerIDs on that date. |
| DataProcessor.DayTableMembers | data_processor.py:127-146 | A row is in the day table iff it is the row of a date that occurs. |
| DataProcessor.DailyTrendMembers | data_processor.py:148-151 | Sorting keeps exactly the day rows. |
| DataProcessor.DailyTrendCorrect | data_processor.py:148-151 | There is one row per distinct date, and the trend is empty iff there are no records. A row is present iff it is some record's date row. Dates are strictly ascending in string order. |
| DataProcessor.FindPeakSalesDay | data_processor.py:154-166 | Returns `(None, 0.0, 0)` exactly when there are no days. Otherwise its revenue is at least every day's revenue. |
| DataProcessor.FindPeakSalesDayCorrect | data_processor.py:159-166 | The date is None iff there are no records. Otherwise the date occurs. The revenue and count are those of that date's records. No date has more revenue. Among dates with equal revenue, the returned date is the earliest. |
| DataProcessor.EarliestPeak | data_processor.py:164 | In the date-sorted trend, the first day whose revenue beats all earlier days comes no later than any other day with the same revenue. |
| ApiHandler.CreateProductMapping | api_handler.py:44-61 | The mapping is built from the products in order. Products without an id or with id 0 are skipped, and a later product overwrites an earlier one with the same id. |
| ApiHandler.CatalogKeys | api_handler.py:51-54 | The keys are exactly the non-zero ids that occur. |
| ApiHandler.CatalogLatest | api_handler.py:51-59 | Each entry holds the title, category, brand and rating of the last product with that id. |
| ApiHandler.StripLeading | api_handler.py:78 | `lstrip('Pp')` removes the longest prefix of `P`/`p` characters and no more. |
| ApiHandler.KeepDigitsFilter | api_handler.py:81 | The digits kept are exactly the digit characters of the id, in order. |
| ApiHandler.ExtractIdValue | api_handler.py:63-88 | For every ProductID: with fewer than two digit characters the result is None; otherwise it is the decimal value of the digit characters from the second one on. |
| ApiHandler.StripLeadingDigits | api_handler.py:78-81 | Stripping the prefix does not change which digits are kept. |
| ApiHandler.ExtractIdExamples | api_handler.py:67-75 | `P102 → 2`, `P172 → 72`, `P2 → None`, and the empty id gives None. |
| ApiHandler.ExtractIdTwoDigits | api_handler.py:78-86 | `P1ab` gives the two-digit number `ab`. |
| ApiHandler.ExtractIdOneDigit | api_handler.py:82-83 | A ProductID with a single digit gives None. |
| ApiHandler.ExtractIdDigits | api_handler.py:78-86 | `P` followed by a digit and a non-empty digit string gives the value of that digit string. |
| ApiHandler.ExtractIdRoundTrip | api_handler.py:78-86 | For any digit `d` and any `n ≥ 0`, `P`, `d` and `str(n)` give back `n`. |
| ApiHandler.ExtractIdShape | api_handler.py:74-86 | A key is extracted iff the id has at least two digit characters, and every key is non-negative. |
| ApiHandler.Enrich | api_handler.py:98-123 | The original record is unchanged. `API_Match` holds iff a key was extracted and is in the mapping. |
| ApiHandler.EnrichSalesData | api_handler.py:91-137 | Gives one enriched record per input record, in the same order. Each is the annotation of that record. |
| ApiHandler.EnrichCorrect | api_handler.py:105-130 | A matched record carries the category, brand and rating of its mapping entry. An unmatched record carries None for all three. Nothing matches an empty mapping. |
| ApiHandler.EnrichFromCatalog | api_handler.py:104-113 | A record whose ProductID denotes a catalogue id is matched. It carries the data of the last catalogue product with that id. |
| Sales.TotalRevenueAppend | data_processor.py:8 | Revenue of a concatenation is the sum of the revenues. |
| Sales.TotalRevenuePositive | data_processor.py:8 | For records with positive amounts, revenue is positive iff there is a record. |
| Sales.GroupMembers | data_processor.py:20-32 | A key's group holds exactly the records with that key value. |
| Sales.KeysMembers | data_processor.py:24-25 | A key is in the dict iff some record has it, and no key appears twice. Of two keys, the earlier one occurs in some record before any record carries the later one. |
| Sales.KeysOrder | data_processor.py:24-25 | Keys come in first-seen order: for `i < j`, key `i` occurs in a record before any record has key `j`. |
| Sales.RevenuePartition | data_processor.py:20-35 | Summing group revenues over all keys gives total revenue. |
| Sales.CountPartition | data_processor.py:20-32 | Summing group sizes over all keys gives the number of records. |
| Sales.TabulateStep | data_processor.py:24-32 | One loop step (create the entry if the key is new, then update it) keeps the table equal to the grouped totals. |
| Sales.TabulatedFind | data_processor.py:24 | `key in dict` answers iff the key has been seen, and finds its row. |
| Sales.WithCustomerGroup | data_processor.py:88-89 | Skipping empty CustomerIDs does not change a non-empty customer's records. |
| Text.Trim | utils/file_handler.py:42-49 | `strip()` leaves no whitespace at either end and leaves a clean field unchanged. |
| Text.Split | utils/file_handler.py:33 | Splitting on the pipe character gives one more field than there are separators, and no field contains one. |
| Text.JoinSplit | utils/file_handler.py:33 | Joining the split fields with the separator gives back the line. |
| Text.SplitJoin | utils/file_handler.py:33 | Splitting separator-free fields joined by the separator gives back the fields. |
| Text.RemoveAll | utils/file_handler.py:45-47 | `replace(',', '')` leaves no comma, drops only commas (length falls by their count), and keeps the rest as a subsequence: exactly the other characters, in order. |
| Text.ParseIntString | utils/file_handler.py:46 | `int(str(n)) == n`. |
| Text.ParseFloatDecimal | utils/file_handler.py:47 | `float()` of the decimal digits of `n` is `n`. |
| Text.StrLtTotal | data_processor.py:149 | String order is total. |
| Text.StrLtTransitive | data_processor.py:149 | String order is transitive. |
| Sorting.StableSort | data_processor.py:40 | Sorting by a numeric key is a permutation ordered by the key. Rows with equal keys keep their relative order. |
| Sorting.StableSortSum | data_processor.py:35-40 | Sorting does not change a column's sum. |
| Sorting.StableSortDistinct | data_processor.py:40 | Sorting keeps the dict keys distinct. |
| Sorting.SortByTextMultiset | data_processor.py:149 | Sorting by date is a permutation. |
| Sorting.SortByTextAscending | data_processor.py:149 | Sorting rows with distinct dates makes the dates strictly ascending. |
| Seqs.Filter | utils/file_handler.py:130-140 | A list comprehension with a condition keeps exactly the elements satisfying it, in order. Kept plus rejected is the whole list. |
| Seqs.FilterKeepsAll | utils/file_handler.py:130-140 | A condition every element meets keeps the list unchanged. |
| Seqs.SliceTo | data_processor.py:76 | `s[:n]` is a prefix of length `min(n, len)` for `n ≥ 0`, and `max(0, len + n)` for `n < 0`. |
| Seqs.MaxIndex | data_processor.py:164 | `max` with a key picks an element with the largest key, namely the first such element. |
| Seqs.SumOfPercentages | data_processor.py:37 | Percentages of parts sum to the percentage of the sum. |
| Seqs.WholePercentage | data_processor.py:37 | The whole is 100 percent of itself. |
| Seqs.Distinct | data_processor.py:105-106 | Appending only unseen items keeps the same items, without duplicates. |
| Seqs.DistinctOrder | data_processor.py:105-106 | The kept items come in first-occurrence order: for `i < j`, item `i` occurs in the input before the first occurrence of item `j`. |
| Seqs.Find | data_processor.py:24 | Dict lookup: finds the row of a key, or reports it absent. |

## Left out

- `read_sales_data` (file opening, the encoding fallback, header and blank-line removal) is I/O. The parser takes the lines it would return.
- The `print` calls of `validate_and_filter` are not modelled. These include the regions list and the min/max amount display, which do not affect the result.
- `fetch_all_products` is a network call. Its result is the input sequence of `CatalogProduct` values, and an `id` is modelled as an integer or absent.
- `save_enriched_data`, the call to it at `api_handler.py` line 135, and `generate_sales_report` are file output and formatting. `main.py` is user interaction. None of these is part of this model.
- Money and unit prices are exact reals. IEEE rounding of products, sums, divisions and percentages is not modelled. The percentage's `else 0` is the real 0.
- Text.ParseInt: models `int()` on ASCII decimal text with an optional sign and surrounding whitespace. It rejects underscores and non-ASCII digits, which Python accepts.
- Text.ParseFloat: models `float()` on decimal text (digits with at most one point, optional sign). It rejects exponents, `inf`, `nan` and underscores, which Python accepts.
- ApiHandler.KeepDigits: treats only ASCII `0`-`9` as digits and skips every other character. Python's `isdigit` also accepts other Unicode digits. A non-ASCII decimal digit would then be kept and read by `int()`. A digit that is not decimal, such as `²`, makes `int()` raise, and the `except` returns None. So `P1²3` gives None in Python and `Some(3)` here. Those ids are outside this model.
- ApiHandler.ExtractId: because only ASCII digits are kept, `int()` never raises in the model. The `try/except` of `_extract_id_from_second_digit_onwards` therefore never fires. The `try/except` of `enrich_sales_data` cannot fire on well-typed records, so enrichment is total. A ProductID that is `None` is the empty string here.
- Records are typed: `txn.get(field, default)` on a missing key is not modelled, and every record has all eight fields. A required field that is "missing" is therefore an empty string or a zero number.
- Dicts are sequences of rows in key-insertion order. Python's dict hashing is not modelled; a key lookup is a linear search.
- `enrich_sales_data` copies each dict and adds four keys. Here the record and the four API fields are separate components of one value, and aliasing of the copies is not modelled.
- Each aggregation's nested mutation of per-key counters and lists is a replacement of the whole row value in the sequence.
