# Campaign revenue: aggregation and derived views

A Dafny model of the pure logic of a campaign-analysis page. The page loads
CSV rows (string-keyed records). It then derives:

- the revenue of one campaign (`getCampaignRevenue`);
- the revenue per traffic source (`getETRevenueSummary`). The source is the
  row's `ET`, else its `SUBID`, else `"Unknown"`. The result is sorted
  highest first;
- the free-text search over all cells (`searchResults`);
- the campaign filter applied to the search results (`campaignCreatives`);
- the list of campaign names for the selector (`campaigns`).

A row is a `map<string, string>`, so a missing column is explicit. Reading a
column gives `None` where JavaScript gives `undefined`. Revenue is an exact
`real`. `parseFloat(x) || 0` is modelled by a concrete `ParseFloat`. It skips
ECMA-262 white space, then reads the longest prefix made of an optional sign,
digits, an optional fraction and an optional exponent. When there is no such
prefix it returns `None`, and `Coerce` turns that into 0.

Modules:

- `Options`: the `Option` type.
- `Seqs`: `filter`, `Set`-order de-duplication and the subsequence relation.
- `JsNumber`: `parseFloat` and the `|| 0` coercion.
- `Rows`: the row type, column reads, JavaScript `||`, the traffic-source key and total revenue.
- `CampaignRevenue`: `getCampaignRevenue`.
- `EtSummary`: `getETRevenueSummary`, plus the as-written variant behind the finding below.
- `Views`: the three `useMemo` derivations.

Three consequences of the code are worth stating:

- `parseFloat` keeps the longest numeric prefix, so `"1,000"` counts as 1 and
  `"100 USD"` counts as 100 (`JsNumber.ParseDigitString`). Text with no numeric
  prefix, such as `"$100"`, `"N/A"`, `"-"` or `"."`, counts as 0.
- `Object.entries` lists integer-like keys first, in ascending order, so the
  order of equal-revenue entries is left unstated. The model proves
  sortedness and permutation only.
- The search has an empty-term shortcut. With an empty term even a row with
  no cells is kept. With any other term such a row is dropped.

## Model

| member | source | states |
|---|---|---|
| `JsNumber.ParseDigitString` | src/utils/csvUtils.ts:18 | a run of digits parses to its decimal value, and trailing text that cannot extend the literal ("100 USD", "1,000") is ignored |
| `JsNumber.ParseDecimalString` | src/utils/csvUtils.ts:18 | round trip: the numeral of any natural n parses back to n |
| `JsNumber.ParseNegativeDecimalString` | src/utils/csvUtils.ts:18 | a leading minus sign gives the negated value |
| `JsNumber.CoerceNotANumber` | src/utils/csvUtils.ts:18 | text whose first non-blank character cannot begin a number ("N/A", "$100", ""), other than "Infinity", parses to NaN and coerces to 0 |
| `JsNumber.ParseFloatNeedsDigit` | src/utils/csvUtils.ts:18 | a cell with no digit at all, other than "Infinity", never yields a number |
| `JsNumber.CoerceAbsent` | src/utils/csvUtils.ts:18 | a missing Revenue column (`undefined`) coerces like the text "undefined" that `parseFloat` makes of it, which is 0 |
| `JsNumber.ParseFloat` | src/utils/csvUtils.ts:18 | `parseFloat` finds a number only when the first non-blank character can begin a decimal literal |
| `JsNumber.Coerce` | src/utils/csvUtils.ts:18 | `\|\| 0` keeps every parsed number, zero included, and turns NaN and `undefined` into 0 |
| `Rows.Revenue` | src/utils/csvUtils.ts:18 | a Revenue cell that parses to v gives revenue v; a row without a Revenue column gives 0, and any non-zero revenue is the parsed Revenue cell |
| `Rows.TotalRevenue` | src/utils/csvUtils.ts:17-20 | the `reduce` from 0 gives 0 when every row adds 0, and a non-negative total when no row adds a negative amount |
| `Rows.TotalRevenueAppend` | src/utils/csvUtils.ts:17-20 | the total over a ++ b is the total over a plus the total over b |
| `Rows.TrafficSource` | src/utils/csvUtils.ts:27 | the grouping key is ET when present and non-empty, else SUBID when present and non-empty, else "Unknown"; it is never empty |
| `Seqs.Filter` | src/utils/csvUtils.ts:16 | `filter` keeps exactly the accepted elements, each with its full multiplicity |
| `Seqs.FilterKeepsOrder` | src/utils/csvUtils.ts:16 | the kept elements stay in their original order: the result is a subsequence of the input |
| `Seqs.Dedup` | src/App.tsx:52 | `[...new Set(xs)]` holds each element of xs exactly once, ordered by first occurrence in xs |
| `CampaignRevenue.GetCampaignRevenue` | src/utils/csvUtils.ts:14-21 | filter-then-reduce equals the left-to-right sum of coerced revenue over exactly the rows whose Campaign equals the name, case-sensitively |
| `CampaignRevenue.NoMatchIsZero` | src/utils/csvUtils.ts:15-20 | no matching row, including no rows at all, gives 0 |
| `CampaignRevenue.ConcatenationAdds` | src/utils/csvUtils.ts:15-20 | revenue over a ++ b is revenue over a plus revenue over b |
| `CampaignRevenue.OtherRowsIgnored` | src/utils/csvUtils.ts:16 | a row of another campaign, or one without a Campaign column, changes nothing |
| `CampaignRevenue.UnparsableRevenueAddsNothing` | src/utils/csvUtils.ts:18 | a matching row whose Revenue is missing or unparsable adds 0 |
| `CampaignRevenue.TwoCampaignExample` | src/utils/csvUtils.ts:14-21 | rows "A,100" and "B,200": campaign A earns 100 |
| `CampaignRevenue.AbsentCampaignExample` | src/utils/csvUtils.ts:14-21 | rows "A,100" and "B,200": the absent campaign C earns 0 |
| `EtSummary.Lookup` | src/utils/csvUtils.ts:29 | `etRevenue[et] \|\| 0` is 0 for a key not yet seen, and otherwise the total stored under that key |
| `EtSummary.Accumulate` | src/utils/csvUtils.ts:29 | the corrected update (see Findings): one update of the accumulator adds v to the key's total, leaves every other total alone, adds the key to the key set, keeps keys distinct and raises the grand total by v |
| `EtSummary.Group` | src/utils/csvUtils.ts:24-30 | the corrected `forEach` (see Findings): afterwards the accumulator has distinct keys, exactly the traffic sources seen, each with the revenue of its own rows, and the totals add up to the revenue of all rows |
| `EtSummary.Insert` | src/utils/csvUtils.ts:34 | one insertion step of the sort adds exactly the inserted element and loses nothing |
| `EtSummary.InsertSorted` | src/utils/csvUtils.ts:34 | inserting into a list sorted highest first keeps it sorted |
| `EtSummary.SortDesc` | src/utils/csvUtils.ts:32-34 | the sort returns a permutation sorted non-increasing by revenue |
| `EtSummary.SortDescKeeps` | src/utils/csvUtils.ts:32-34 | sorting keeps the key set, key distinctness and the grand total |
| `EtSummary.Summary` | src/utils/csvUtils.ts:23-35 | the result is sorted non-increasing and is a permutation of the grouped pairs; keys are pairwise distinct and are exactly the traffic sources seen; there is one entry per source, so empty input gives an empty result; each entry holds its source's revenue; the entries add up to the total revenue |
| `EtSummary.MissingSourceIsUnknown` | src/utils/csvUtils.ts:27 | a row with neither ET nor SUBID is counted under "Unknown" |
| `EtSummary.UnparsableRevenueAddsNothing` | src/utils/csvUtils.ts:28 | a row with missing or unparsable Revenue changes no source's total, but its source still gets an entry |
| `EtSummary.AccumulateAsWritten` | src/utils/csvUtils.ts:29 | the update as written: for the key "__proto__" nothing is stored |
| `EtSummary.GroupAsWritten` | src/utils/csvUtils.ts:24-30 | the accumulator as written never holds "__proto__" and loses exactly that source's revenue from the total |
| `EtSummary.SummaryAsWritten` | src/utils/csvUtils.ts:23-35 | the summary as written is sorted but misses the revenue of rows whose source is "__proto__" |
| `EtSummary.ProtoSourceLosesRevenue` | src/utils/csvUtils.ts:29 | one row with ET "__proto__" and Revenue "5": the summary as written is empty; the corrected one is [("__proto__", 5)] |
| `Views.Lower` | src/App.tsx:34-35 | lower-casing keeps the length, leaves no upper-case ASCII letter, maps each upper-case letter to its lower-case letter and leaves every other character alone |
| `Views.RowMentions` | src/App.tsx:34-35 | a row is mentioned iff some cell, lower-cased, has the lower-cased term at some position; the empty term is mentioned exactly by the rows that have a cell |
| `Views.Includes` | src/App.tsx:35 | `includes` is true iff the needle occurs at some position of the haystack |
| `Views.SearchResults` | src/App.tsx:31-38 | an empty term returns the data unchanged; otherwise the result keeps, in order and with full multiplicity, exactly the rows with a cell that contains the term when both are lower-cased |
| `Views.SearchIgnoresCase` | src/App.tsx:33-37 | a term and its lower-cased form select the same rows |
| `Views.CampaignCreatives` | src/App.tsx:40-45 | with no selection the search results pass unchanged; with a selection the result is exactly, in order, the search results whose Campaign equals it |
| `Views.ShownRowsMakeCampaignTotal` | src/App.tsx:40-45 | with an empty search and a campaign selected, the rows shown add up to that campaign's revenue |
| `Views.CampaignCells` | src/App.tsx:52 | `data.map(row => row.Campaign)` has one cell per row, the i-th being the i-th row's Campaign or `undefined` |
| `Views.KeepTruthy` | src/App.tsx:53 | `.filter(Boolean)` keeps exactly the non-empty names present among the cells, and none of the empty or missing ones |
| `Views.KeepTruthyIsFilter` | src/App.tsx:53 | `.filter(Boolean)` equals the generic filter with JavaScript truthiness, so the kept names keep their order and multiplicity |
| `Views.FirstSeenCampaigns` | src/App.tsx:52-53 | the reference list of campaign names: distinct, non-empty, exactly the non-empty Campaign values |
| `Views.FirstSeenOrder` | src/App.tsx:52-53 | the reference list is ordered by the position of each name's first row |
| `Views.CampaignCellsNamed` | src/App.tsx:52 | a name occurs among the mapped Campaign cells iff some row has that Campaign |
| `Views.DedupThenKeepTruthy` | src/App.tsx:52-53 | de-duplicating the Campaign cells and then dropping empty or missing ones gives the reference list |
| `Views.Campaigns` | src/App.tsx:51-54 | the selector list has no duplicates and no empty or missing names; a name is in it iff some row's Campaign is that non-empty name; names come in order of first appearance |

## Findings

| source | as written | input that shows it | evidently intended | confidence | as-written member | corrected member |
|---|---|---|---|---|---|---|
| src/utils/csvUtils.ts:24-29 | `etRevenue` is a plain object literal. For the key "__proto__", `etRevenue[et] \|\| 0` reads Object.prototype, and adding the revenue to it gives a string. Assigning a string to `__proto__` is silently ignored, so the source never gets an entry. | one row with ET "__proto__" and Revenue "5": the summary is empty and 5 of the total is lost | every traffic source gets an entry holding its revenue, and the entries add up to the total | high; not executed | `EtSummary.SummaryAsWritten`, `EtSummary.ProtoSourceLosesRevenue` | `EtSummary.Summary`, `EtSummary.Group`, `EtSummary.Accumulate` |

## Left out

- `parseCSV` (src/utils/csvUtils.ts:37 onward) is not part of this model. Its body is not available, so quoting, blank lines and padding are not modelled. Rows are taken as given.
- `formatCurrency` is left out. It is display formatting through `Intl.NumberFormat`.
- `CampaignSelector` is left out. It is rendering that only calls `getCampaignRevenue`.
- File upload is left out. It is `FileReader` I/O with a loading flag and an `alert` on error.
- React state and JSX are left out.
- `JsNumber.ParseFloat`: "Infinity", "+Infinity" and "-Infinity" are not recognised, because a `real` has no infinity. JavaScript returns ±Infinity for them, and the model returns NaN, which coerces to 0.
- `JsNumber.ParseFloat`: values are exact. There is no rounding to the nearest double and no overflow to Infinity, so "1e400" is 10^400.
- `JsNumber.ParseFloat`: `-0` is not distinct from 0. `|| 0` maps it to 0 anyway.
- `Rows.TotalRevenue`: sums are exact real sums. The code adds IEEE doubles, so its totals may round. Conservation of the total holds only in exact arithmetic.
- `EtSummary.SortDesc`: the order of equal-revenue entries is not stated in the contract. The insertion sort keeps the earlier entry first, so it is stable over `Group`'s insertion order.
- `EtSummary.Group`: the accumulator keeps insertion order. `Object.entries` instead puts integer-like keys first, in ascending order. Only the order of ties depends on this.
- `EtSummary.AccumulateAsWritten`: other names inherited from Object.prototype, such as "constructor", "toString" and "valueOf", are not modelled. For these the running total becomes a string, through concatenation with the inherited function, and the numeric comparison in the sort yields NaN.
- `EtSummary.GroupAsWritten`: for those inherited names the numeric total it states is not what the code keeps, since the code's running total is a string.
- `EtSummary.SummaryAsWritten`: for those inherited names its sortedness does not hold of the code, since the comparison yields NaN.
- `Views.Lower`: only ASCII letters are lower-cased. The code uses full Unicode `toLowerCase`.
