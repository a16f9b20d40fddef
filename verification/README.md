# Sales aggregation of physique57-insight-hub, in Dafny

The dashboard of physique57-insight-hub turns an in-memory list of payment
records into tables and cards. The aggregation is written inline in five React
components. This project models it as pure Dafny functions over immutable data
and proves what the dashboard promises about its numbers.

- **Dimension grouper and ranker** (`TopBottomSellers.tsx`):
  - groups sales by product, category, member, seller or payment method, each
    with an "Unknown …" fallback key;
  - sums value, counts transactions, units and distinct members;
  - derives ATV, AUV, ASV and UPT;
  - sorts by value, largest first, with a stable sort;
  - applies the all/top/bottom quick filter, the top and reversed-bottom
    slices, and "show more"/"show less" paging.
- **Sanitiser and pre-groupers** (`SalesAnalyticsSection.tsx`): keeps the
  records that are objects with both payment fields, then summarises them by
  seller and by payment method.
- **KPI metrics** (`KPICards.tsx`): totals, distinct members, averages,
  revenue growth against the calendar month before, and the five cards.
- **Month-over-month pivot** (`MonthOverMonthTable.tsx`): product × the six
  months ending now, with row totals, month totals, the grand total and the
  growth shown under each cell.
- **Year-over-year pivot** (`YearOverYearTable.tsx`): the twelve months of
  the current and the previous year, with per-month growth and the
  totals-based overall growth.

Modules:

| module | what it holds |
|---|---|
| `Options` | `Option`, with JavaScript's `x \|\| 0` and `s \|\| fallback` |
| `Seqs` | sums, filters, maps, flattening and reversal of sequences |
| `Transactions` | the canonical payment record, revenue and distinct member ids |
| `Decimal` | `String(n)` and `padStart(2, '0')` for the date keys |
| `Calendar` | month arithmetic, the trailing window, month keys and names |
| `Grouping` | the generic `reduce` into a plain object in first-seen key order, and its partition properties |
| `Ranking` | the stable descending sort |
| `Dimensions` | the grouping key of each dimension |
| `TopBottomSellers`, `SalesAnalytics`, `KpiCards`, `MonthOverMonth`, `YearOverYear` | one module per component |
| `Periods` | the per-month bucket, metric values and growth rates shared by the two pivots |
| `PlainObjectKeys` | the grouping as written, keyed through a plain object |

Other modelling choices:

- Money is `real`, so there is no floating-point rounding.
- A payment record is one canonical `Transaction`.
  - Optional fields are `Option`; a missing payment value counts as 0.
  - The payment date arrives already parsed, as an optional (year, month); a
    date that does not parse is `None`.
  - "Now" (the current month or year) is a parameter.
- Member ids are `Option<string>`. A missing id, whether `null` or
  `undefined`, is the single value `None`.
- A grouping is a key sequence in first-seen order plus a map. Each grouping
  is proved equal to an independent reference: for every key, the bucket is
  the fold of the sales with that key.

## Model

| member | source | states |
|---|---|---|
| Dimensions.GroupKey | src/components/dashboard/TopBottomSellers.tsx:34-51 | the key is the first set source field of the dimension (cleaned product then payment item; cleaned category then payment category), else that dimension's "Unknown …" sentinel; it is never empty |
| Grouping.GroupBy | src/components/dashboard/TopBottomSellers.tsx:33-75 | keys are recorded once each, and a key is recorded exactly when it has a bucket |
| Grouping.GroupBySpec | src/components/dashboard/TopBottomSellers.tsx:33-75 | a key has a bucket exactly when some sale carries it, and the bucket is the accumulation of exactly those sales in input order |
| Grouping.GroupOrderExtends | src/components/dashboard/TopBottomSellers.tsx:53-66 | a key keeps the position where it first appeared: the key order of a prefix is a prefix of the key order of the whole input |
| Grouping.KeysCovered | src/components/dashboard/TopBottomSellers.tsx:33-75 | every sale's key is one of the groups |
| Grouping.GroupsPartition | src/components/dashboard/TopBottomSellers.tsx:33-75 | the groups' sales together are a permutation of the input, and their revenues add up to the input's revenue |
| Grouping.Partition | src/components/dashboard/TopBottomSellers.tsx:68-72 | splitting sales by distinct keys that cover every sale loses and duplicates nothing and preserves the total |
| Grouping.NestedGroups | src/components/dashboard/sales/MonthOverMonthTable.tsx:36-60 | the inner object of a two-level `reduce` is the one-level grouping of exactly the sales under its outer key |
| Grouping.FoldAccumulate | src/components/dashboard/sales/MonthOverMonthTable.tsx:41-57 | the inner update step, folded over sales from an empty object, builds the grouping of those sales |
| TopBottomSellers.AccumulatorContents | src/components/dashboard/TopBottomSellers.tsx:53-72 | a group's accumulator holds the group's revenue (missing values as 0), one unit and one transaction per sale, the set of member ids and the sales themselves |
| TopBottomSellers.FinalizeSummary | src/components/dashboard/TopBottomSellers.tsx:78-84 | a finalised row has `unitsSold == transactions ==` its sale count, `upt == 1`, `auv == atv`, `1 <= uniqueMembers <= transactions`, and ATV and ASV multiply back to the total |
| TopBottomSellers.CreationOrderRows | src/components/dashboard/TopBottomSellers.tsx:78-84 | each row of `Object.values`, in creation order, is named by its key and summarises exactly the sales with that key |
| TopBottomSellers.CreationOrderKeys | src/components/dashboard/TopBottomSellers.tsx:33-75 | row names are distinct and every sale's key names a row |
| TopBottomSellers.CreationOrderPartitions | src/components/dashboard/TopBottomSellers.tsx:33-84 | the rows' raw data together are a permutation of the input, and the rows' totals add up to the input's revenue |
| TopBottomSellers.SalesRowsRanked | src/components/dashboard/TopBottomSellers.tsx:86 | the ranked list is non-increasing in total value, a permutation of the unsorted rows, keeps tied rows in creation order, and still sums to the input's revenue |
| TopBottomSellers.SalesRowsSummarise | src/components/dashboard/TopBottomSellers.tsx:78-86 | every ranked row summarises the sales with its key |
| Ranking.SortIsStable | src/components/dashboard/TopBottomSellers.tsx:86 | among rows of equal value the sorted order is the input order |
| Ranking.SortOfSorted | src/components/dashboard/TopBottomSellers.tsx:86 | sorting an already ranked list changes nothing |
| TopBottomSellers.TrainersPassThrough | src/components/dashboard/TopBottomSellers.tsx:28-30 | trainer records are returned one for one, in order, without grouping |
| TopBottomSellers.QuickFilterSelects | src/components/dashboard/TopBottomSellers.tsx:92-97 | `all` is the identity; `top` keeps exactly the entries with a value above 0 and `bottom` exactly those equal to 0, each as often as it occurs; a missing value is in neither |
| TopBottomSellers.QuickFilterKeepsOrder | src/components/dashboard/TopBottomSellers.tsx:92-97 | filtering distributes over concatenation, so the original order is kept |
| TopBottomSellers.BadgeMatchesList | src/components/dashboard/TopBottomSellers.tsx:109-113 | each button's count equals the length of the list under that filter |
| TopBottomSellers.BadgesAddUp | src/components/dashboard/TopBottomSellers.tsx:110-112 | active plus inactive plus the entries with a negative or missing value is the total count |
| TopBottomSellers.TopSlice | src/components/dashboard/TopBottomSellers.tsx:99 | for a positive count, the top list is the first `min(showCount, n)` filtered entries |
| TopBottomSellers.BottomSlice | src/components/dashboard/TopBottomSellers.tsx:100 | for a positive count, the bottom list has `min(showCount, n)` entries and its `i`-th is the `i`-th from the end of the filtered list |
| TopBottomSellers.BottomIsReversedTopWhenAllShown | src/components/dashboard/TopBottomSellers.tsx:99-100 | when the count covers the whole list, the bottom list is the top list reversed |
| TopBottomSellers.BottomSliceAtZero | src/components/dashboard/TopBottomSellers.tsx:99-100 | with a count of 0, `slice(-0)` takes the whole list, so the bottom list is the filtered list reversed while the top list is empty |
| TopBottomSellers.ShowMoreLabel | src/components/dashboard/TopBottomSellers.tsx:268-277 | when the button shows, the number it announces lies between 1 and 5 |
| TopBottomSellers.ShowMoreRevealsLabel | src/components/dashboard/TopBottomSellers.tsx:268-280 | a "show more" click reveals exactly as many more entries as the label announced |
| TopBottomSellers.ShowLessResets | src/components/dashboard/TopBottomSellers.tsx:282-293 | after "show less" the top list is the first five entries again |
| TopBottomSellers.PagingInvariant | src/components/dashboard/TopBottomSellers.tsx:268-293 | starting at 5, any sequence of clicks leaves the count a positive multiple of 5 |
| SalesAnalytics.SanitizeSpec | src/components/dashboard/SalesAnalyticsSection.tsx:27-36 | null or non-array data gives no sales; otherwise a record is kept exactly when some item is an object holding both payment fields |
| SalesAnalytics.KeptSalesConcat | src/components/dashboard/SalesAnalyticsSection.tsx:30-35 | the sanitiser distributes over concatenation, so kept records stay in input order |
| SalesAnalytics.SanitizeWellFormed | src/components/dashboard/SalesAnalyticsSection.tsx:27-36 | a list of well-formed records passes through unchanged |
| SalesAnalytics.AccumulatorContents | src/components/dashboard/SalesAnalyticsSection.tsx:42-54 | a seller or method accumulator holds the revenue, the transaction count, the member set and the sales of its key |
| SalesAnalytics.SummaryRows | src/components/dashboard/SalesAnalyticsSection.tsx:58-61 | each summary row, in first-seen order, summarises the sales with its key: its total, a transaction count equal to the number of its raw-data entries, and `1 <= uniqueMembers <= transactions` |
| SalesAnalytics.SummaryKeys | src/components/dashboard/SalesAnalyticsSection.tsx:41 | one row per distinct seller (or method), with "Unknown Seller" ("Unknown Method") for a missing one |
| SalesAnalytics.SummaryPartitions | src/components/dashboard/SalesAnalyticsSection.tsx:51-54 | every sale lands in exactly one row's raw data, and the row totals add up to the input's revenue |
| SalesAnalytics.RenderSpec | src/components/dashboard/SalesAnalyticsSection.tsx:89-95 | "no data" shows exactly when nothing survives the sanitiser; otherwise both summaries have at least one row |
| KpiCards.CalculateMetrics | src/components/dashboard/sales/KPICards.tsx:23-24 | the metrics are missing exactly for empty input |
| KpiCards.MetricsFields | src/components/dashboard/sales/KPICards.tsx:26-30 | total revenue counts a missing value as 0; transactions is the input length; members is the number of distinct ids; the averages divide by those counts |
| KpiCards.MetricsConsistent | src/components/dashboard/sales/KPICards.tsx:26-56 | `1 <= uniqueMembers <= totalTransactions`, ATV and revenue per member multiply back to the total, and `avgUnitValue == avgTransactionValue` |
| KpiCards.TotalMatchesGroupedLists | src/components/dashboard/sales/KPICards.tsx:26 | the revenue card equals the sum of the ranked group totals, under any grouping dimension |
| KpiCards.MonthSalesSelect | src/components/dashboard/sales/KPICards.tsx:33-44 | this month's and last month's subsets hold exactly the sales dated in those months, they are disjoint, and last month is the month before now |
| Calendar.PreviousMonth | src/components/dashboard/sales/KPICards.tsx:34 | the month before January is December of the previous year; otherwise it is the same year's previous month |
| KpiCards.GrowthMeaning | src/components/dashboard/sales/KPICards.tsx:46-48 | with last month's revenue positive, growth is the percentage that takes last month to this month; otherwise it is 0 |
| KpiCards.CardsWithoutSales | src/components/dashboard/sales/KPICards.tsx:64-143 | with no sales every card shows 0 and the revenue card's trend is 0 |
| KpiCards.CardsWithSales | src/components/dashboard/sales/KPICards.tsx:64-143 | the five cards show revenue (trend = growth), ATV, members, transactions and revenue per member |
| Calendar.TrailingWindow | src/components/dashboard/sales/MonthOverMonthTable.tsx:62-68 | six months, oldest first, each followed by the next calendar month across year ends, ending at the current month, all distinct |
| Calendar.MonthKeyInjective | src/components/dashboard/sales/MonthOverMonthTable.tsx:38 | two month keys are equal exactly when the months are |
| Calendar.MonthKeyIsValid | src/components/dashboard/sales/MonthOverMonthTable.tsx:38 | no real month's key is the key an unparseable date produces |
| MonthOverMonth.DateKeyMatches | src/components/dashboard/sales/MonthOverMonthTable.tsx:37-38 | a sale's key is a month's key exactly when the sale is dated in that month |
| MonthOverMonth.ProductsSpec | src/components/dashboard/sales/MonthOverMonthTable.tsx:39-43 | the products are distinct, are exactly the keys of the sales (with "Unknown" as fallback), and appear in first-seen order |
| MonthOverMonth.CellLookup | src/components/dashboard/sales/MonthOverMonthTable.tsx:75-101 | the looked-up cell (0 without a bucket) is the metric of exactly that product's sales in that month |
| Periods.BucketContents | src/components/dashboard/sales/MonthOverMonthTable.tsx:45-57 | a month bucket holds its sales' revenue, count and distinct members |
| Periods.MetricMeaning | src/components/dashboard/sales/MonthOverMonthTable.tsx:77-89 | revenue, transactions and members are the sales' revenue, count and distinct-member count, the last between 1 and the count |
| Periods.AverageMeaning | src/components/dashboard/sales/MonthOverMonthTable.tsx:90-97 | ATV and AUV are both the value that, times the transaction count, gives the revenue |
| Periods.MembersAtMostTransactions | src/components/dashboard/sales/YearOverYearTable.tsx:56 | a bucket's member count never exceeds its transaction count |
| MonthOverMonth.ProductRow | src/components/dashboard/sales/MonthOverMonthTable.tsx:71-105 | each of the six cells is the metric of the product's sales in that window month, and the row total is the sum of the cells |
| MonthOverMonth.MonthOverMonthData | src/components/dashboard/sales/MonthOverMonthTable.tsx:33-107 | empty input gives no rows; otherwise one row per product in first-seen order, each as above |
| MonthOverMonth.QuietProductRow | src/components/dashboard/sales/MonthOverMonthTable.tsx:70-106 | a product with no sales in the window still has a row, all zeros |
| Periods.GrowthRate | src/components/dashboard/sales/MonthOverMonthTable.tsx:114-117 | for a non-zero previous value the rate is the percentage that takes previous to current; for 0 it is 0 |
| MonthOverMonth.GrowthCells | src/components/dashboard/sales/MonthOverMonthTable.tsx:218-221 | the first month's growth is 0; each later month's is the growth from the month before |
| MonthOverMonth.Displayed | src/components/dashboard/sales/MonthOverMonthTable.tsx:212 | the displayed rows are the first ten (or all, when fewer) |
| MonthOverMonth.TableGrandTotal | src/components/dashboard/sales/MonthOverMonthTable.tsx:248-257 | the sum of the row totals equals the sum of the month totals |
| MonthOverMonth.RevenueMonthTotal | src/components/dashboard/sales/MonthOverMonthTable.tsx:248-255 | for revenue, a month total over all rows (not only the ten shown) is the revenue of every sale dated that month |
| Periods.PositiveBaseGrowth | src/components/dashboard/sales/YearOverYearTable.tsx:111-114 | for a positive previous value the rate is the percentage that takes previous to current; otherwise it is 0 |
| Periods.GrowthFormulasCompared | src/components/dashboard/sales/MonthOverMonthTable.tsx:114-117 | the two growth formulas agree on a positive base and differ on a negative one |
| YearOverYear.KeysMatch | src/components/dashboard/sales/YearOverYearTable.tsx:36-39 | a sale falls under a (month name, year) key pair exactly when it is dated in that month |
| YearOverYear.YearKeyIsValid | src/components/dashboard/sales/YearOverYearTable.tsx:37 | no real year's key is the key of an unparseable date |
| YearOverYear.CellReference | src/components/dashboard/sales/YearOverYearTable.tsx:70-109 | a cell (0 without a bucket) is the metric of that month's sales of that year; `auv` has no case and stays 0 |
| YearOverYear.YearOverYearData | src/components/dashboard/sales/YearOverYearTable.tsx:32-68 | empty input gives no rows; otherwise twelve rows, January to December |
| YearOverYear.RowMeaning | src/components/dashboard/sales/YearOverYearTable.tsx:68-109 | a row's current and previous values are the metric of that month's sales in the current and the previous year |
| YearOverYear.RowGrowth | src/components/dashboard/sales/YearOverYearTable.tsx:111-114 | a row's growth takes previous to current when previous is positive, and is 0 otherwise |
| YearOverYear.UnsetMetricIsZero | src/components/dashboard/sales/YearOverYearTable.tsx:74-87 | under `auv` every row shows 0, 0 and no growth |
| YearOverYear.MembersWithinTransactions | src/components/dashboard/sales/YearOverYearTable.tsx:82 | each row's member count is at most its transaction count, in both years |
| YearOverYear.OtherYearsIgnored | src/components/dashboard/sales/YearOverYearTable.tsx:65-71 | adding a sale from any other year (or undated) changes no row |
| YearOverYear.RevenueYearTotals | src/components/dashboard/sales/YearOverYearTable.tsx:240-248 | for revenue, each year's column total is the revenue of every sale dated in that year |
| YearOverYear.TotalsGrowth | src/components/dashboard/sales/YearOverYearTable.tsx:246-249 | the overall growth is computed from the two column totals, with the positive-base rule |
| PlainObjectKeys.AsWrittenAgreesOrCrashes | src/components/dashboard/TopBottomSellers.tsx:53-71 | the plain-object grouping throws exactly when some key is an inherited property name, and otherwise equals the own-key grouping |
| PlainObjectKeys.ConstructorSellerCrashes | src/components/dashboard/TopBottomSellers.tsx:53-71 | a seller named "constructor" makes the grouping as written throw; the own-key grouping lists that seller |
| PlainObjectKeys.ToStringMethodCrashes | src/components/dashboard/SalesAnalyticsSection.tsx:67-78 | a payment method named "toString" makes the summary as written throw; the own-key summary has one row for it |

## Left out

- Rendering: JSX, tabs, tooltips, the drill-down modal, click handlers and logging are presentation.
- The KPI count-up animation (src/components/dashboard/sales/KPICards.tsx:162-191) is timers and floating point.
- The clock is read twice per render, and both reads are assumed to fall in the same month. The month-over-month table reads it for the row cells (src/components/dashboard/sales/MonthOverMonthTable.tsx:64) and again for the columns, growth and totals (:138). The year-over-year table reads it at src/components/dashboard/sales/YearOverYearTable.tsx:65 and :143, and both reads are assumed to fall in the same year. The model passes one `now` to both. A render that straddles the boundary, where the columns read keys the rows lack, is not modelled, and the theorems tying growth cells and totals to row cells rely on that single reading.
- Date parsing (`new Date(text)`) is host-dependent. The parsed (year, month) is an input, "now" is a parameter, and an unparseable date matches no month.
- Number formatting (`formatCurrency`, `toFixed`, `toLocaleString`) and src/utils/formatters.ts are display only.
- src/hooks/useGlobalLoading.ts is a store setter with no logic; the loading placeholders are not modelled.
- The fixed figures (the four trend numbers and `conversionRate: 85.2`) are constants. The trends are copied into `KpiCards.Cards` without further claims; `conversionRate` is not modelled.
- Key order: `Object.values` and `Object.keys` list integer-like keys (such as a product named "2024") before the others. The model uses first-seen order for every key.
- Member ids: a JavaScript `Set` keeps `null` and `undefined` apart (SameValueZero), and a numeric id apart from its string form. The model merges both missing forms into `None` and treats ids as strings. So on data that mixes null and absent ids, every distinct-member count (`uniqueMembers`, `Transactions.MemberIds`) can be one lower than the source's.
- Field-name variants (`'Payment Value'` and `paymentValue`) are resolved into one `Transaction` record.
- A payment value held as a string is not modelled; JavaScript would concatenate instead of adding.
- The composition at src/components/dashboard/SalesAnalyticsSection.tsx:145-157 is not modelled. It feeds already-summarised rows back into the grouper. Summary rows have no `soldBy`, `paymentMethod` or `paymentValue`, so the seller list collapses into one "Unknown Seller" row and the payment-method list into one "Unknown Method" row (src/components/dashboard/TopBottomSellers.tsx:46-49), each with a total of 0.
- A trainer record's contents are opaque; only the `totalValue` the quick filter reads is kept.
- Inherited property names as products in the month-over-month pivot are not modelled. That pivot also accumulates into plain objects (src/components/dashboard/sales/MonthOverMonthTable.tsx:36-60). The model gives every product its own row. In the source:
  - a product named like "constructor" or "toString" does not throw. Its sales are written onto the inherited function, and the product has no row.
  - a product named "__proto__" is worse. `acc["__proto__"]` is `Object.prototype`, so lines 45-57 create its month buckets on `Object.prototype` itself. Every later product's `{}` inherits those buckets, adds its sales to the shared bucket instead of creating its own, and line 75 shows the shared bucket for any month in which the product has no own bucket. This includes products with no sale in that month, for which `MonthOverMonth.QuietProductRow` would not hold. The pollution persists after the render.
  - the year-over-year pivot is not affected: its keys are month names, "Invalid Date", year numbers and "NaN" (src/components/dashboard/sales/YearOverYearTable.tsx:36-45), none of which is an inherited name.
- Drill-down data (`rawData || seller` passed to the click handler) is not modelled beyond each row's raw data.

## Findings

| source | as written | input that shows it | evidently intended | confidence | as-written member | corrected member |
|---|---|---|---|---|---|---|
| src/components/dashboard/TopBottomSellers.tsx:53-71 | `if (!acc[key])` on a `{}` accumulator sees the inherited `Object.prototype` member for a key like "constructor", skips creating the group, and line 71 then calls `.add` on `undefined`, which throws a TypeError | one sale whose `soldBy` is "constructor", grouped by seller | every distinct key gets its own group, whatever its text | high, not executed | PlainObjectKeys.ConstructorSellerCrashes | Grouping.GroupBySpec |
| src/components/dashboard/SalesAnalyticsSection.tsx:67-78 | the same check on the payment-method accumulator skips the group for "toString", and line 78 throws on `.add` | one sale whose `paymentMethod` is "toString" | one summary row per distinct payment method | high, not executed | PlainObjectKeys.ToStringMethodCrashes | Grouping.GroupBySpec |
