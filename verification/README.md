# utmdash core in Dafny

This project models the data core of utmdash. utmdash is a sales dashboard. It imports a CSV export, or a Google Sheet published as CSV, and shows sales grouped by UTM source and campaign.

The model covers two pipelines.

**Import (App.tsx).**
- `parseCSV` splits the text into non-blank lines and reads the header line.
- It cuts each data line at the commas outside quotes.
- Every cell goes through `cleanAndParse`: currency and percent markers go, Brazilian decimals are read, and a number or a text comes out.
- Each column is typed `number` or `string`.
- The import history keeps the ten newest tables (`addToHistory`, `deleteFromHistory`).
- A Google Sheets `/edit` link is rewritten to its CSV export link.

**Dashboard (components/Dashboard.tsx).**
- `findHeader` resolves the column roles: date, status, product, revenue, source, campaign and content.
- `cleanUTMSource` and `cleanUTMCampaign` normalise UTM values.
- The multi-select filter state changes through `toggleFilter` and `clearAllFilters`.
- The row filter applies the categorical selections and the search term.
- The aggregates are the per-column counts `filterCounts`, the per source and campaign table `groupedPerformance`, the top-five charts `getTop5`, the headline `stats`, and each group's cost, ROI and profit flags.

Cells are `Num(real) | Str(string)`. Rows are maps from header to cell. Money is exact `real` arithmetic.

Loops that fill records in the source are methods with loop invariants. Each method is proved equal to a specification function, and the properties are proved about that function:
- `cleanAndParse`
- the row and type loops of `parseCSV`
- `filterCounts`
- `groupedPerformance`
- `getTop5`
- `stats`

The record-filling loops of `groupedPerformance` and `getTop5` share one generic model, `Grouping`. In it, a record is a map plus its keys in insertion order, which is what `Object.values` and `Object.entries` list.

## Model

| member | source | states |
|---|---|---|
| Cells.JsNumber | App.tsx:104 | `Number(s)` on decimal text: blank text is 0, and any other accepted text consists of digits, signs and points only |
| Cells.NatTextRoundTrip | App.tsx:104-105 | reading back the printed form of a natural number gives the number |
| Cells.ReadDecimal | App.tsx:104 | `Number` reads `whole.frac` as its decimal value |
| Cells.TextOr | components/Dashboard.tsx:246-252 | `String(x \|\| fallback)`: a falsy cell (`undefined`, `0`, `''`) gives the fallback; any other cell gives its own text |
| Cells.TextOrIfMissing | components/Dashboard.tsx:214 | `String(x ?? fallback)`: only a missing cell gives the fallback; a present cell, even `''` or `0`, gives its own text |
| Cells.NumberOrZero | components/Dashboard.tsx:254 | `Number(x) \|\| 0`: a missing cell counts 0, a number counts itself, a text counts what `Number` reads in it, or 0 when it reads nothing |
| Cells.ColumnSumAppend | App.tsx:55 | the column sum of two blocks of rows is the sum of their column sums |
| Text.TrimInfix | App.tsx:84 | `trim` keeps the infix between a blank prefix and a blank suffix, and the result neither starts nor ends with white space |
| Text.TrimEmptyIffBlank | App.tsx:81 | trimming gives `''` exactly for white-space-only text |
| Text.TrimIdempotent | App.tsx:89 | trimming twice is trimming once |
| Text.Lower | components/Dashboard.tsx:112 | `toLowerCase` keeps the length and maps each character by `LowerChar`: `A`-`Z` and the Latin-1 capitals go to their small letters (code point plus 32), and every other character stays |
| Text.StripQuotes | App.tsx:84 | `replace(/^"\|"$/g, '')` removes a leading double quote and a trailing one, each on its own; text with neither is unchanged |
| Text.ReplaceFirst | App.tsx:93-94 | replacing a string pattern changes only its first occurrence, and changes nothing when it is absent |
| Text.SplitOnJoin | App.tsx:84 | joining the parts of `split(',')` with commas gives the text back |
| Csv.SplitLines | App.tsx:81 | `split(/\r?\n/)` always yields at least one line |
| Csv.NoLinesIffBlank | App.tsx:81-82 | no line is left after dropping blank lines exactly when the whole text is white space |
| Csv.HeaderNamesClean | App.tsx:84 | one header per comma-separated part of the header line, each that part trimmed and stripped of its quotes |
| Csv.SplitQuoted | App.tsx:109 | the quote-aware split of a data line yields at least one field |
| Csv.SplitQuotedSeparators | App.tsx:109 | a data line is cut at exactly the commas followed by an even number of double quotes |
| Csv.SplitQuotedJoin | App.tsx:109 | joining the fields with commas gives the line back |
| Csv.SplitQuotedWithoutQuotes | App.tsx:109 | a line without double quotes is cut at every comma, like the header line |
| Csv.FieldsTrimmed | App.tsx:109 | one field per piece of the quote-aware split, each that piece trimmed |
| Csv.CleanAndParse | App.tsx:86-106 | the step-by-step reassignment of the working text yields the cleaned cell |
| Csv.CleanBlank | App.tsx:87 | a blank cell becomes `''` |
| Csv.CleanTextIsNotNumeric | App.tsx:104-105 | a text result is empty or does not read as a number |
| Csv.CleanKeepsWords | App.tsx:89-105 | a trimmed word without quotes, `R$` or `%`, holding a letter, is kept unchanged |
| Csv.CleanCommaDecimal | App.tsx:91-101 | `1234,56` cleans to the number 1234.56 |
| Csv.CleanPercent | App.tsx:91-101 | `45,5%` cleans to 45.5: the percent sign is dropped, not applied |
| Csv.CleanCurrency | App.tsx:91-101 | `R$ ` followed by `whole,frac` without dots cleans to the decimal value |
| Csv.CleanThousands | App.tsx:91-101 | `1.234,56` (digits with thousands dots, a decimal comma, digits) cleans to the number whose digits are the dot-free whole part and the fraction |
| Csv.CleanCurrencyThousands | App.tsx:91-101 | the same with the `R$ ` prefix: `R$ 1.234,56`-shaped text cleans to that number |
| Csv.CleanBrazilianPrice | App.tsx:91-101 | `R$ 1.234,56` cleans to 1234.56 |
| Csv.RowSpec | App.tsx:110-113 | a row has an entry for every header and no other |
| Csv.ShortLineGivesEmpty | App.tsx:112 | a field missing from a short line becomes `''`; with repeated headers the last column is the one that counts |
| Csv.BuildRow | App.tsx:110-113 | the `forEach` over the headers fills the row the specification describes |
| Csv.TypesSpec | App.tsx:117-121 | every header gets a type |
| Csv.InferTypes | App.tsx:117-121 | the `forEach` with its `rows.find` fills the types the specification describes |
| Csv.TypesSpecNumber | App.tsx:119-120 | a column is `number` exactly when some row holds a number in it |
| Csv.DataRows | App.tsx:108 | one row per data line |
| Csv.ParseCsv | App.tsx:80-124 | the whole of `parseCSV` yields the specified table, or `null` |
| Csv.ParseFailsIffBlank | App.tsx:81-82 | `parseCSV` gives `null` exactly when the text is white space only |
| Csv.ParseShape | App.tsx:108-123 | there is one row per non-blank line after the header line, each row has exactly the headers as keys, and every header has a type |
| Csv.ParseTypes | App.tsx:117-121 | in the parsed table, a column is `number` exactly when some parsed row holds a number in it |
| History.RevenueColumn | App.tsx:54 | the first header whose lower case contains `valor` or `faturamento`, or none when no header does |
| History.RevenueAsWritten | App.tsx:54-55 | the total as written, which sums the column named `''` when no header matches; it agrees with `Revenue` whenever a header matches |
| History.Revenue | App.tsx:54-55 | the intended total: 0 when no header names revenue |
| History.AsWrittenAgreesWithoutBlankColumn | App.tsx:54-55 | the two totals agree on every table without a `''` column |
| History.AsWrittenSumsBlankColumn | App.tsx:54-55 | a table with headers `a` and `''` has a written total of 5 and an intended total of 0 |
| History.NewEntry | App.tsx:54-66 | the entry keeps the given id, name, time and table; its sales count is the row count; its revenue is the sum of the first revenue column, which agrees with the source whenever such a column exists, and 0 without one |
| History.AddToHistory | App.tsx:67 | the new entry comes first and the earlier entries follow in order, at most ten in all |
| History.AddEvictsOldest | App.tsx:67 | a full history drops its oldest entry |
| History.AddKeepsIdsDistinct | App.tsx:58-67 | with a fresh id, entry ids stay distinct |
| History.AddKeepsNewestFirst | App.tsx:60-67 | with a clock that does not go back, the list stays newest first |
| History.DeleteFromHistory | App.tsx:70-72 | keeps, in order, exactly the entries with another id |
| History.DeleteAbsent | App.tsx:70-72 | deleting an unknown id changes nothing |
| History.DeleteIdempotent | App.tsx:70-72 | deleting twice is deleting once |
| History.AddThenDelete | App.tsx:53-72 | adding an entry with a fresh id to a list that is not full, then deleting that id, restores the list |
| SheetUrl.EditTailFrom | App.tsx:150 | the leftmost position where `/\/edit.*$/` matches |
| SheetUrl.ExportUrl | App.tsx:149-151 | a URL without a match is unchanged; otherwise everything from the leftmost match on is replaced by `/export?format=csv` |
| SheetUrl.SingleLineRewrite | App.tsx:149-151 | for a one-line URL, the text from the first `/edit` to the end is replaced |
| SheetUrl.NoMatchAfterRewrite | App.tsx:150 | a rewritten URL has no match left |
| SheetUrl.ExportUrlIdempotent | App.tsx:149-151 | rewriting twice is rewriting once |
| Roles.KeyMatchesIsContainment | components/Dashboard.tsx:112 | the equality test in `findHeader` is already covered by containment |
| Roles.FindHeader | components/Dashboard.tsx:110-113 | the hinted header when it exists and is not empty; any result is one of the headers |
| Roles.FindHeaderSearch | components/Dashboard.tsx:112 | without a usable hint, it returns the first header that matches some key, or none exactly when no header matches |
| Roles.FoundHeaderNotEmpty | components/Dashboard.tsx:110-113 | with non-empty keys the result is never `''` |
| Roles.ResolveRoles | components/Dashboard.tsx:115-121 | every resolved role column (date, status, product, revenue, source, campaign, content) is a header |
| Roles.CategoricalCols | components/Dashboard.tsx:123 | at most five columns, none empty, each one of the status, product, source, campaign or content roles |
| Roles.CategoricalColsAreHeaders | components/Dashboard.tsx:123 | every categorical column is a header |
| Roles.CleanUTMSource | components/Dashboard.tsx:125-134 | never empty; `''` becomes `organic`; otherwise the first network the lower-cased text mentions, checked in the order tiktok, facebook or `fb`, instagram or `ig`, google, kwai, names the result; a text mentioning none is kept unchanged |
| Roles.CleanUTMSourceIdempotent | components/Dashboard.tsx:125-134 | cleaning twice is cleaning once |
| Roles.CleanUTMCampaign | components/Dashboard.tsx:136-139 | `''` becomes `n/a`; otherwise the result is the trimmed text before the first `\|`, so it holds no `\|` |
| Roles.CleanUTMCampaignIdempotent | components/Dashboard.tsx:136-139 | cleaning a campaign whose cleaned form is not empty a second time changes nothing |
| Roles.CampaignWithoutBar | components/Dashboard.tsx:138 | a campaign without `\|` is only trimmed |
| Filters.WithIndex | components/Dashboard.tsx:106-108 | each row gets its position under `_id` |
| Filters.WithIndexDistinct | components/Dashboard.tsx:106-108 | indexed rows are pairwise different |
| Filters.ToggledValues | components/Dashboard.tsx:167-170 | the toggled value is present exactly when it was absent; other values are kept; no duplicate appears |
| Filters.ToggleFilter | components/Dashboard.tsx:165-173 | only the toggled column changes, and its value set changes as `ToggledValues` says |
| Filters.ToggleTwice | components/Dashboard.tsx:165-173 | toggling a value twice gives the column back its value set and leaves other columns alone |
| Filters.ToggleTwiceRestores | components/Dashboard.tsx:165-173 | toggling an unselected value twice restores the filters exactly |
| Filters.ClearAllFilters | components/Dashboard.tsx:175-180 | no selection, no search term, preset `all`, no open menu |
| Filters.FilteredRows | components/Dashboard.tsx:185-222 | an order-preserving subsequence of the rows, keeping exactly the rows that pass the date, selection and search tests |
| Filters.SameSelectionsSameMatch | components/Dashboard.tsx:211-218 | selections holding the same values decide every row alike, and an empty selection constrains nothing |
| Filters.ClearedFiltersKeepEveryRow | components/Dashboard.tsx:175-222 | after `clearAllFilters` every row is shown |
| Filters.ToggleTwiceSameRows | components/Dashboard.tsx:165-222 | toggling a value twice shows the same rows as before |
| Counts.FilterCounts | components/Dashboard.tsx:226-240 | the nested loops produce each categorical column's values over the rows, counted once per listing of the column |
| Counts.CountRow | components/Dashboard.tsx:233-238 | one row adds its value to every listed column's counts |
| Counts.CountsAreOccurrences | components/Dashboard.tsx:226-240 | each count is the number of rows showing the value, times the column's listings |
| Counts.CountsSumToRows | components/Dashboard.tsx:226-240 | the counts of a column listed once sum to the number of filtered rows |
| Grouping.KeysInOrderSpec | components/Dashboard.tsx:256-269 | the record's keys are distinct, each is some row's key, and every row's key is among them |
| Grouping.MemberCount | components/Dashboard.tsx:245-274 | a key's rows are exactly the rows with that key |
| Grouping.MembersPartition | components/Dashboard.tsx:270 | the sizes of the groups add up to the number of rows |
| Grouping.GroupsInOrder | components/Dashboard.tsx:283 | `Object.values(groups)`: one summary per listed key, in the order of `KeysInOrder` |
| Grouping.KeysInOrderPrefix | components/Dashboard.tsx:256-269 | the keys of a prefix of the rows are listed first, in the same order |
| Grouping.FirstAppearanceOrder | components/Dashboard.tsx:256-269 | keys are listed in order of first appearance: a key listed earlier occurs before every occurrence of a later one |
| Grouping.TableDone | components/Dashboard.tsx:244-283 | after the loop the record lists exactly `GroupsInOrder` |
| Seqs.SortDescending | components/Dashboard.tsx:283 | `sort((a, b) => b.vendas - a.vendas)` yields a permutation, sorted by sales, most first |
| Seqs.SortStable | components/Dashboard.tsx:283 | the sort is stable: the elements with the same key keep their relative order |
| Seqs.SortSum | components/Dashboard.tsx:283 | sorting keeps the sum of the keys |
| Seqs.SortDistinctBy | components/Dashboard.tsx:283 | sorting keeps keys distinct |
| Groups.CampaignOf | components/Dashboard.tsx:247 | a cleaned campaign never holds `\|` |
| Groups.KeyRoundTrip | components/Dashboard.tsx:248 | the key `${s}\|${c}` gives back its source and campaign |
| Groups.SameKeyIffSameParts | components/Dashboard.tsx:246-248 | two rows share a group key exactly when they share cleaned source and campaign |
| Groups.Fresh | components/Dashboard.tsx:256-269 | a new group has no sales, no products, statuses or contents, and carries its key |
| Groups.SummariseCounts | components/Dashboard.tsx:270-273 | `vendas` is the number of the group's rows and equals the total of the product counts and of the status counts; source, campaign and key are the first row's |
| Groups.SummariseRevenue | components/Dashboard.tsx:254-271 | `faturamento` is the sum of `Number(cell) \|\| 0` over the group's rows |
| Groups.RevenueIsColumnSum | components/Dashboard.tsx:254 | that sum is the column sum of the revenue column |
| Groups.SummariseNames | components/Dashboard.tsx:272-274 | product and status counts are the rows' occurrences; contents are the set of the rows' contents |
| Groups.SummariseDatesFromRows | components/Dashboard.tsx:276-280 | the minimum and maximum dates are dates of the group's rows |
| Groups.SummariseDatesBound | components/Dashboard.tsx:276-280 | when every date parses, every row's date lies between the minimum and the maximum |
| Groups.GroupedPerformance | components/Dashboard.tsx:243-283 | the loop over the rows builds the record whose values, sorted by sales, are the specified table |
| Groups.GroupsInOrderSummaries | components/Dashboard.tsx:256-283 | each listed group summarises exactly its key's rows and carries that key |
| Groups.PerformanceGroupsAreSummaries | components/Dashboard.tsx:243-283 | one group per distinct key, each the summary of exactly the rows with its key |
| Groups.PerformanceCoversRows | components/Dashboard.tsx:243-283 | every row's key has its group |
| Groups.PerformanceSalesTotal | components/Dashboard.tsx:243-283 | the groups' sales add up to the filtered row count |
| Top5.TopValue | components/Dashboard.tsx:323-325 | `String(row[col] \|\| 'N/A').trim()`: a falsy cell gives `N/A`, any other its trimmed text, with no white space at either end; a source value is never empty and is a known network or the trimmed text; a campaign value holds no `\|` |
| Top5.EmptyCellShowsNA | components/Dashboard.tsx:323-325 | an empty cell shows as `N/A` in a chart but as `''` in the filter menus, which use `??` |
| Top5.Take | components/Dashboard.tsx:328 | `slice(0, 5)` keeps the first five, or everything when there are fewer |
| Top5.GetTop5 | components/Dashboard.tsx:319-328 | without a column the chart is empty; otherwise it is the tally sorted by count, first five |
| Top5.CountValues | components/Dashboard.tsx:321-328 | the counting loop and `Object.entries` give the tally: each value with its number of rows |
| Top5.TallySpec | components/Dashboard.tsx:321-328 | no value is tallied twice, each tallied value occurs with its exact count, and every occurring value is tallied |
| Top5.TopSpec | components/Dashboard.tsx:319-328 | at most five entries, most frequent first, distinct names, exact counts; a value left out occurs no more often than the fifth entry |
| Top5.TakeSpec | components/Dashboard.tsx:328 | the first five of a sorted tally are the five most frequent values |
| Kpis.ComputeStats | components/Dashboard.tsx:335-348 | the revenue loop sums the revenue column; the other figures follow from the sum, the row count, the spend and the frozen balance |
| Kpis.Figures | components/Dashboard.tsx:338-347 | taxes are 6% of revenue |
| Kpis.ProfitBalances | components/Dashboard.tsx:338-342 | profit is revenue less spend, frozen balance and taxes |
| Kpis.RoasIsReturnOnCosts | components/Dashboard.tsx:342-343 | with costs, ROAS times costs is revenue; without costs, ROAS is 0 |
| Kpis.ProfitIffRoasAboveOne | components/Dashboard.tsx:339-343 | with costs, there is a profit exactly when ROAS is above 1 |
| Kpis.PerSaleFigures | components/Dashboard.tsx:344-345 | with sales, CPA times sales is spend plus taxes and the ticket times sales is revenue; with none, both are 0 |
| Kpis.Investment | components/Dashboard.tsx:479 | an entered investment is used as it is; a group without one has 0 |
| Kpis.CostsOf | components/Dashboard.tsx:479-486 | the total cost is the investment plus 6% of the group's revenue |
| Kpis.ProfitFlags | components/Dashboard.tsx:485-486 | never both in profit and at a loss; neither without a positive investment; exactly one with a positive investment and a revenue that is not negative |
| Kpis.ProfitIffRoiAboveOne | components/Dashboard.tsx:483-486 | with an investment and costs, a group is in profit exactly when its ROI is above 1 |
| Kpis.GroupCpa | components/Dashboard.tsx:482 | with sales, CPA times sales is the group's total cost; with none, CPA is 0 |
| Kpis.RoiBadge | components/Dashboard.tsx:546-549 | pending exactly when the investment is 0; otherwise green exactly when the ROI is at least 1 and red exactly when it is below 1 |
| Kpis.BadgeAgreesWithFlags | components/Dashboard.tsx:546-549 | except at an ROI of exactly 1, the green badge goes with a profit row and the red badge with a loss row |
| Kpis.BreakEvenShowsBoth | components/Dashboard.tsx:546-549 | a group that exactly breaks even is coloured as a loss but gets the green badge |

## Left out

- Rendering, hooks, charts, `formatBRL` and `toLocaleString`: presentation only.
- `localStorage` persistence and the per-view filter save and restore effect (components/Dashboard.tsx:58-104, App.tsx:36-51). These are I/O and effect scheduling. Saved values such as `manualInvestment`, `frozenBalance` and the per-group investments are plain inputs.
- Editing a group investment (components/Dashboard.tsx:540) is not modelled. The record of investments is an input.
- `FileReader`, `fetch` and the rest of `handleFileUpload` and `loadFromUrl`: asynchronous I/O. Only the URL rewrite is modelled.
- `loadFromHistory`, `uniqueValuesMap`, `periodStats` and `evolutionData`. These are a state copy, a sorted list of values for the menus, and clock-dependent counts.
- services/geminiService.ts is not part of this model. It wraps a foreign AI client.
- `crypto.randomUUID()` and `Date.now()` are parameters of `History.AddToHistory`.
- Filters.MatchesDate: the date presets depend on the clock. A parameter `inWindow` says whether a row's date lies in the chosen window.
- `parseBrazilianDate` is the parameter `dateKey` of `Groups.GroupedPerformance`. Its `None` stands for both `null` and an invalid date, since every comparison with either is false.
- Cells.JsNumber: accepts the decimal grammar `[+-]` digits `[.digits]` only. Hexadecimal, exponents and `Infinity` are not read.
- Cells.NumText: prints a number as integer part and fraction. JavaScript's exponent forms for very large or small numbers are not produced.
- Text.Lower: folds ASCII and Latin-1 letters only.
- Kpis.ComputeStats: uses exact real arithmetic. IEEE-754 rounding of the sums and ratios is not modelled.
- Counts.FilterCounts: a value named like an `Object.prototype` member (`constructor`, `toString`) is counted like any other. In the source, `(counts[col][val] || 0) + 1` would concatenate text for such a value. The same gap applies to the product and status counts of `Groups.GroupedPerformance`, and to `Top5.CountValues` and `Top5.GetTop5`, whose `(counts[val] || 0) + 1` runs over row values (components/Dashboard.tsx:326). Group keys always hold a `|`, so they cannot hit such names.
- Csv.CleanThousands: states the value of unsigned amounts only (as do Csv.CleanCommaDecimal and Csv.CleanCurrency). A leading minus sign, as in `-1.234,56`, passes the same cleaning steps, but no lemma states the value it reads to.
- History.NewEntry: without a revenue column it records the corrected total 0. As written, App.tsx:54-55 records the sum of a column named `''` (see Findings).
- Top5.GetTop5: ties keep their order of first appearance. `Object.entries` lists array-index-like names (such as `2024`) first, in numeric order, so ties among such names may come out in another order. Top5.TopSpec states nothing about the order of ties.

## Findings

| source | as written | input that shows it | evidently intended | confidence | as-written member | corrected member |
|---|---|---|---|---|---|---|
| App.tsx:54-55 | when no header names revenue, the header falls back to `''` and the column named `''` is summed | the text `a,` then `1,5` gives headers `a` and `''`; the history total is 5 | a total of 0 when no revenue column exists | medium, not executed | History.AsWrittenSumsBlankColumn | History.Revenue |
