# property-insights statistics, modelled in Dafny

This project models the statistics layer of `property-insights` (`src/index.js`). The
layer holds small aggregation functions over two lists of plain records. Properties have
`price`, `agent`, `listDate` and `soldDate`. Agencies have `id` and `agency`. The
functions are:

- the value filter;
- the revenue sold by one agent;
- the year token of an ISO date, and the prices sold in a year;
- the median and the mean, the average price of a year, and the year-over-year change;
- the days a listing spent on the market, over all listings and per agency;
- the per-agency report, which adds `averageDaysOnMarket` (or `'n/a'`) to each agency.

The source is pure, so the model is pure too: datatypes, functions and lemmas, with no
classes or loops. Every `reduce((pre, cur) => …, [])` that appends with `[...pre, x]` is a
left fold here (recursion on all but the last record). Each fold is proved equal to
`Selection.Selected(vals, mask)`, a reference definition that lists `vals[i]` at exactly
the positions `i` where `mask[i]` holds, in increasing order (`Selection.Positions`).

Modules, one per concern:

- `wrappers.dfy`, module `Wrappers`: `Option`.
- `selection.dfy`, module `Selection`: the ordered-selection reference.
- `numbers.dfy`, module `Numbers`: the sum fold, `Min`/`Max`, a sorted copy, `calculateAverage` and `calculateMedian`.
- `records.dfy`, module `Records`: the records, JavaScript truthiness, `getYearFromISO`, the year comparison and `calculateOnMarketDays`.
- `queries.dfy`, module `Queries`: the numbered queries 1–6.
- `report.dfy`, module `Report`: the per-agency report.

Modelling decisions:

- Prices and averages are `real`. Day counts are `nat`.
- Ids are `Option<int>`. A missing field is `None`. An id is truthy when it is present and non-zero.
- Dates are `Option<string>`. A date is truthy when it is present and not empty.
- Parsing a date and `differenceInDays` are a foreign library. They become a parameter
  `day: string -> int`, the day number of a date string. The on-market duration is
  `|day(listDate) - day(soldDate)|`.
- Empty input: on an empty list, `calculateAverage` and `calculateMedian` give NaN in the
  source. Here they return `None`. The per-agency report relies on this value: it passes an
  agency's possibly empty list to `calculateAverage`, and NaN is falsy in `avg || 'n/a'`.
  So the model keeps the empty case as an explicit `None` rather than excluding it with a
  precondition. The percentage change is `None` wherever the source gets NaN or Infinity:
  either average undefined, or a base average of 0.
- Two quirks of the source are kept. `cur.agent && …` means agent id 0 never counts toward
  revenue. `avg || 'n/a'` turns an average of exactly 0 into `'n/a'`, not only a NaN average.
- `getYearFromISO(...) == soldYear` compares a string with a number using loose equality,
  which converts the string to a number. The model reads a token made only of decimal
  digits as its numeric value, so "2020" and "02020" both match 2020 (`LooselyEqualsYear`).
  It treats any other token as not matching.
- `calculateMedian` sorts a copy (`[...prices].sort(...)`). In the model, sequences are
  values, so the caller's list cannot change. `Numbers.Sort` is the sorted permutation,
  and `SortedUnique` shows that any correct sort gives the same sequence.

## Model

| member | source | states |
|---|---|---|
| `Queries.FilterByValue` | src/index.js:21-24 | every kept record comes from the input and has `price > value`; the result is never longer than the input |
| `Queries.FilterByValueSelects` | src/index.js:21-24 | the filter is exactly the records with `price > value`, in their original relative order |
| `Queries.FilterByValueExample` | src/index.js:26-28 | with threshold 600000, a 650000 listing is kept and a 500000 one dropped |
| `Queries.GetValueSoldByAgent` | src/index.js:31-40 | the total is 0 when no record matches, and 0 for agent id 0 (a falsy agent never matches) |
| `Queries.ValueSoldByAgentIsSum` | src/index.js:31-40 | the total is the sum of the prices of exactly the records whose agent is truthy and `=== agentId` |
| `Queries.ValueSoldByAgentAppend` | src/index.js:31-40 | the total over two concatenated lists is the sum of the two totals |
| `Records.GetYearFromIso` | src/index.js:46-49 | the token is a prefix of the date with no '-', ending at the first '-' or at the end; with no '-' it is the whole date |
| `Records.YearTokenUnique` | src/index.js:46-49 | any '-'-free prefix ending at a '-' or at the end is the token, so the token is fully determined |
| `Records.DecimalStringLooselyEquals` | src/index.js:65 | a token spelling a year in decimal matches that year under the loose comparison |
| `Records.LeadingZeroLooselyEquals` | src/index.js:65 | a leading zero does not stop a token from matching ("02020" == 2020) |
| `Queries.GetPropertyPricesSoldInYear` | src/index.js:63-72 | the selection is never longer than the property list |
| `Queries.PricesSoldInYearSelects` | src/index.js:63-72 | the selection is the price of exactly the records with a truthy `soldDate` whose year token matches, in input order |
| `Queries.PricesSoldInYearEmpty` | src/index.js:63-72 | the selection is empty exactly when no record was sold in that year |
| `Queries.PricesSoldInYearFrom` | src/index.js:63-72 | every selected price is the price of some record sold in that year |
| `Numbers.Sort` | src/index.js:54 | the copy is sorted ascending, has the input's length and is a permutation of the input |
| `Numbers.SortedUnique` | src/index.js:54 | two sorted permutations of the same values are equal |
| `Numbers.CalculateMedian` | src/index.js:51-61 | the median is undefined (`None`) exactly for the empty input |
| `Numbers.MedianOfSortedPermutation` | src/index.js:51-61 | for any sorted permutation t of a non-empty input, the median is t's middle element (odd length) or the mean of its two middle elements (even length) |
| `Numbers.MedianPermutationInvariant` | src/index.js:51-61 | permuting the input does not change the median |
| `Numbers.MedianBounds` | src/index.js:51-61 | the median of a non-empty input lies between its minimum and its maximum |
| `Numbers.MedianOddExample` | src/index.js:51-61 | any ordering of [1, 2, 3] has median 2 |
| `Numbers.MedianEvenExample` | src/index.js:51-61 | any ordering of [1, 2, 3, 4] has median 2.5 |
| `Queries.MedianPriceSoldInYear` | src/index.js:74-75 | the median price of a year is undefined exactly when nothing was sold that year |
| `Numbers.CalculateAverage` | src/index.js:82-83 | the mean is undefined exactly for the empty input; otherwise mean × length = sum |
| `Numbers.AverageBounds` | src/index.js:82-83 | the mean of a non-empty input lies between its minimum and its maximum |
| `Numbers.AverageOfConstant` | src/index.js:82-83 | a constant sequence averages to that constant |
| `Numbers.AverageZero` | src/index.js:82-83 | the mean of non-negative numbers is non-negative, and 0 exactly when all of them are 0 |
| `Numbers.SumBounds` | src/index.js:83 | element bounds lo ≤ x ≤ hi give lo·n ≤ sum ≤ hi·n |
| `Queries.CalculateAveragePriceByYear` | src/index.js:85-89 | the average price of a year is undefined exactly when nothing was sold that year |
| `Queries.AveragePriceByYearBounds` | src/index.js:85-89 | the average price of a year lies within any price range holding for that year's sales |
| `Queries.PercentageChange` | src/index.js:94-97 | the change is defined exactly when both averages are defined and the base is non-zero; applying it to the base average gives the new average |
| `Records.CalculateOnMarketDays` | src/index.js:101-103 | the result is the non-negative distance between the two day numbers; it is 0 exactly when both dates are the same day |
| `Records.OnMarketDaysSymmetric` | src/index.js:101-103 | swapping the two dates gives the same count |
| `Queries.GetAllDaysOnMarket` | src/index.js:105-117 | never more day counts than records |
| `Queries.AllDaysOnMarketSelects` | src/index.js:105-117 | one count per record with both dates truthy, in input order; records missing a date are skipped, not counted as 0 |
| `Queries.AllDaysOnMarketEmpty` | src/index.js:105-117 | no counts exactly when no record has both dates |
| `Queries.AverageDaysOnMarket` | src/index.js:120 | the average duration is undefined exactly when no record has both dates, and is otherwise non-negative |
| `Queries.GetDaysOnMarketByAgency` | src/index.js:138-150 | never more day counts than records |
| `Queries.DaysOnMarketByAgencySelects` | src/index.js:138-150 | the counts of exactly the records with both dates and `agent === agencyId`, in input order, with the same values as the overall list |
| `Queries.DaysOnMarketByAgencyNoLonger` | src/index.js:138-150 | an agency's list is never longer than the list over all records |
| `Report.AgencyDaysFrom` | src/index.js:154 | each of an agency's counts belongs to one of its listed-and-sold records, and each such record's count appears |
| `Report.AgencyReport` | src/index.js:152-165 | at most one entry per agency; each entry's agency comes from the input, has truthy `id` and `agency`, and carries the average of its days or 'n/a' |
| `Report.ReportKeepsAgencies` | src/index.js:152-165 | the report covers exactly the agencies with truthy `id` and `agency`, in input order, each record kept whole |
| `Report.NotApplicableExactly` | src/index.js:155-160 | 'n/a' exactly when the agency has no listed-and-sold record or all of them were on the market 0 days; otherwise the average is positive |
| `Report.ReportExample` | src/index.js:152-165 | agency {id 1, "A"} with one listing from 2020-01-01 to 2020-01-11 is reported with 10 days |
| `Report.ReportNotApplicableExample` | src/index.js:152-165 | an agency with no listings is reported as 'n/a' with its fields unchanged |

## Left out

- `fetchProperties` and `fetchAgencies` are left out: they are network I/O, JSON decoding and top-level `await` (src/index.js:7-18, 125-136). The two lists are parameters instead.
- The `console.log` output and the `toFixed(2)` formatting of the percentage are left out: they are presentation (src/index.js:26-28, 42-43, 76-79, 91-98, 119-121, 167-170).
- Date parsing and `differenceInDays` from `date-fns` are a foreign library and depend on the time zone. They are the parameter `day`. An invalid date, which gives NaN in the source, is not modelled.
- IEEE-754 floating point is not modelled. Sums and means are exact `real` arithmetic, and NaN and Infinity become `None`.
- `Records.LooselyEqualsYear` matches only tokens made of decimal digits. JavaScript's loose equality also accepts some other tokens, for example one with surrounding spaces, "2020.0", or hexadecimal "0x7E4". Such tokens never match here.
- `Records.Property` has a `price` that is always present. A record without a price, which would turn a sum into NaN, is not modelled.
- Ids are integers. String ids, and the type mixing that `===` would reject, are not modelled.
- `Report.ReportEntry` keeps the whole agency record unchanged, which matches the spread `...cur`. An input agency that already has an `averageDaysOnMarket` field, which the spread would overwrite, is not modelled, because `Records.Agency` has only the fields the report reads.
