# DeFi yield dashboard: the monthly resampler, the pool tables and the dashboard page state

This project is a Dafny model of the core of a DeFi yield dashboard. The
dashboard fetches the public pool list, keeps nine tracked pools, and tags
each one as Lending, Liquid Staking or Yield Aggregator. It shows the pools
under category tabs and locks the Yield Aggregator pools until a wallet, or
the mock login, connects. For a selected pool it charts up to twelve monthly
points of APY and TVL history.

The model covers five parts:

- **The monthly resampler** (`processMonthlyData`). It sorts the raw history
  by time and drops samples before the floor, twelve months back. It groups
  the rest by UTC month, keyed by `"YYYY-MM"` with a zero-based month. For
  each month it picks one representative sample: the first day-1 sample,
  else the first sample of days 1 to 5, else the first sample. It turns each
  representative into a chart point, sorts the points by time and keeps the
  last twelve.
  - `Resampler.Resample` is the specification as a function.
  - `Resampler.ProcessMonthlyData` is the step-by-step procedure: an
    in-place sort of an array, a grouping loop over a dictionary, and a
    per-month loop. It is proved to return `Resample` of the sorted array.
  - The page's own copy of the function is `Dashboard.ProcessMonthlyData`,
    proved to return the same result.
- **The calendar strings** the resampler builds: the bucket key, the ISO
  date `"YYYY-MM-DD"` and the label `"Mar 2024"`. Each has a parser or a
  lemma saying what information it keeps. Sorting keys as strings is proved
  to be chronological for four-digit years. The procedures sort the keys as
  strings, for any year, and the result is proved not to depend on the order
  the keys come in.
- **The pool configuration**: the tracked ids, their categories and the tab
  list. The lemmas check the tables against each other and against the
  page's inline copies.
- **The pool list on the page**:
  - narrowing the fetched list to the tracked pools and tagging them;
  - the category tabs;
  - the lock rule.
- **The page's state hooks** for the pool list, the detail view, the wallet
  flag and the login dialog. These form a class whose methods update its
  fields. Each method keeps the invariant `Valid()`:
  - every held pool is a tagged tracked pool;
  - an open detail view never shows a locked pool;
  - the dialog's only error is the invalid-credentials message.

Files:

- `wrappers.dfy`: `Option`.
- `seqs.dfy`: filter, map, in-place sort, uniqueness of a sorted arrangement.
- `calendar.dfy`: dates and their strings.
- `resampler.dfy`: `processMonthlyData`.
- `pool_config.dfy`: the pool tables.
- `dashboard.dfy`: the page.
- `scenarios.dfy`: worked examples.

## Model

| member | source | states |
|---|---|---|
| Seqs.Filter | src/app/dashboard/page.tsx:84 | `Array.prototype.filter`: the result keeps exactly the elements that satisfy the predicate and is no longer than the input |
| Seqs.Map | src/app/dashboard/page.tsx:85-88 | `Array.prototype.map`: same length, element `i` is the image of input element `i` |
| Seqs.FilterAppend | src/app/dashboard/page.tsx:102-104 | filtering distributes over concatenation, so the input order is kept |
| Seqs.SortBy | src/utils/dataProcessor.ts:8-11 | the in-place sort by a numeric key leaves the array sorted and a permutation of its old contents |
| Seqs.SortedCopy | src/utils/dataProcessor.ts:61-65 | sorting a copy by a numeric key returns a sorted permutation of the input |
| Seqs.SortWith | src/utils/dataProcessor.ts:31-32 | the in-place sort with a comparator leaves no element less than one before it, and is a permutation of the old contents |
| Seqs.SortedCopyWith | src/utils/dataProcessor.ts:31-32 | sorting a copy with a comparator returns a permutation of the input in which no element is less than one before it |
| Seqs.MapPermutation | src/utils/dataProcessor.ts:31-59 | rearranging the input of `map` rearranges its output the same way |
| Seqs.SortedPermutationUnique | src/utils/dataProcessor.ts:61-65 | a strictly ascending sequence is the only sorted permutation of itself, so re-sorting it changes nothing |
| Calendar.MonthOrdinalInjective | src/utils/dataProcessor.ts:21-23 | two months have the same ordinal exactly when they are the same month, and ordinal order is (year, month) order |
| Calendar.FourDigitDecimal | src/utils/dataProcessor.ts:21 | for years 1000 to 9999, `String(year)` is the year's four digits |
| Calendar.MonthPadStart | src/utils/dataProcessor.ts:21-23 | `String(month).padStart(2, "0")` is the two-digit month index |
| Calendar.PadOrder | src/utils/dataProcessor.ts:31-32 | for equal-width zero-padded numbers, string order is numeric order |
| Calendar.MonthKeyShape | src/utils/dataProcessor.ts:21-23 | for four-digit years the key is four year digits, a dash and a two-digit zero-based month, seven characters in all |
| Calendar.MonthKeyRoundTrip | src/utils/dataProcessor.ts:21-23 | a key reads back to its month, so distinct months never share a bucket |
| Calendar.MonthKey | src/utils/dataProcessor.ts:21-23 | the bucket key: the UTC year, a dash and the zero-based month padded to two digits; its meaning is stated by MonthKeyShape, MonthKeyRoundTrip and MonthKeyOrder |
| Calendar.StrLessOrder | src/utils/dataProcessor.ts:31-32 | the default string order of `sort()` never holds both ways and is a strict weak order |
| Calendar.KeyLessOrder | src/utils/dataProcessor.ts:31-32 | comparing months by their key strings is a strict weak order for every year, so the key sort is well defined |
| Calendar.MonthKeyOrder | src/utils/dataProcessor.ts:31-32 | for four-digit years, one key is less than another as a string exactly when its month is earlier |
| Calendar.IsoDate | src/utils/dataProcessor.ts:56 | the date part of `toISOString()`: year, one-based month and day; IsoDateRoundTrip states that it reads back to the date |
| Calendar.IsoDateRoundTrip | src/utils/dataProcessor.ts:56 | for years 0 to 9999 the date part of `toISOString()` has ten characters and reads back to the same UTC date |
| Calendar.Label | src/utils/dataProcessor.ts:47-51 | the short en-US label: the month's name, a space and the year; LabelNamesMonth and PointFields state what it keeps |
| Calendar.MonthNamesTable | src/utils/dataProcessor.ts:47-51 | twelve short month names, each three characters long, all distinct |
| Calendar.LabelNamesMonth | src/utils/dataProcessor.ts:47-51 | two equal labels name the same month |
| Resampler.Kept | src/utils/dataProcessor.ts:19 | the samples at or after the floor, in input order; ResampleFromKept and ResampleEmptyIff state what the series keeps of them |
| Resampler.MonthsIn | src/utils/dataProcessor.ts:25-27 | the bucket keys: a month is a key exactly when it has a kept sample, and no key repeats |
| Resampler.FindIndex | src/utils/dataProcessor.ts:36-41 | `Array.prototype.find`: none exactly when no element matches; otherwise the index matches and no earlier index does |
| Resampler.Representative | src/utils/dataProcessor.ts:35-44 | a bucket has a representative exactly when it is non-empty, and the representative is one of its samples |
| Resampler.RepresentativeRule | src/utils/dataProcessor.ts:35-42 | first match wins: the first day-1 sample; if there is none, the first sample of days 1 to 5; if there is none, the first sample |
| Resampler.OrZero | src/utils/dataProcessor.ts:53-54 | `value \|\| 0`: a missing value reads as 0, any other value as itself |
| Resampler.Last12 | src/utils/dataProcessor.ts:66 | `.slice(-12)`: the last `min(n, 12)` elements |
| Resampler.PointFields | src/utils/dataProcessor.ts:46-57 | a point carries its sample's timestamp and month, `apy` and `tvl` with a missing value read as 0, the UTC day (1 to 31), a label that starts with the month's name, and an ISO date that reads back to the sample's UTC date |
| Resampler.RepresentativeOfMonth | src/utils/dataProcessor.ts:34-42 | a non-empty bucket's representative is a kept sample of that month |
| Resampler.ToPoint | src/utils/dataProcessor.ts:44-57 | the chart point of a representative sample; PointFields states each of its fields |
| Resampler.RepsOfIndex | src/utils/dataProcessor.ts:31-59 | over keys with non-empty buckets, the per-month loop appends exactly one sample per key, in key order |
| Resampler.RepresentativesIndex | src/utils/dataProcessor.ts:17-59 | one representative per month with a kept sample, in key order; each is an input sample at or after the floor, from its own month |
| Resampler.RepresentativesCover | src/utils/dataProcessor.ts:17-59 | every month with a sample at or after the floor has a representative |
| Resampler.MonthsInAscending | src/utils/dataProcessor.ts:17-32 | for sorted input the buckets are created in strictly chronological order |
| Resampler.RepresentativesAscending | src/utils/dataProcessor.ts:17-59 | for sorted input the representatives ascend strictly by instant and by month |
| Resampler.RepresentativeIsEarliest | src/utils/dataProcessor.ts:35-42 | in a sorted bucket of one month, the three-step rule always picks the bucket's first sample |
| Resampler.RepresentativesEarliest | src/utils/dataProcessor.ts:35-42 | each representative is the earliest kept sample of its month; a month with a day-1 sample is represented on day 1 |
| Resampler.Resample | src/utils/dataProcessor.ts:3-67 | the specified series: the last twelve points of the per-month representatives of the sorted input; ResampleBounds, ResampleAscending, ResampleEarliest, ResampleFromKept and ResampleEmptyIff state its properties, and both procedures are proved to return it |
| Resampler.RepsOfPermutation | src/utils/dataProcessor.ts:31-59 | visiting the bucket keys in another order yields the same representatives, rearranged |
| Resampler.KeyOrderIrrelevant | src/utils/dataProcessor.ts:31-65 | whatever order the per-month loop visits the keys in, the points sorted by time are the specified monthly series |
| Resampler.ResampleIsSuffix | src/utils/dataProcessor.ts:61-66 | the series is the points of the last representatives, as many as it has |
| Resampler.ResampleBounds | src/utils/dataProcessor.ts:61-66 | at most twelve points; exactly one per month with a kept sample while there are at most twelve such months; the last points of the full monthly series |
| Resampler.ResampleFromKept | src/utils/dataProcessor.ts:19 | every charted point is the point of an input sample at or after the floor |
| Resampler.MonthlyPointsCover | src/utils/dataProcessor.ts:17-59 | before truncation, every month with a sample at or after the floor has a point |
| Resampler.ResampleEmptyIff | src/utils/dataProcessor.ts:6-19 | the series is empty exactly when no sample is at or after the floor, the empty input included |
| Resampler.MonthlyPointsAscending | src/utils/dataProcessor.ts:61-65 | for sorted input, the points before the final sort already ascend strictly by timestamp |
| Resampler.ResampleAscending | src/utils/dataProcessor.ts:61-66 | the series ascends strictly by timestamp and by month, so no month is charted twice |
| Resampler.ResampleEarliest | src/utils/dataProcessor.ts:35-42 | a charted point is no later than any kept sample of its month, and is on day 1 when its month has a day-1 sample |
| Resampler.GroupByMonth | src/utils/dataProcessor.ts:17-29 | the grouping loop builds one bucket per month with a kept sample, holding exactly that month's kept samples in order; the keys are in order of first occurrence |
| Resampler.Push | src/utils/dataProcessor.ts:25-28 | pushing into a bucket creates it, and its key, when missing; only that bucket changes |
| Resampler.GroupedStep | src/utils/dataProcessor.ts:25-28 | one push keeps the dictionary equal to the grouping of the samples seen so far |
| Resampler.BuildMonthlyData | src/utils/dataProcessor.ts:31-59 | the per-month loop yields the points of the buckets' representatives, in key order |
| Resampler.ProcessMonthlyData | src/utils/dataProcessor.ts:3-67 | null or empty input gives no points; otherwise the input array ends sorted by time, a permutation of itself and still well dated, and the result is the specified series of the sorted input |
| PoolConfig.TargetPoolIdsDistinct | src/config/pools.ts:3-13 | nine tracked ids, no two alike |
| PoolConfig.MappingCoversTargets | src/config/pools.ts:3-25 | the category mapping has an entry for exactly the tracked ids |
| PoolConfig.NoPoolMappedToAll | src/config/pools.ts:15-25 | no pool is mapped to the `All` tab |
| PoolConfig.CategoryAt | src/config/pools.ts:15-25 | the tracked id at each position has the category of its block of three |
| PoolConfig.IdsOfCategories | src/config/pools.ts:3-25 | the Lending ids are the first three tracked ids, the Liquid Staking ids the next three, the Yield Aggregator ids the last three, and no id is `All` |
| PoolConfig.ThreePerCategory | src/config/pools.ts:3-25 | three tracked ids per real category |
| PoolConfig.CategoriesTable | src/config/pools.ts:27-32 | four tabs, `All` first, every category exactly once under distinct names |
| Dashboard.PageTablesAgree | src/app/dashboard/page.tsx:47-73 | the page's inline id list, mapping and tab list equal the configuration tables |
| Dashboard.TargetPools | src/app/dashboard/page.tsx:83-88 | the kept pools are tracked pools, each tagged with its configured category, and no more than were fetched |
| Dashboard.Tag | src/app/dashboard/page.tsx:85-88 | a pool with its category set from the page's mapping; TaggedTarget states that nothing else changes |
| Dashboard.TaggedTarget | src/app/dashboard/page.tsx:85-88 | tagging a tracked pool sets its category to the configured one and changes nothing else |
| Dashboard.TargetPoolsAppend | src/app/dashboard/page.tsx:83-88 | tagging keeps the fetch order |
| Dashboard.TargetPoolsSingleton | src/app/dashboard/page.tsx:83-88 | one fetched pool survives exactly when its id is tracked, with only its category replaced |
| Dashboard.FilteredPools | src/app/dashboard/page.tsx:102-104 | a pool is shown exactly when it is held and the tab is `All` or the pool's category |
| Dashboard.FilteredPoolsAll | src/app/dashboard/page.tsx:102-103 | the `All` tab shows the held list unchanged |
| Dashboard.FilteredPoolsAppend | src/app/dashboard/page.tsx:102-104 | a tab keeps the list order |
| Dashboard.TabOfTargets | src/app/dashboard/page.tsx:83-104 | a category tab over the tagged list shows exactly the fetched pools whose configured category it is, in fetch order |
| Dashboard.IsPoolLocked | src/app/dashboard/page.tsx:268-270 | a pool is locked when it is a Yield Aggregator and no wallet is connected; LockedPools states which pools that locks |
| Dashboard.LockedPools | src/app/dashboard/page.tsx:268-270 | no pool is locked once connected; before that, the locked pools are exactly the Yield Aggregator tab |
| Dashboard.DashboardState.constructor | src/app/dashboard/page.tsx:35-44 | the initial hook values satisfy the invariant |
| Dashboard.DashboardState.LoadPools | src/app/dashboard/page.tsx:83-90 | after the fetch the held pools are the tagged tracked pools, and the invariant holds |
| Dashboard.DashboardState.SelectCategory | src/app/dashboard/page.tsx:495 | a tab button selects its category |
| Dashboard.DashboardState.ClickPool | src/app/dashboard/page.tsx:553-561 | a click on a locked pool changes nothing; any other click opens that pool's detail view |
| Dashboard.DashboardState.CloseDetail | src/app/dashboard/page.tsx:282 | the back button closes the detail view |
| Dashboard.DashboardState.ConnectWallet | src/app/dashboard/page.tsx:229-243 | an accepted wallet request connects; a refusal or a missing wallet opens the login dialog instead |
| Dashboard.DashboardState.EditUsername | src/app/dashboard/page.tsx:702 | typing in the username field changes only the username |
| Dashboard.DashboardState.EditPassword | src/app/dashboard/page.tsx:717 | typing in the password field changes only the password |
| Dashboard.DashboardState.HandleLogin | src/app/dashboard/page.tsx:246-258 | the mock credentials connect, close the dialog, clear the form and clear the error; anything else changes only the error, which becomes the invalid-credentials message |
| Dashboard.DashboardState.CloseLoginModal | src/app/dashboard/page.tsx:261-265 | closing the dialog hides it and clears the form and the error |
| Dashboard.ChooseBestPoint | src/app/dashboard/page.tsx:166-183 | the page's `let`/`if` chain picks the same representative as the shared rule |
| Dashboard.MonthlyDataOf | src/app/dashboard/page.tsx:163-200 | the page's per-month loop yields the points of the buckets' representatives, in key order |
| Dashboard.ProcessMonthlyData | src/app/dashboard/page.tsx:135-220 | the page's copy sorts its input in place, keeps it well dated and returns the same series as the shared resampler |
| Scenarios.LoneSample | src/utils/dataProcessor.ts:17-66 | a lone mid-March 2024 sample with a floor of June 2023 gives one point: "Mar 2024", APY 5, a missing TVL read as 0, day 15, "2024-03-15" |
| Scenarios.MarchPoint | src/utils/dataProcessor.ts:46-57 | the point built from that sample, field by field |
| Scenarios.FirstDayWins | src/utils/dataProcessor.ts:35-38 | with samples on days 1, 3 and 20, the day-1 sample is chosen |
| Scenarios.EarlyDayWins | src/utils/dataProcessor.ts:39-41 | with samples on days 3 and 20, the day-3 sample is chosen |
| Scenarios.FirstSampleWins | src/utils/dataProcessor.ts:42 | with samples on days 9 and 20, the first sample is chosen |

## Left out

- Parsing timestamps is not modelled. A sample carries its instant and its UTC date, and the model does not compute one from the other. The ordering lemmas, and the resampler procedures, assume `WellDated`: a later instant never falls on an earlier calendar date. `new Date(...)` always satisfies this. A timestamp that does not parse (`NaN`) is not modelled.
- The floor (`twelveMonthsAgo`) is a parameter. It is computed from the wall clock in local time, and neither the clock nor the time zone is modelled.
- Resampler.ProcessMonthlyData: keys its buckets by the month itself, not by the key string. Calendar.MonthKeyRoundTrip shows the two agree for years 1000 to 9999. For other years (`"-5-03"`, `"10000-00"`) the model does not show that two months never share a key string.
- Dashboard.ProcessMonthlyData: keys its buckets the same way as Resampler.ProcessMonthlyData, with the same limit.
- Seqs.SortBy: does not state that the sort is stable. Equal timestamps may therefore land in either order. The result is stated against the array as sorted.
- Calendar.LabelNamesMonth: states only that the month name is recovered. The year part of the label (`IntString`) is modelled but not parsed back, since locale formatting of years outside 1 to 9999 is not modelled.
- Resampler.PointFields: states the ISO date round trip only for years 0 to 9999. Outside that range `toISOString()` writes six-digit signed years, which are modelled (`IsoYear`) but not parsed back.
- Resampler.OrZero: a `NaN` value, which `|| 0` also maps to 0, is not modelled; values are `Option<real>`, not IEEE floating point.
- The source comment "Return exactly 12 months" is not what the code does. Resampler.ResampleBounds states what it does: as many points as months with data, up to twelve.
- The fetch requests, the loading flags, the historical-data state and the chart loading state are not modelled. The historical fetch that a pool click starts is not modelled either. `fetchHistoricalData`, `usePoolData` and its "Unknown" fallback category are not part of this model.
- Dashboard.DashboardState.ConnectWallet: the asynchronous wallet request (`eth_requestAccounts`) is replaced by its outcome, given as a parameter.
- Number formatting, the JSX views and console logging are not modelled.
- Pool fields the core does not read (`apyMean30d`, `sigma`, `predictions` and the other API fields) are left out of `Pool`.
