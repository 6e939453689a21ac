# Holistic reservation view — aggregation model

A Dafny model of the holistic-view endpoint of the restaurant reservation
backend (`backend/RestaurantReservations/hollisticView.js`). The endpoint
fetches a restaurant's reservations and summarises them per bucket for one of
three views:

- `daily` groups by calendar date and starts from no buckets;
- `weekly` groups by weekday name and starts from seven empty buckets,
  Sunday to Saturday;
- `monthly` groups by month name and starts from twelve empty buckets,
  January to December;
- any other view throws `Invalid view type`.

Every bucket is reduced to `{key, totalReservations, totalTables}`, where a
reservation for `c` guests needs `ceil(c / 4)` four-seat tables. The handler
turns any thrown error into a 400 response with the error's message and no
data.

Modules:

- `Wrappers` (`wrappers.dfy`): the `Result` type that replaces thrown errors.
- `Buckets` (`buckets.dfy`): the JavaScript object used as a map from key to
  array, as an ordered association list with distinct keys; `groupBy` as the
  fold `GroupBy`; the pre-seeding loop as `SeedFrom`; and the reference
  definitions the fold is proved against (`Select`: the items with a given key;
  `FirstSeen`: new keys in first-seen order; `FirstIndex`: first occurrence).
- `Calendar` (`calendar.dfy`): the weekday and month name tables and the
  lookups `getDayOfWeek` / `getMonth`.
- `Aggregation` (`aggregation.dfy`): reservations, the table arithmetic, the
  view switch and the per-bucket reduction, with the view-level properties.
- `Handler` (`handler.dfy`): the mapping of fetch and aggregation outcomes to
  the success and failure responses.

The date conversions are not modelled: a `Reservation` carries its derived
keys. `dateKey` is the UTC date that `toISOString()` yields. `dayIndex` and
`monthIndex` are the local weekday and month that `getDay()` and `getMonth()`
yield, so they are typed `0..6` and `0..11`. The code takes the daily key from
the UTC rendering, while the weekday and month come from local time.

## Model

| member | source | states |
|---|---|---|
| Buckets.Insert | backend/RestaurantReservations/hollisticView.js:96-100 | one step of the fold keeps the key order and adds the key at the end exactly when it was missing; a pre-seeded empty array counts as present |
| Buckets.InsertLookup | backend/RestaurantReservations/hollisticView.js:97-100 | after one step the bucket under the item's key ends with that item and every other bucket is unchanged |
| Buckets.InsertFlatten | backend/RestaurantReservations/hollisticView.js:97-100 | one step adds exactly the one item to the contents of all buckets |
| Buckets.GroupBy | backend/RestaurantReservations/hollisticView.js:94-103 | grouping loses and duplicates nothing: the multiset of all bucket contents is the seed's plus the input's |
| Buckets.GroupByKeys | backend/RestaurantReservations/hollisticView.js:94-103 | the result's keys are the seed's keys in their order, then the new keys in first-seen order |
| Buckets.GroupByBucket | backend/RestaurantReservations/hollisticView.js:94-103 | the bucket under any key is the seed's bucket followed by the input items with that key, in input order |
| Buckets.GroupByDistinct | backend/RestaurantReservations/hollisticView.js:97-99 | a key never gets a second bucket |
| Buckets.GroupByBucketAt | backend/RestaurantReservations/hollisticView.js:94-103 | from empty seeded buckets, bucket i holds exactly the input items whose key is bucket i's key |
| Buckets.FirstSeenMembers | backend/RestaurantReservations/hollisticView.js:97-99 | a key is newly created exactly when it is not seeded and some item carries it |
| Buckets.FirstSeenFresh | backend/RestaurantReservations/hollisticView.js:97-99 | newly created keys are distinct and never seeded ones |
| Buckets.FirstSeenOrder | backend/RestaurantReservations/hollisticView.js:97-99 | newly created keys appear in the order of their first occurrence in the input |
| Buckets.SeedFrom | backend/RestaurantReservations/hollisticView.js:51-56 | the seeding loop leaves earlier buckets untouched and only adds empty ones |
| Buckets.SeedFromDistinct | backend/RestaurantReservations/hollisticView.js:52-55 | seeding with distinct names adds exactly those names in order, so the `if` guard never fires on the canonical tables |
| Calendar.DayName | backend/RestaurantReservations/hollisticView.js:105-117 | every weekday number 0..6 yields a name of the table, and that name identifies the number |
| Calendar.MonthName | backend/RestaurantReservations/hollisticView.js:119-137 | every month number 0..11 yields a name of the table, and that name identifies the number |
| Aggregation.TablesFor | backend/RestaurantReservations/hollisticView.js:86 | the table count is the ceiling of capacity / 4: four times it seats everyone and wastes fewer than four seats |
| Aggregation.TotalTables | backend/RestaurantReservations/hollisticView.js:85-88 | a bucket's tables seat all its guests, waste at most three seats per reservation, and give each non-empty reservation at least one table |
| Aggregation.TotalTablesAppend | backend/RestaurantReservations/hollisticView.js:85-88 | the table count of a bucket is additive over splitting its reservations |
| Aggregation.DailyKey | backend/RestaurantReservations/hollisticView.js:47 | the daily key arrow: the reservation's UTC calendar date (no contract; its meaning is stated by DailyShape) |
| Aggregation.WeeklyKey | backend/RestaurantReservations/hollisticView.js:59 | the weekly key arrow always yields one of the seven weekday names, so it hits a pre-seeded bucket |
| Aggregation.MonthlyKey | backend/RestaurantReservations/hollisticView.js:72 | the monthly key arrow always yields one of the twelve month names, so it hits a pre-seeded bucket |
| Aggregation.Preseed | backend/RestaurantReservations/hollisticView.js:51-56 | the default object built before grouping (also lines 64-69) holds only empty buckets |
| Aggregation.Summarize | backend/RestaurantReservations/hollisticView.js:82-91 | the `Object.keys(...).map(...)` reduction yields one summary per bucket, with the bucket keys in bucket order |
| Aggregation.Grouping | backend/RestaurantReservations/hollisticView.js:43-79 | the switch yields buckets exactly for `daily`, `weekly` and `monthly`, and fails with `Invalid view type` otherwise |
| Aggregation.AggregateReservations | backend/RestaurantReservations/hollisticView.js:35-92 | aggregation succeeds exactly for the three views; any other view fails with `Invalid view type` and yields no summaries |
| Aggregation.PreseedShape | backend/RestaurantReservations/hollisticView.js:51-56 | pre-seeding with distinct names gives one empty bucket per name, in order |
| Aggregation.SeedForShape | backend/RestaurantReservations/hollisticView.js:50-74 | every view starts from empty buckets under distinct keys |
| Aggregation.GroupingIsPartition | backend/RestaurantReservations/hollisticView.js:44-74 | for every view the buckets partition the input: same multiset of reservations, distinct keys, each bucket exactly the reservations with its key in input order |
| Aggregation.RecordsConserved | backend/RestaurantReservations/hollisticView.js:82-91 | the reservation counts over all summaries add up to the number of input reservations |
| Aggregation.SummaryTotals | backend/RestaurantReservations/hollisticView.js:82-91 | each summary counts the reservations whose key is its key and the tables they need |
| Aggregation.SeededKeys | backend/RestaurantReservations/hollisticView.js:57-61 | when every derived key is a seeded name, grouping adds no key |
| Aggregation.WeeklyShape | backend/RestaurantReservations/hollisticView.js:50-61 | the weekly view yields exactly seven summaries, Sunday to Saturday, for any input |
| Aggregation.MonthlyShape | backend/RestaurantReservations/hollisticView.js:63-74 | the monthly view yields exactly twelve summaries, January to December, for any input |
| Aggregation.WeeklyQuietDay | backend/RestaurantReservations/hollisticView.js:50-61 | a weekday with no reservation keeps its summary in its place with zero reservations and zero tables; for empty input all seven are zero |
| Aggregation.MonthlyQuietMonth | backend/RestaurantReservations/hollisticView.js:63-74 | a month with no reservation keeps its summary in its place with zero reservations and zero tables |
| Aggregation.DailyKeys | backend/RestaurantReservations/hollisticView.js:44-48 | the daily summaries are keyed by the input's dates in first-seen order |
| Aggregation.DailyShape | backend/RestaurantReservations/hollisticView.js:44-48 | the daily keys are exactly the distinct dates of the input, each once, ordered by first occurrence |
| Aggregation.DailyNoEmptyBucket | backend/RestaurantReservations/hollisticView.js:44-48 | no daily summary has zero reservations |
| Aggregation.SameDayGrouping | backend/RestaurantReservations/hollisticView.js:44-48 | two reservations on one date share one daily bucket in input order |
| Aggregation.DailyExample | backend/RestaurantReservations/hollisticView.js:82-91 | capacities 3 and 9 on one date give one summary with 2 reservations and 1 + 3 = 4 tables |
| Aggregation.TablesExample | backend/RestaurantReservations/hollisticView.js:85-88 | capacities 1, 4 and 5 need 1, 1 and 2 tables, 4 in all |
| Handler.Handle | backend/RestaurantReservations/hollisticView.js:11-33 | success exactly when the fetch succeeds and the view is known, with the aggregation's summaries as data, accounting for every reservation; otherwise a failure response carrying the fixed message and the underlying error's message, with no data |

## Left out

- Firebase initialisation and the Firestore query (lines 1-9 and 15-18): external I/O. `Handle` receives the query's outcome as a `Result` parameter.
- The response formatter (`Responses._200` / `_400`): its module is not part of this model. `Response.Ok` and `Response.BadRequest` stand for its two results; status codes, headers and body serialisation are not modelled.
- `console.log`: no observable effect on the result.
- Date conversion (`toMillis`, `new Date`, `toISOString`, `getDay`, `getMonth`): library calls with time-zone semantics. Each reservation carries the derived date key, weekday number and month number instead.
- Missing or non-numeric `required_capacity`: JavaScript would compute `NaN` tables; capacities are natural numbers here.
- JavaScript number arithmetic: the model uses unbounded integers, which agree with double-precision results for any realistic reservation count.
- JavaScript property-order rules for integer-like keys and inherited property names: no derived key (`YYYY-MM-DD`, weekday or month name) is integer-like or an `Object.prototype` name, so plain insertion order, as modelled, is what `Object.keys` gives.
- A request without query parameters (destructuring `undefined` throws): it takes the same failure path as any other thrown error and is not modelled separately.
- Handler.Handle: `fetched` covers the store query and the date conversion of lines 36-39 together; a document without a Timestamp `reservation_date` makes the conversion throw, which reaches `Handle` as a `Failure` carrying that error's message, before the view is examined. The particular TypeError text is not modelled.
- Reservation fields other than the date and capacity: they are copied through by the spread in line 37 but never used by the aggregation.
- Buckets.SeedFrom: its contract does not say that every name ends up as a key for arbitrary, possibly repeated names; `SeedFromDistinct` states the exact keys for distinct names, which is the only way the source calls it.
