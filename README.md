# Burndown aggregation of the backlog tracker

A Dafny model of the one part of the backlog tracker with logic of its own:
turning the per-story, per-day time records of the current sprint into one
row of daily totals per sprint day, and reading those rows back as the two
lines (estimated hours, actual hours) of the burndown chart.

- `TimeRecords` (`records.dfy`): a time record is `(user story, day,
  estimated hours, actual hours)`; dates are day numbers, so "start date plus
  `d` days" is `start + d`. The `in_sprint` flag of the stories is a map from
  story id to bool. The per-day query (`DayRecords`), the sums over its result
  (`DayTotals`) and the accumulation loop (`AddUpDay`) live here, with the
  `(user_story, day)` uniqueness constraint of the time record table.
  The query hands back its records in an order nothing fixes, so
  `AddUpDay` takes the query result as a parameter and is proved for every
  order (`IsDayQuery`); `UpdateTimeSum` passes it the records in table order.
- `TrackHoursTable` (`track_hours.dfy`): the daily totals table, a class
  whose `rows` map is keyed by `day_of_sprint`, the primary key. Its
  create-or-overwrite step (`CreateOrUpdate`) stands for the source's
  "create, and on an integrity error fetch the row and overwrite its totals".
- `Sprints` (`sprint.dfy`): the sprint (length, start date, developer
  count), its capacity, `UpdateTimeSum` (the day-by-day refresh of the table),
  proved against the function `Refreshed`, and `GetData`, which builds the
  two chart lines.

`UpdateTimeSum` accepts any sprint length, as the source's
`range(sprint_days)` does: a length of zero or less stores nothing. The
permitted lengths 7, 14, 21 and 28 are the predicate `HasChoiceLength`.

Behaviour of the code that is easy to miss, and that the model follows:
- A second time record for the same story and day is refused by the table
  (`CreateTimeRecord` returns `Err(IntegrityError)`). It does not update the
  existing record.
- `get_data` reads the table in whatever order the table returns its rows,
  and it reads every row, including rows left over from an earlier, longer
  sprint. `GetData` takes that order as a parameter and promises no sorting.
  `SeriesOfFreshTable` shows that a freshly filled table, read in ascending
  order, gives point `i` on day `i`.
- The sprint length is a field with four choices, and the forms of the
  sprint create and edit views only accept those four values. The chart path
  itself does no check of its own: it divides by whatever length the stored
  sprint has, so a row written outside those forms is never checked. The
  model proves that every permitted length is positive, and `UpdateTimeSum`
  accepts any length.
- The 35 productive hours per developer is a fixed constant, as in the code.

## Model

| member | source | states |
|---|---|---|
| `TimeRecords.DayRecords` | backlog/models.py:146 | the per-day query, answering in table order; it never returns more records than the table holds (what it selects is stated by `DayRecordsSelectsMatching`) |
| `TimeRecords.DayRecordsSelectsMatching` | backlog/models.py:146 | the per-day query in table order is a valid answer (`IsDayQuery`): every record whose story is in the sprint and whose day is the date, as often as it occurs, and nothing else; a story missing from the flags counts as out of the sprint |
| `TimeRecords.AnyQueryOrder` | backlog/models.py:146-153 | whatever order the per-day query hands back the matching records in, their sum is the day's totals |
| `TimeRecords.AddUpDay` | backlog/models.py:146-153 | the accumulation loop, starting from 0/0 and run over a query result in any order, ends with the estimated and actual sums over exactly the matching records |
| `TimeRecords.SumOfDayRecords` | backlog/models.py:146-153 | summing the hours of what the per-day query selects gives exactly the day totals: the in-sprint records of that date, and no others |
| `TimeRecords.SumHoursConcat` | backlog/models.py:151-153 | summing hours over two parts of a sequence gives the sum of the two partial sums |
| `TimeRecords.SumHoursRemoveAt` | backlog/models.py:151-153 | taking one record out of a sequence takes exactly its estimated and actual hours off the sums |
| `TimeRecords.SumHoursPermutation` | backlog/models.py:151-153 | sums are the same for any rearrangement of the same records, so the unspecified query order does not matter |
| `TimeRecords.DayTotalsConcat` | backlog/models.py:146-153 | the day totals over two parts of the table add up |
| `TimeRecords.DayTotalsOrderIrrelevant` | backlog/models.py:146-153 | the day totals depend only on the multiset of records, not on table order |
| `TimeRecords.DayTotalsOneRecord` | backlog/models.py:146-153 | one record adds its hours to a date's totals if and only if its story is in the sprint and its day is that date; otherwise it adds nothing |
| `TimeRecords.DayTotalsSingle` | backlog/models.py:146-153 | a table of one record totals exactly what that record contributes: its hours on a matching date, (0, 0) otherwise |
| `TimeRecords.DayTotalsPair` | backlog/models.py:146-153 | a table of two records totals the contributions of the two, each counted only if it matches |
| `TimeRecords.DayTotalsNoMatch` | backlog/models.py:148-153 | a date with no matching record has totals (0, 0) |
| `TimeRecords.DayTotalsAfterEdit` | backlog/models.py:146-153 | changing one record's hours moves its own day's totals by the difference and leaves every other date unchanged |
| `TimeRecords.CreateTimeRecord` | backlog/models.py:80-82 | inserting a record fails with an integrity error exactly when the table already holds one for its story and day; on success the record is appended and uniqueness is kept |
| `TimeRecords.DayRecordsFromTable` | backlog/models.py:146 | every record the per-day query returns is a record of the table |
| `TimeRecords.DayRecordsUnique` | backlog/models.py:80-82 | the per-day query of a table with unique (story, day) pairs also has unique pairs |
| `TimeRecords.OneRecordPerStoryAndDay` | backlog/models.py:80-82 | under the uniqueness constraint each in-sprint story adds at most one record to a date's totals |
| `TrackHoursTable.PointsOnKey` | backlog/models.py:98-108 | in a table keyed by day of sprint, `GetEstPoint` and `GetActPoint` of a stored row sit on the key the row is stored under, carrying its estimated and its actual total |
| `TrackHoursTable.Table.CreateOrUpdate` | backlog/models.py:156-164 | the row for the day is created if absent and its totals overwritten if present; no second row for a key; every other row is untouched; the row count grows by one only on a create |
| `Sprints.ProductiveHoursPerDeveloper` | backlog/models.py:130-133 | `Sprint.ProductiveHours`, the capacity, is 35 hours per developer: zero with no developers, 35 more per extra developer, never negative for a non-negative headcount |
| `Sprints.ChoiceLengthIsWholeWeeks` | backlog/models.py:117-125 | a sprint length permitted by `Sprint.HasChoiceLength` is 7 to 28 days in whole weeks, hence positive |
| `Sprints.UpdateTimeSum` | backlog/models.py:136-164 | after the loop the table equals `Refreshed` of the old table; the primary-key invariant holds |
| `Sprints.RefreshUpToRows` | backlog/models.py:142-164 | after storing the offsets 0..n-1, each of them holds its computed row and every other key is as before |
| `Sprints.RefreshedRows` | backlog/models.py:142-164 | after a refresh every offset 0..sprint_days-1 has a row under its own day holding that date's totals; keys outside that range are neither created, changed nor deleted |
| `Sprints.RefreshedEmptyDay` | backlog/models.py:148-149 | a sprint day with no matching record gets a row with totals (0, 0), not a gap |
| `Sprints.RefreshedKeyedByDay` | backlog/models.py:98 | the refresh keeps every row stored under its own day of sprint |
| `Sprints.RefreshedIdempotent` | backlog/models.py:142-164 | refreshing twice on unchanged records gives the same table as refreshing once |
| `Sprints.FreshRefreshSize` | backlog/models.py:142-158 | storing offsets 0..n-1 into an empty table gives exactly n rows |
| `Sprints.RefreshedFromEmpty` | backlog/models.py:142-158 | on an empty table the refresh gives exactly sprint_days rows, keyed 0..sprint_days-1 |
| `Sprints.RowForAfterEdit` | backlog/models.py:144-153 | editing one record's hours leaves the computed row of every other offset unchanged |
| `Sprints.RefreshedAfterEdit` | backlog/models.py:142-164 | refreshing after an edit of one record's hours changes at most the row of that record's day, and none when its story is out of the sprint |
| `Sprints.ListingSize` | backlog/models.py:177 | a duplicate-free listing of the table's keys has exactly as many entries as the table has rows |
| `Sprints.GetData` | backlog/models.py:167-193 | returns two lines, one point per row each, equal in length; point i of both lines is the pair (day, total) of the same row, and every row's day appears |
| `Sprints.SeriesOfFreshTable` | backlog/models.py:177-193 | a freshly refreshed table read in ascending order gives, at index i, points on day i carrying the totals of date start + i |
| `Sprints.TwoDayFirst` | backlog/models.py:146-153 | in the two-day example the first date totals 10 estimated and 8 actual hours |
| `Sprints.TwoDaySecond` | backlog/models.py:146-153 | in the two-day example the second date totals 5 and 5, the first day's record not counting |
| `Sprints.TwoDayExample` | backlog/models.py:142-164 | a two-day sprint with records 10/8 and 5/5 on its two days refreshes an empty table to rows (0, 10, 8) and (1, 5, 5) |
| `Sprints.OutOfSprintExample` | backlog/models.py:146 | a record of a story out of the sprint leaves both rows at (0, 0) |

## Left out

- The chart itself (`backlog/charts.py`): layout, colours, labels, legend and the raster image come from a charting library that is not part of this model. Only the positivity of its divisor, a permitted sprint length, is proved.
- The web layer (`backlog/views.py`, `backlog/urls.py`): generic create, read, update and delete views, routing and the HTTP response. The "current sprint is the first one" lookup is replaced by passing the sprint in.
- `backlog/tests.py` is a script that re-implements the aggregation without the `in_sprint` filter; it is not used as a statement of behaviour.
- `UserStory.relative_priority`: its division gives an integer or a float depending on the language version, and the core does not use it.
- The other fields of stories and records (titles, descriptions, scores, status, owners), `__str__` and `get_absolute_url`.
- Storage errors other than the uniqueness violation, and concurrent refreshes racing on the table.
- Calendar arithmetic: dates are day numbers, and the conversion of a date to text for the query is taken to compare dates exactly.
- Integer overflow: the source's integer fields are unbounded here.
- GetData: the order in which the table returns its rows is a parameter, so the model says nothing about ordering.
