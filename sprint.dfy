/**
 * The sprint: its length and start, the team's capacity, the refresh of
 * the daily totals table from the time records, and the two chart lines
 * read back from that table.
 */
module Sprints {
  import opened TimeRecords
  import opened TrackHoursTable

  /** The lengths a sprint may be given: one to four weeks. */
  const SprintDayChoices: set<int> := {7, 14, 21, 28}

  /** Productive hours one developer contributes to a sprint. */
  const HoursPerDeveloper := 35

  datatype Sprint = Sprint(sprintDays: int, startDate: Date, numDev: int) {
    predicate HasChoiceLength() {
      sprintDays in SprintDayChoices
    }

    function ProductiveHours(): int {
      numDev * HoursPerDeveloper
    }
  }

  /** The team's capacity grows by a fixed 35 hours per developer. */
  lemma ProductiveHoursPerDeveloper(s: Sprint)
    ensures s.(numDev := 0).ProductiveHours() == 0
    ensures s.(numDev := s.numDev + 1).ProductiveHours() == s.ProductiveHours() + 35
    ensures s.numDev >= 0 ==> s.ProductiveHours() >= 0
  {
  }

  /** A sprint whose length is one of the choices is a whole number of
      weeks, at least one, so the chart's hours-per-day step never divides
      by zero. */
  lemma ChoiceLengthIsWholeWeeks(s: Sprint)
    requires s.HasChoiceLength()
    ensures 7 <= s.sprintDays <= 28 && s.sprintDays % 7 == 0
  {
  }

  /** The row the refresh computes for offset `d`: the totals of the
      calendar date `startDate + d`, stored under `d`. */
  function RowFor(s: Sprint, records: seq<TimeRecord>, inSprint: map<StoryId, bool>, d: int): TrackHours {
    var h := DayTotals(records, inSprint, s.startDate + d);
    TrackHours(d, h.est, h.act)
  }

  /** The table once the rows of offsets 0 .. n-1 have been stored on top
      of `rows`, one after the other. */
  function RefreshUpTo(rows: map<int, TrackHours>, s: Sprint, records: seq<TimeRecord>,
                       inSprint: map<StoryId, bool>, n: int): map<int, TrackHours>
    decreases n
  {
    if n <= 0 then rows
    else RefreshUpTo(rows, s, records, inSprint, n - 1)[n - 1 := RowFor(s, records, inSprint, n - 1)]
  }

  /** The table after a full refresh for sprint `s`. */
  function Refreshed(rows: map<int, TrackHours>, s: Sprint, records: seq<TimeRecord>,
                     inSprint: map<StoryId, bool>): map<int, TrackHours>
  {
    RefreshUpTo(rows, s, records, inSprint, s.sprintDays)
  }

  /** Totals that agree with the day's totals make up the row the refresh
      must store for that offset. */
  lemma StepRow(s: Sprint, records: seq<TimeRecord>, inSprint: map<StoryId, bool>, day: int, est: int, act: int)
    requires Hours(est, act) == DayTotals(records, inSprint, s.startDate + day)
    ensures RowFor(s, records, inSprint, day) == TrackHours(day, est, act)
  {
  }

  /** Recompute the daily totals of sprint `s` from the time records and
      store them, day by day, in the table: create the row of a day that
      has none, overwrite the totals of one that has. */
  method UpdateTimeSum(s: Sprint, records: seq<TimeRecord>, inSprint: map<StoryId, bool>, table: Table)
    requires table.Valid()
    modifies table
    ensures table.Valid()
    ensures table.rows == Refreshed(old(table.rows), s, records, inSprint)
  {
    var day := 0;
    while day < s.sprintDays
      invariant 0 <= day && (day == 0 || day <= s.sprintDays)
      invariant table.Valid()
      invariant table.rows == RefreshUpTo(old(table.rows), s, records, inSprint, day)
    {
      var date := s.startDate + day;
      var dayRecords := DayRecords(records, inSprint, date);
      DayRecordsSelectsMatching(records, inSprint, date);
      var totEst, totAct := AddUpDay(records, inSprint, date, dayRecords);
      StepRow(s, records, inSprint, day, totEst, totAct);
      var _ := table.CreateOrUpdate(day, totEst, totAct);
      day := day + 1;
    }
  }

  // ---------------------------------------------------------------------
  // What a refresh guarantees

  /** Storing the offsets 0 .. n-1 gives every one of them its computed
      row and leaves every other key as it was. */
  lemma {:induction false} RefreshUpToRows(rows: map<int, TrackHours>, s: Sprint, records: seq<TimeRecord>,
                                           inSprint: map<StoryId, bool>, n: int)
    ensures var r := RefreshUpTo(rows, s, records, inSprint, n);
            forall k :: && (k in r <==> k in rows || 0 <= k < n)
                        && (k in r ==> r[k] == if 0 <= k < n then RowFor(s, records, inSprint, k) else rows[k])
    decreases n
  {
    if n > 0 {
      RefreshUpToRows(rows, s, records, inSprint, n - 1);
    }
  }

  /** Every offset 0 .. sprintDays-1 has a row afterwards, stored under
      that offset and holding the sums of estimated and actual hours over
      the in-sprint records of the date `startDate + d`; every other key is
      left exactly as it was (neither created, nor changed, nor deleted). */
  lemma RefreshedRows(rows: map<int, TrackHours>, s: Sprint, records: seq<TimeRecord>, inSprint: map<StoryId, bool>)
    ensures var r := Refreshed(rows, s, records, inSprint);
            && (forall d :: 0 <= d < s.sprintDays ==>
                  && d in r
                  && r[d].dayOfSprint == d
                  && Hours(r[d].totalEstimatedHours, r[d].totalActualHours) == DayTotals(records, inSprint, s.startDate + d))
            && (forall k :: !(0 <= k < s.sprintDays) ==> (k in r <==> k in rows) && (k in rows ==> r[k] == rows[k]))
  {
    RefreshUpToRows(rows, s, records, inSprint, s.sprintDays);
  }

  /** A day with no matching record still gets a row, with totals (0, 0). */
  lemma RefreshedEmptyDay(rows: map<int, TrackHours>, s: Sprint, records: seq<TimeRecord>,
                          inSprint: map<StoryId, bool>, d: int)
    requires 0 <= d < s.sprintDays
    requires forall r :: r in records ==> !Matches(r, inSprint, s.startDate + d)
    ensures var r := Refreshed(rows, s, records, inSprint);
            d in r && r[d] == TrackHours(d, 0, 0)
  {
    DayTotalsNoMatch(records, inSprint, s.startDate + d);
    RefreshedRows(rows, s, records, inSprint);
  }

  /** The refresh keeps the primary-key invariant of the table. */
  lemma RefreshedKeyedByDay(rows: map<int, TrackHours>, s: Sprint, records: seq<TimeRecord>, inSprint: map<StoryId, bool>)
    requires KeyedByDay(rows)
    ensures KeyedByDay(Refreshed(rows, s, records, inSprint))
  {
    RefreshUpToRows(rows, s, records, inSprint, s.sprintDays);
  }

  /** Refreshing twice on unchanged records leaves the table as refreshing
      once does. */
  lemma RefreshedIdempotent(rows: map<int, TrackHours>, s: Sprint, records: seq<TimeRecord>, inSprint: map<StoryId, bool>)
    ensures var once := Refreshed(rows, s, records, inSprint);
            Refreshed(once, s, records, inSprint) == once
  {
    var once := Refreshed(rows, s, records, inSprint);
    var twice := Refreshed(once, s, records, inSprint);
    RefreshUpToRows(rows, s, records, inSprint, s.sprintDays);
    RefreshUpToRows(once, s, records, inSprint, s.sprintDays);
    forall k ensures (k in twice <==> k in once) && (k in twice ==> twice[k] == once[k]) {
    }
    assert twice.Keys == once.Keys;
  }

  lemma {:induction false} FreshRefreshSize(s: Sprint, records: seq<TimeRecord>, inSprint: map<StoryId, bool>, n: nat)
    ensures |RefreshUpTo(map[], s, records, inSprint, n)| == n
  {
    if n > 0 {
      FreshRefreshSize(s, records, inSprint, n - 1);
      RefreshUpToRows(map[], s, records, inSprint, n - 1);
    }
  }

  /** On a table with no leftover rows (a first refresh, say), the
      refreshed table has exactly `sprintDays` rows, keyed 0 .. sprintDays-1. */
  lemma RefreshedFromEmpty(s: Sprint, records: seq<TimeRecord>, inSprint: map<StoryId, bool>)
    requires s.sprintDays >= 0
    ensures var r := Refreshed(map[], s, records, inSprint);
            && |r| == s.sprintDays
            && forall k :: k in r <==> 0 <= k < s.sprintDays
  {
    FreshRefreshSize(s, records, inSprint, s.sprintDays);
    RefreshUpToRows(map[], s, records, inSprint, s.sprintDays);
  }

  lemma RowForAfterEdit(s: Sprint, records: seq<TimeRecord>, inSprint: map<StoryId, bool>,
                        i: nat, est: int, act: int, k: int)
    requires i < |records|
    requires k != records[i].day - s.startDate || !InSprint(inSprint, records[i].userStory)
    ensures RowFor(s, records[i := records[i].(estimatedTime := est, actualTime := act)], inSprint, k)
         == RowFor(s, records, inSprint, k)
  {
    DayTotalsAfterEdit(records, i, est, act, inSprint, s.startDate + k);
  }

  /** Editing the hours of one time record and refreshing again changes at
      most the row of that record's day (and only when its story is in the
      sprint): every other row is the same as before. */
  lemma RefreshedAfterEdit(rows: map<int, TrackHours>, s: Sprint, records: seq<TimeRecord>,
                           inSprint: map<StoryId, bool>, i: nat, est: int, act: int)
    requires i < |records|
    ensures var edited := records[i := records[i].(estimatedTime := est, actualTime := act)];
            var before := Refreshed(rows, s, records, inSprint);
            var after := Refreshed(rows, s, edited, inSprint);
            && after.Keys == before.Keys
            && forall k :: k in before && (k != records[i].day - s.startDate || !InSprint(inSprint, records[i].userStory))
                 ==> after[k] == before[k]
  {
    var edited := records[i := records[i].(estimatedTime := est, actualTime := act)];
    var before := Refreshed(rows, s, records, inSprint);
    var after := Refreshed(rows, s, edited, inSprint);
    RefreshUpToRows(rows, s, records, inSprint, s.sprintDays);
    RefreshUpToRows(rows, s, edited, inSprint, s.sprintDays);
    forall k ensures k in after <==> k in before {
    }
    assert after.Keys == before.Keys;
    var day := records[i].day - s.startDate;
    var counted := InSprint(inSprint, records[i].userStory);
    forall k | k in before && (k != day || !counted)
      ensures after[k] == before[k]
    {
      if 0 <= k < s.sprintDays {
        RowForAfterEdit(s, records, inSprint, i, est, act, k);
      }
    }
  }

  // ---------------------------------------------------------------------
  // The two chart lines

  /** `order` lists every key of `rows` exactly once: the order in which the
      table hands back its rows, which nothing fixes. */
  predicate ListsKeys(order: seq<int>, rows: map<int, TrackHours>) {
    && (forall i, j :: 0 <= i < j < |order| ==> order[i] != order[j])
    && (forall i :: 0 <= i < |order| ==> order[i] in rows)
    && (forall k :: k in rows ==> k in order)
  }

  lemma {:induction false} ListingSize(order: seq<int>, keys: set<int>)
    requires forall i, j :: 0 <= i < j < |order| ==> order[i] != order[j]
    requires forall k :: k in keys <==> k in order
    ensures |order| == |keys|
  {
    if order != [] {
      var n := |order| - 1;
      var last := order[n];
      assert forall k :: k in keys - {last} <==> k in order[..n];
      ListingSize(order[..n], keys - {last});
    } else {
      assert forall k :: k !in keys;
    }
  }

  /** Read every row of the table in the order it comes back and build the
      estimated line and the actual line, point by point. */
  method GetData(table: Table, order: seq<int>) returns (data: seq<seq<Point>>)
    requires table.Valid()
    requires ListsKeys(order, table.rows)
    ensures |data| == 2
    ensures |data[0]| == |data[1]| == |order| == |table.rows|
    ensures forall i :: 0 <= i < |order| ==>
              && data[0][i] == (order[i], table.rows[order[i]].totalEstimatedHours)
              && data[1][i] == (order[i], table.rows[order[i]].totalActualHours)
    ensures forall k :: k in table.rows <==> exists i :: 0 <= i < |data[0]| && data[0][i].0 == k
  {
    var lineEst: seq<Point> := [];
    var lineAct: seq<Point> := [];
    var i := 0;
    while i < |order|
      invariant 0 <= i <= |order|
      invariant |lineEst| == |lineAct| == i
      invariant forall j :: 0 <= j < i ==>
                  && lineEst[j] == table.rows[order[j]].GetEstPoint()
                  && lineAct[j] == table.rows[order[j]].GetActPoint()
    {
      var points := table.rows[order[i]];
      lineEst := lineEst + [points.GetEstPoint()];
      lineAct := lineAct + [points.GetActPoint()];
      i := i + 1;
    }
    ListingSize(order, table.rows.Keys);
    data := [lineEst, lineAct];
    forall k | k in table.rows
      ensures exists j :: 0 <= j < |data[0]| && data[0][j].0 == k
    {
      var j :| 0 <= j < |order| && order[j] == k;
      assert data[0][j].0 == k;
    }
  }

  /** The days 0 .. n-1 in ascending order. */
  function AscendingDays(n: nat): (days: seq<int>)
    ensures |days| == n && forall i :: 0 <= i < n ==> days[i] == i
  {
    seq(n, i => i)
  }

  /** Read back in ascending order, a table refreshed from empty lists
      its keys as 0 .. sprintDays-1, and point i of both lines sits on day
      i and carries the estimated and the actual totals of the date
      `startDate + i`. */
  lemma SeriesOfFreshTable(s: Sprint, records: seq<TimeRecord>, inSprint: map<StoryId, bool>)
    requires s.sprintDays >= 0
    ensures var r := Refreshed(map[], s, records, inSprint);
            && KeyedByDay(r)
            && ListsKeys(AscendingDays(s.sprintDays), r)
            && forall i :: 0 <= i < s.sprintDays ==>
                 && i in r
                 && r[i].GetEstPoint() == (i, DayTotals(records, inSprint, s.startDate + i).est)
                 && r[i].GetActPoint() == (i, DayTotals(records, inSprint, s.startDate + i).act)
  {
    var r := Refreshed(map[], s, records, inSprint);
    var days := AscendingDays(s.sprintDays);
    RefreshedFromEmpty(s, records, inSprint);
    RefreshedRows(map[], s, records, inSprint);
    RefreshedKeyedByDay(map[], s, records, inSprint);
    forall k | k in r ensures k in days {
      assert days[k] == k;
    }
  }

  // ---------------------------------------------------------------------
  // Worked examples

  /** The records of the two-day example. */
  function TwoDayRecords(d0: Date): seq<TimeRecord> {
    [TimeRecord(1, d0, 10, 8), TimeRecord(1, d0 + 1, 5, 5)]
  }

  /** The first date counts only the first record. */
  lemma TwoDayFirst(d0: Date)
    ensures DayTotals(TwoDayRecords(d0), map[1 := true], d0) == Hours(10, 8)
  {
    var inSprint := map[1 := true];
    var first, second := TimeRecord(1, d0, 10, 8), TimeRecord(1, d0 + 1, 5, 5);
    assert Matches(first, inSprint, d0) && !Matches(second, inSprint, d0);
    DayTotalsPair(first, second, inSprint, d0);
  }

  /** The second date counts only the second record. */
  lemma TwoDaySecond(d0: Date)
    ensures DayTotals(TwoDayRecords(d0), map[1 := true], d0 + 1) == Hours(5, 5)
  {
    var inSprint := map[1 := true];
    var first, second := TimeRecord(1, d0, 10, 8), TimeRecord(1, d0 + 1, 5, 5);
    var d1 := d0 + 1;
    DayTotalsPair(first, second, inSprint, d1);
    assert !Matches(first, inSprint, d1) && Matches(second, inSprint, d1);
    assert Contribution(first, inSprint, d1).Plus(Contribution(second, inSprint, d1)) == Hours(5, 5);
  }

  /** A two-day sprint, one in-sprint story with 10/8 hours on the first
      day and 5/5 on the second. */
  lemma TwoDayExample(d0: Date)
    ensures Refreshed(map[], Sprint(2, d0, 2), TwoDayRecords(d0), map[1 := true])
         == map[0 := TrackHours(0, 10, 8), 1 := TrackHours(1, 5, 5)]
  {
    var s := Sprint(2, d0, 2);
    var records := TwoDayRecords(d0);
    var inSprint := map[1 := true];
    TwoDayFirst(d0);
    TwoDaySecond(d0);
    assert RowFor(s, records, inSprint, 0) == TrackHours(0, 10, 8);
    assert RowFor(s, records, inSprint, 1) == TrackHours(1, 5, 5);
    assert RefreshUpTo(map[], s, records, inSprint, 2)
        == map[][0 := RowFor(s, records, inSprint, 0)][1 := RowFor(s, records, inSprint, 1)];
  }

  /** A record of a story out of the sprint adds nothing to any row. */
  lemma OutOfSprintExample(d0: Date)
    ensures Refreshed(map[], Sprint(2, d0, 1), [TimeRecord(7, d0, 10, 8)], map[7 := false])
         == map[0 := TrackHours(0, 0, 0), 1 := TrackHours(1, 0, 0)]
  {
    var s := Sprint(2, d0, 1);
    var records := [TimeRecord(7, d0, 10, 8)];
    var inSprint := map[7 := false];
    DayTotalsNoMatch(records, inSprint, d0);
    DayTotalsNoMatch(records, inSprint, d0 + 1);
    assert RefreshUpTo(map[], s, records, inSprint, 2)
        == map[][0 := RowFor(s, records, inSprint, 0)][1 := RowFor(s, records, inSprint, 1)];
  }
}
