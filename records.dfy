/**
 * Time records of the backlog: one entry of estimated and actual hours
 * against one user story on one calendar day, the per-day query the
 * burndown aggregation runs over them, and the sums it takes.
 */
module TimeRecords {

  /** The primary key of a user story. */
  type StoryId = int

  /** A calendar date, counted in days from a fixed epoch, so that
      "start date plus d days" is plain addition. */
  type Date = int

  datatype TimeRecord = TimeRecord(
    userStory: StoryId,
    day: Date,
    estimatedTime: int,
    actualTime: int)

  /** A pair of hour totals, estimated and actual. */
  datatype Hours = Hours(est: int, act: int) {
    function Plus(other: Hours): Hours {
      Hours(est + other.est, act + other.act)
    }
  }

  const NoHours := Hours(0, 0)

  function HoursOf(r: TimeRecord): Hours {
    Hours(r.estimatedTime, r.actualTime)
  }

  /** The `in_sprint` flag of a story; a record whose story has no entry
      is dropped by the join, exactly as one whose flag is false. */
  predicate InSprint(inSprint: map<StoryId, bool>, story: StoryId) {
    story in inSprint && inSprint[story]
  }

  /** The filter `user_story__in_sprint=True, day=date`. */
  predicate Matches(r: TimeRecord, inSprint: map<StoryId, bool>, date: Date) {
    InSprint(inSprint, r.userStory) && r.day == date
  }

  /** Hours one record adds to the totals of `date`: its own when it
      matches, none otherwise. */
  function Contribution(r: TimeRecord, inSprint: map<StoryId, bool>, date: Date): Hours {
    if Matches(r, inSprint, date) then HoursOf(r) else NoHours
  }

  /** The totals the aggregation must store for one calendar date: the
      estimated and the actual hours of every record of the table whose
      story is in the sprint and whose day is that date. */
  function DayTotals(records: seq<TimeRecord>, inSprint: map<StoryId, bool>, date: Date): Hours {
    if records == [] then NoHours
    else
      var n := |records| - 1;
      DayTotals(records[..n], inSprint, date).Plus(Contribution(records[n], inSprint, date))
  }

  /** The records the per-day query selects, in table order. The table
      hands them back in an order nothing fixes; SumHoursPermutation shows
      that the sum does not depend on it. */
  function DayRecords(records: seq<TimeRecord>, inSprint: map<StoryId, bool>, date: Date)
    : (sel: seq<TimeRecord>)
    ensures |sel| <= |records|
  {
    if records == [] then []
    else
      var n := |records| - 1;
      DayRecords(records[..n], inSprint, date)
        + (if Matches(records[n], inSprint, date) then [records[n]] else [])
  }

  /** `query` is what the per-day query may hand back: the matching
      records of the table, each as often as it occurs there, in any
      order. */
  ghost predicate IsDayQuery(query: seq<TimeRecord>, records: seq<TimeRecord>, inSprint: map<StoryId, bool>, date: Date) {
    forall r :: multiset(query)[r] == if Matches(r, inSprint, date) then multiset(records)[r] else 0
  }

  /** The query selects exactly the matching records, each as often as it
      occurs in the table: the records in table order are one of the
      answers the query may give. */
  lemma {:induction false} DayRecordsSelectsMatching(records: seq<TimeRecord>, inSprint: map<StoryId, bool>, date: Date)
    ensures IsDayQuery(DayRecords(records, inSprint, date), records, inSprint, date)
  {
    if records != [] {
      var n := |records| - 1;
      assert records == records[..n] + [records[n]];
      DayRecordsSelectsMatching(records[..n], inSprint, date);
    }
  }

  /** Sum of estimated and of actual hours over a sequence of records. */
  function SumHours(rs: seq<TimeRecord>): Hours {
    if rs == [] then NoHours
    else SumHours(rs[..|rs| - 1]).Plus(HoursOf(rs[|rs| - 1]))
  }

  lemma {:induction false} SumHoursConcat(a: seq<TimeRecord>, b: seq<TimeRecord>)
    ensures SumHours(a + b) == SumHours(a).Plus(SumHours(b))
  {
    if b != [] {
      var n := |b| - 1;
      assert (a + b)[..|a + b| - 1] == a + b[..n];
      SumHoursConcat(a, b[..n]);
    } else {
      assert a + b == a;
    }
  }

  /** Adding up what the query returns gives the day's totals. */
  lemma {:induction false} SumOfDayRecords(records: seq<TimeRecord>, inSprint: map<StoryId, bool>, date: Date)
    ensures SumHours(DayRecords(records, inSprint, date)) == DayTotals(records, inSprint, date)
  {
    if records != [] {
      var n := |records| - 1;
      var last := records[n];
      var tail := if Matches(last, inSprint, date) then [last] else [];
      SumOfDayRecords(records[..n], inSprint, date);
      SumHoursConcat(DayRecords(records[..n], inSprint, date), tail);
      if Matches(last, inSprint, date) {
        assert tail[..0] == [];
      }
    }
  }

  /** Whatever order the query returns its records in, adding them up
      gives the day's totals. */
  lemma AnyQueryOrder(query: seq<TimeRecord>, records: seq<TimeRecord>, inSprint: map<StoryId, bool>, date: Date)
    requires IsDayQuery(query, records, inSprint, date)
    ensures SumHours(query) == DayTotals(records, inSprint, date)
  {
    var sel := DayRecords(records, inSprint, date);
    DayRecordsSelectsMatching(records, inSprint, date);
    assert multiset(query) == multiset(sel) by {
      forall r ensures multiset(query)[r] == multiset(sel)[r] { }
    }
    SumHoursPermutation(query, sel);
    SumOfDayRecords(records, inSprint, date);
  }

  /** The accumulation loop of the aggregation for one date: add up
      `estimated_time` and `actual_time` over what the per-day query
      returned, in the order it returned them, starting from zero. */
  method AddUpDay(records: seq<TimeRecord>, inSprint: map<StoryId, bool>, date: Date, dayRecords: seq<TimeRecord>)
    returns (totEst: int, totAct: int)
    requires IsDayQuery(dayRecords, records, inSprint, date)
    ensures Hours(totEst, totAct) == DayTotals(records, inSprint, date)
  {
    totEst, totAct := 0, 0;
    var i := 0;
    while i < |dayRecords|
      invariant 0 <= i <= |dayRecords|
      invariant Hours(totEst, totAct) == SumHours(dayRecords[..i])
    {
      var record := dayRecords[i];
      assert dayRecords[..i + 1][..i] == dayRecords[..i];
      totEst := totEst + record.estimatedTime;
      totAct := totAct + record.actualTime;
      i := i + 1;
    }
    assert dayRecords[..i] == dayRecords;
    AnyQueryOrder(dayRecords, records, inSprint, date);
  }

  /** Removing one record from a sequence takes exactly its hours off the
      sum. */
  lemma {:induction false} SumHoursRemoveAt(b: seq<TimeRecord>, j: nat)
    requires j < |b|
    ensures SumHours(b) == SumHours(b[..j] + b[j + 1..]).Plus(HoursOf(b[j]))
  {
    var n := |b| - 1;
    var rest := b[..j] + b[j + 1..];
    if j == n {
      assert rest == b[..n];
    } else {
      var pre := b[..n];
      SumHoursRemoveAt(pre, j);
      assert rest[..|rest| - 1] == pre[..j] + pre[j + 1..];
      assert rest[|rest| - 1] == b[n];
      var s := SumHours(pre[..j] + pre[j + 1..]);
      assert SumHours(rest) == s.Plus(HoursOf(b[n]));
      assert SumHours(b) == s.Plus(HoursOf(b[j])).Plus(HoursOf(b[n]));
    }
  }

  /** The order in which the query returns its rows does not change the
      totals: any rearrangement of the same records sums the same. */
  lemma {:induction false} SumHoursPermutation(a: seq<TimeRecord>, b: seq<TimeRecord>)
    requires multiset(a) == multiset(b)
    ensures SumHours(a) == SumHours(b)
    decreases |a|
  {
    if a != [] {
      var n := |a| - 1;
      var x := a[n];
      assert a == a[..n] + [x];
      assert x in multiset(b);
      var j :| 0 <= j < |b| && b[j] == x;
      var rest := b[..j] + b[j + 1..];
      assert b == b[..j] + [x] + b[j + 1..];
      assert multiset(rest) == multiset(b) - multiset{x};
      assert multiset(a[..n]) == multiset(a) - multiset{x};
      SumHoursPermutation(a[..n], rest);
      SumHoursRemoveAt(b, j);
    } else {
      assert |multiset(b)| == 0;
    }
  }

  /** `Hours(0, 0)` is the unit of the sum. */
  lemma PlusNoHours(h: Hours)
    ensures NoHours.Plus(h) == h
  {
  }

  /** A one-record table contributes that record's hours, if it matches. */
  lemma DayTotalsSingle(r: TimeRecord, inSprint: map<StoryId, bool>, date: Date)
    ensures DayTotals([r], inSprint, date) == Contribution(r, inSprint, date)
  {
    assert [r][..0] == [];
    PlusNoHours(Contribution(r, inSprint, date));
  }

  /** Totals over two parts of the table add up. */
  lemma {:induction false} DayTotalsConcat(a: seq<TimeRecord>, b: seq<TimeRecord>, inSprint: map<StoryId, bool>, date: Date)
    ensures DayTotals(a + b, inSprint, date) == DayTotals(a, inSprint, date).Plus(DayTotals(b, inSprint, date))
  {
    if b != [] {
      var n := |b| - 1;
      assert (a + b)[..|a + b| - 1] == a + b[..n];
      assert (a + b)[|a + b| - 1] == b[n];
      DayTotalsConcat(a, b[..n], inSprint, date);
    } else {
      assert a + b == a;
    }
  }

  /** A two-record table contributes the hours of each record that
      matches. */
  lemma DayTotalsPair(a: TimeRecord, b: TimeRecord, inSprint: map<StoryId, bool>, date: Date)
    ensures DayTotals([a, b], inSprint, date) == Contribution(a, inSprint, date).Plus(Contribution(b, inSprint, date))
  {
    assert [a, b] == [a] + [b];
    DayTotalsConcat([a], [b], inSprint, date);
    DayTotalsSingle(a, inSprint, date);
    DayTotalsSingle(b, inSprint, date);
  }

  /** The totals of a date depend only on the multiset of records, not on
      their order in the table. */
  lemma DayTotalsOrderIrrelevant(a: seq<TimeRecord>, b: seq<TimeRecord>, inSprint: map<StoryId, bool>, date: Date)
    requires multiset(a) == multiset(b)
    ensures DayTotals(a, inSprint, date) == DayTotals(b, inSprint, date)
  {
    var sa, sb := DayRecords(a, inSprint, date), DayRecords(b, inSprint, date);
    DayRecordsSelectsMatching(a, inSprint, date);
    DayRecordsSelectsMatching(b, inSprint, date);
    assert multiset(sa) == multiset(sb) by {
      forall r ensures multiset(sa)[r] == multiset(sb)[r] { }
    }
    SumHoursPermutation(sa, sb);
    SumOfDayRecords(a, inSprint, date);
    SumOfDayRecords(b, inSprint, date);
  }

  /** Adding a record at the end of the table adds its contribution. */
  lemma DayTotalsSnoc(a: seq<TimeRecord>, r: TimeRecord, inSprint: map<StoryId, bool>, date: Date)
    ensures DayTotals(a + [r], inSprint, date) == DayTotals(a, inSprint, date).Plus(Contribution(r, inSprint, date))
  {
    assert (a + [r])[..|a|] == a;
  }

  /** The order in which hours are added does not matter. */
  lemma PlusShuffle(x: Hours, c: Hours, y: Hours)
    ensures x.Plus(c).Plus(y) == x.Plus(y).Plus(c)
  {
  }

  /** One record contributes its hours to a date's totals exactly when its
      story is in the sprint and its day is that date; otherwise (a story
      out of the sprint, another day) it contributes nothing. */
  lemma DayTotalsOneRecord(a: seq<TimeRecord>, r: TimeRecord, b: seq<TimeRecord>, inSprint: map<StoryId, bool>, date: Date)
    ensures DayTotals(a + [r] + b, inSprint, date)
         == if Matches(r, inSprint, date) then DayTotals(a + b, inSprint, date).Plus(HoursOf(r))
            else DayTotals(a + b, inSprint, date)
  {
    var ar := a + [r];
    DayTotalsConcat(ar, b, inSprint, date);
    DayTotalsConcat(a, b, inSprint, date);
    DayTotalsSnoc(a, r, inSprint, date);
    PlusShuffle(DayTotals(a, inSprint, date), Contribution(r, inSprint, date), DayTotals(b, inSprint, date));
  }

  /** A date none of whose records match gets totals (0, 0). */
  lemma {:induction false} DayTotalsNoMatch(records: seq<TimeRecord>, inSprint: map<StoryId, bool>, date: Date)
    requires forall r :: r in records ==> !Matches(r, inSprint, date)
    ensures DayTotals(records, inSprint, date) == NoHours
  {
    if records != [] {
      var n := |records| - 1;
      DayTotalsNoMatch(records[..n], inSprint, date);
    }
  }

  /** Editing the hours of one record (its story and day unchanged) moves
      the totals of that record's day by the difference and leaves every
      other date's totals as they were. */
  lemma DayTotalsAfterEdit(records: seq<TimeRecord>, i: nat, est: int, act: int, inSprint: map<StoryId, bool>, date: Date)
    requires i < |records|
    ensures var before := records[i];
            var edited := records[i := before.(estimatedTime := est, actualTime := act)];
            if Matches(before, inSprint, date) then
              DayTotals(edited, inSprint, date).Plus(HoursOf(before))
                == DayTotals(records, inSprint, date).Plus(Hours(est, act))
            else DayTotals(edited, inSprint, date) == DayTotals(records, inSprint, date)
  {
    var before := records[i];
    var after := before.(estimatedTime := est, actualTime := act);
    var edited := records[i := after];
    assert records == records[..i] + [before] + records[i + 1..];
    assert edited == records[..i] + [after] + records[i + 1..];
    DayTotalsOneRecord(records[..i], before, records[i + 1..], inSprint, date);
    DayTotalsOneRecord(records[..i], after, records[i + 1..], inSprint, date);
  }

  // ---------------------------------------------------------------------
  // The (user_story, day) uniqueness constraint of the time record table

  datatype Error = IntegrityError

  datatype Result<T> = Ok(value: T) | Err(error: Error)

  predicate SameKey(a: TimeRecord, b: TimeRecord) {
    a.userStory == b.userStory && a.day == b.day
  }

  /** At most one record per (user story, day). */
  predicate UniqueStoryDay(records: seq<TimeRecord>) {
    forall i, j :: 0 <= i < j < |records| ==> !SameKey(records[i], records[j])
  }

  /** Inserting a record: the table refuses a second record for a
      (user story, day) pair it already holds. */
  function CreateTimeRecord(records: seq<TimeRecord>, r: TimeRecord): (res: Result<seq<TimeRecord>>)
    ensures res.Ok? <==> forall k :: 0 <= k < |records| ==> !SameKey(records[k], r)
    ensures res.Ok? ==> res.value == records + [r]
    ensures UniqueStoryDay(records) && res.Ok? ==> UniqueStoryDay(res.value)
  {
    if exists k :: 0 <= k < |records| && SameKey(records[k], r) then Err(IntegrityError)
    else Ok(records + [r])
  }

  /** Every record the query selects comes from the table. */
  lemma {:induction false} DayRecordsFromTable(records: seq<TimeRecord>, inSprint: map<StoryId, bool>, date: Date)
    ensures forall r :: r in DayRecords(records, inSprint, date) ==> r in records
  {
    if records != [] {
      var n := |records| - 1;
      DayRecordsFromTable(records[..n], inSprint, date);
      assert forall r :: r in records[..n] ==> r in records;
    }
  }

  lemma {:induction false} DayRecordsUnique(records: seq<TimeRecord>, inSprint: map<StoryId, bool>, date: Date)
    requires UniqueStoryDay(records)
    ensures UniqueStoryDay(DayRecords(records, inSprint, date))
  {
    if records != [] {
      var n := |records| - 1;
      var pre := DayRecords(records[..n], inSprint, date);
      DayRecordsUnique(records[..n], inSprint, date);
      DayRecordsFromTable(records[..n], inSprint, date);
      if Matches(records[n], inSprint, date) {
        forall k | 0 <= k < |pre| ensures !SameKey(pre[k], records[n]) {
          assert pre[k] in pre;
          var j :| 0 <= j < n && records[..n][j] == pre[k];
          assert records[j] == pre[k];
        }
      }
    }
  }

  /** Under the uniqueness constraint, each in-sprint story contributes
      at most one record to the totals of a date. */
  lemma OneRecordPerStoryAndDay(records: seq<TimeRecord>, inSprint: map<StoryId, bool>, date: Date)
    requires UniqueStoryDay(records)
    ensures var sel := DayRecords(records, inSprint, date);
            forall i, j :: 0 <= i < j < |sel| ==> sel[i].userStory != sel[j].userStory
  {
    var sel := DayRecords(records, inSprint, date);
    DayRecordsUnique(records, inSprint, date);
    DayRecordsSelectsMatching(records, inSprint, date);
    forall i, j | 0 <= i < j < |sel| ensures sel[i].userStory != sel[j].userStory {
      assert sel[i] in multiset(sel) && sel[j] in multiset(sel);
      assert sel[i].day == date == sel[j].day;
    }
  }
}
