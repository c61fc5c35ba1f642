/**
 * The table of daily hour totals behind the burndown chart: one row per
 * day of the sprint, keyed by that day's offset from the sprint start.
 */
module TrackHoursTable {

  /** A point of a chart line: (day of sprint, hours). */
  type Point = (int, int)

  datatype TrackHours = TrackHours(
    dayOfSprint: int,
    totalEstimatedHours: int,
    totalActualHours: int)
  {
    function GetEstPoint(): Point {
      (dayOfSprint, totalEstimatedHours)
    }

    function GetActPoint(): Point {
      (dayOfSprint, totalActualHours)
    }
  }

  /** `day_of_sprint` is the primary key: every row is stored under its
      own day, so no two rows share one. */
  predicate KeyedByDay(rows: map<int, TrackHours>) {
    forall k :: k in rows ==> rows[k].dayOfSprint == k
  }

  /** In a table keyed by day, both points of a stored row sit on the key
      the row is stored under, one carrying its estimated total and the
      other its actual total. */
  lemma PointsOnKey(rows: map<int, TrackHours>, k: int)
    requires KeyedByDay(rows) && k in rows
    ensures rows[k].GetEstPoint() == (k, rows[k].totalEstimatedHours)
    ensures rows[k].GetActPoint() == (k, rows[k].totalActualHours)
  {
  }

  class Table {
    var rows: map<int, TrackHours>

    ghost predicate Valid()
      reads this
    {
      KeyedByDay(rows)
    }

    constructor ()
      ensures Valid() && rows == map[]
    {
      rows := map[];
    }

    /** Store the totals of one day: create the row when the key is new,
        otherwise overwrite the totals of the row already there. */
    method CreateOrUpdate(day: int, est: int, act: int) returns (created: bool)
      requires Valid()
      modifies this
      ensures Valid()
      ensures created <==> day !in old(rows)
      ensures rows == old(rows)[day := TrackHours(day, est, act)]
      ensures rows.Keys == old(rows).Keys + {day}
      ensures |rows| == if created then |old(rows)| + 1 else |old(rows)|
    {
      created := day !in rows;
      if created {
        rows := rows[day := TrackHours(day, est, act)];
      } else {
        var item := rows[day];
        item := item.(totalEstimatedHours := est, totalActualHours := act);
        rows := rows[day := item];
      }
    }
  }
}
