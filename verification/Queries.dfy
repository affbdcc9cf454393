/** The reading side of one measurement table: range, latest, and deletion of old rows. */
module Queries {
  import opened Common
  import opened Tables

  /** WHERE device_id = ? AND timestamp BETWEEN ? AND ? */
  function Select(rows: seq<Measurement>, id: nat, start: int, end: int): seq<Measurement> {
    if rows == [] then []
    else
      var m := rows[|rows| - 1];
      Select(rows[..|rows| - 1], id, start, end) + if m.deviceId == id && start <= m.timestamp <= end then [m] else []
  }

  ghost predicate Sorted(rows: seq<Measurement>) {
    forall i, j :: 0 <= i < j < |rows| ==> rows[i].timestamp <= rows[j].timestamp
  }

  function InsertByTime(rows: seq<Measurement>, m: Measurement): (r: seq<Measurement>)
    ensures |r| == |rows| + 1
  {
    if rows == [] || rows[|rows| - 1].timestamp <= m.timestamp then rows + [m]
    else InsertByTime(rows[..|rows| - 1], m) + [rows[|rows| - 1]]
  }

  /** ORDER BY timestamp ASC, with rows of equal time in key order. */
  function SortByTime(rows: seq<Measurement>): seq<Measurement> {
    if rows == [] then [] else InsertByTime(SortByTime(rows[..|rows| - 1]), rows[|rows| - 1])
  }

  function Range(rows: seq<Measurement>, id: nat, start: int, end: int): seq<Measurement> {
    SortByTime(Select(rows, id, start, end))
  }

  /** WHERE device_id = ? ORDER BY timestamp DESC, primary key LIMIT 1 */
  function Latest(rows: seq<Measurement>, id: nat): Option<Measurement> {
    if rows == [] then None
    else
      var before := Latest(rows[..|rows| - 1], id);
      var m := rows[|rows| - 1];
      if m.deviceId == id && (before.None? || m.timestamp > before.value.timestamp) then Some(m) else before
  }

  /** DELETE WHERE timestamp < cutoff: what stays. */
  function Keep(rows: seq<Measurement>, cutoff: int): (r: seq<Measurement>)
    ensures |r| <= |rows|
  {
    if rows == [] then []
    else Keep(rows[..|rows| - 1], cutoff) + if rows[|rows| - 1].timestamp < cutoff then [] else [rows[|rows| - 1]]
  }

  // --------------------------------------------------------------------- ordering

  lemma {:induction false} InsertByTimePermutes(rows: seq<Measurement>, m: Measurement)
    ensures multiset(InsertByTime(rows, m)) == multiset(rows) + multiset{m}
  {
    if rows != [] && rows[|rows| - 1].timestamp > m.timestamp {
      InsertByTimePermutes(rows[..|rows| - 1], m);
      assert rows == rows[..|rows| - 1] + [rows[|rows| - 1]];
    }
  }

  lemma {:induction false} InsertByTimeSorts(rows: seq<Measurement>, m: Measurement)
    requires Sorted(rows)
    ensures Sorted(InsertByTime(rows, m))
    ensures forall i :: 0 <= i < |rows| + 1 ==>
              InsertByTime(rows, m)[i].timestamp <= m.timestamp
              || (rows != [] && InsertByTime(rows, m)[i].timestamp <= rows[|rows| - 1].timestamp)
  {
    if rows != [] && rows[|rows| - 1].timestamp > m.timestamp {
      InsertByTimeSorts(rows[..|rows| - 1], m);
    }
  }

  lemma {:induction false} SortByTimeSorts(rows: seq<Measurement>)
    ensures Sorted(SortByTime(rows)) && multiset(SortByTime(rows)) == multiset(rows)
  {
    if rows != [] {
      SortByTimeSorts(rows[..|rows| - 1]);
      InsertByTimeSorts(SortByTime(rows[..|rows| - 1]), rows[|rows| - 1]);
      InsertByTimePermutes(SortByTime(rows[..|rows| - 1]), rows[|rows| - 1]);
      assert rows == rows[..|rows| - 1] + [rows[|rows| - 1]];
    }
  }

  lemma {:induction false} SelectMembers(rows: seq<Measurement>, id: nat, start: int, end: int, m: Measurement)
    ensures multiset(Select(rows, id, start, end))[m]
         == if m.deviceId == id && start <= m.timestamp <= end then multiset(rows)[m] else 0
  {
    if rows != [] {
      SelectMembers(rows[..|rows| - 1], id, start, end, m);
      assert rows == rows[..|rows| - 1] + [rows[|rows| - 1]];
    }
  }

  /** A range query returns every row of the device in the closed interval, each as often as it is stored, by ascending time. */
  lemma RangeIsExact(rows: seq<Measurement>, id: nat, start: int, end: int)
    ensures Sorted(Range(rows, id, start, end))
    ensures forall m :: multiset(Range(rows, id, start, end))[m]
                     == if m.deviceId == id && start <= m.timestamp <= end then multiset(rows)[m] else 0
  {
    SortByTimeSorts(Select(rows, id, start, end));
    forall m ensures multiset(Range(rows, id, start, end))[m]
                  == if m.deviceId == id && start <= m.timestamp <= end then multiset(rows)[m] else 0 {
      SelectMembers(rows, id, start, end, m);
    }
  }

  /** Row k is the device's, none of the device is newer, and the ones stored before it are older. */
  ghost predicate IsNewest(rows: seq<Measurement>, id: nat, k: nat) {
    && k < |rows| && rows[k].deviceId == id
    && forall i :: 0 <= i < |rows| && rows[i].deviceId == id ==>
         rows[i].timestamp <= rows[k].timestamp && (i < k ==> rows[i].timestamp < rows[k].timestamp)
  }

  /** The latest reading is the newest row of the device, and there is one whenever the device has rows. */
  lemma {:induction false} LatestIsNewest(rows: seq<Measurement>, id: nat)
    ensures Latest(rows, id).None? <==> forall i :: 0 <= i < |rows| ==> rows[i].deviceId != id
    ensures Latest(rows, id).Some? ==> exists k: nat :: IsNewest(rows, id, k) && rows[k] == Latest(rows, id).value
  {
    if rows != [] {
      var init, n := rows[..|rows| - 1], |rows| - 1;
      LatestIsNewest(init, id);
      assert forall i :: 0 <= i < n ==> init[i] == rows[i];
      if rows[n].deviceId == id && (Latest(init, id).None? || rows[n].timestamp > Latest(init, id).value.timestamp) {
        assert IsNewest(rows, id, n);
      } else if Latest(init, id).Some? {
        var k: nat :| IsNewest(init, id, k) && init[k] == Latest(init, id).value;
        assert IsNewest(rows, id, k);
      }
    }
  }

  /** The latest reading carries the time of the last row of any range that contains it. */
  lemma LatestEndsRange(rows: seq<Measurement>, id: nat, start: int, end: int)
    requires Latest(rows, id).Some? && start <= Latest(rows, id).value.timestamp <= end
    ensures var r := Range(rows, id, start, end);
            r != [] && r[|r| - 1].timestamp == Latest(rows, id).value.timestamp
  {
    var latest := Latest(rows, id).value;
    var r := Range(rows, id, start, end);
    LatestIsNewest(rows, id);
    RangeIsExact(rows, id, start, end);
    assert latest in rows && latest in multiset(rows);
    assert multiset(r)[latest] > 0;
    assert latest in multiset(r);
    assert latest in r;
    var last := r[|r| - 1];
    assert last in multiset(r);
    assert multiset(rows)[last] > 0;
    assert last in multiset(rows);
    assert last in rows;
    var k :| 0 <= k < |r| && r[k] == latest;
  }

  // -------------------------------------------------------------------- retention

  /** The rows that a deletion removes. */
  function Deleted(rows: seq<Measurement>, cutoff: int): seq<Measurement> {
    if rows == [] then []
    else Deleted(rows[..|rows| - 1], cutoff) + if rows[|rows| - 1].timestamp < cutoff then [rows[|rows| - 1]] else []
  }

  lemma {:induction false} DeletionSplits(rows: seq<Measurement>, cutoff: int)
    ensures multiset(rows) == multiset(Keep(rows, cutoff)) + multiset(Deleted(rows, cutoff))
  {
    if rows != [] {
      var init, m := rows[..|rows| - 1], rows[|rows| - 1];
      DeletionSplits(init, cutoff);
      assert rows == init + [m];
      if m.timestamp < cutoff {
        assert Keep(rows, cutoff) == Keep(init, cutoff);
      } else {
        assert Deleted(rows, cutoff) == Deleted(init, cutoff);
      }
    }
  }

  lemma {:induction false} DeletionDivides(rows: seq<Measurement>, cutoff: int)
    ensures forall i :: 0 <= i < |Keep(rows, cutoff)| ==> Keep(rows, cutoff)[i].timestamp >= cutoff
    ensures forall i :: 0 <= i < |Deleted(rows, cutoff)| ==> Deleted(rows, cutoff)[i].timestamp < cutoff
  {
    if rows != [] {
      DeletionDivides(rows[..|rows| - 1], cutoff);
    }
  }

  /** Deletion conserves rows: what stays and what goes add up, and exactly the old rows go. */
  lemma DeletionConserves(rows: seq<Measurement>, cutoff: int)
    ensures |rows| == |Keep(rows, cutoff)| + |Deleted(rows, cutoff)|
    ensures multiset(rows) == multiset(Keep(rows, cutoff)) + multiset(Deleted(rows, cutoff))
    ensures forall i :: 0 <= i < |Keep(rows, cutoff)| ==> Keep(rows, cutoff)[i].timestamp >= cutoff
    ensures forall i :: 0 <= i < |Deleted(rows, cutoff)| ==> Deleted(rows, cutoff)[i].timestamp < cutoff
  {
    DeletionSplits(rows, cutoff);
    DeletionDivides(rows, cutoff);
    assert |multiset(rows)| == |multiset(Keep(rows, cutoff))| + |multiset(Deleted(rows, cutoff))|;
  }

  lemma SelectAppend(rows: seq<Measurement>, m: Measurement, id: nat, start: int, end: int)
    ensures Select(rows + [m], id, start, end)
         == Select(rows, id, start, end) + if m.deviceId == id && start <= m.timestamp <= end then [m] else []
  {
    assert (rows + [m])[..|rows|] == rows;
  }

  lemma {:induction false} SelectAfterKeep(rows: seq<Measurement>, cutoff: int, id: nat, start: int, end: int)
    requires start >= cutoff
    ensures Select(Keep(rows, cutoff), id, start, end) == Select(rows, id, start, end)
  {
    if rows != [] {
      var init, m := rows[..|rows| - 1], rows[|rows| - 1];
      SelectAfterKeep(init, cutoff, id, start, end);
      assert rows == init + [m];
      SelectAppend(init, m, id, start, end);
      if m.timestamp < cutoff {
        assert Keep(rows, cutoff) == Keep(init, cutoff);
      } else {
        SelectAppend(Keep(init, cutoff), m, id, start, end);
      }
    }
  }

  lemma LatestAppend(rows: seq<Measurement>, m: Measurement, id: nat)
    ensures var before := Latest(rows, id);
            Latest(rows + [m], id) == (
              if m.deviceId == id && (before.None? || m.timestamp > before.value.timestamp) then Some(m) else before)
  {
    assert (rows + [m])[..|rows|] == rows;
  }

  lemma {:induction false} LatestAfterKeep(rows: seq<Measurement>, cutoff: int, id: nat)
    ensures Latest(Keep(rows, cutoff), id)
         == match Latest(rows, id)
            case None => None
            case Some(m) => if m.timestamp >= cutoff then Some(m) else None
  {
    if rows != [] {
      var init, m := rows[..|rows| - 1], rows[|rows| - 1];
      LatestAfterKeep(init, cutoff, id);
      assert rows == init + [m];
      LatestAppend(init, m, id);
      if m.timestamp < cutoff {
        assert Keep(rows, cutoff) == Keep(init, cutoff);
      } else {
        LatestAppend(Keep(init, cutoff), m, id);
      }
    }
  }

  /**
   Retention leaves recent queries alone: every range that starts at or after the
   cutoff, and the latest reading exactly when there is none or it is not older.
   */
  lemma RetentionKeepsRecent(rows: seq<Measurement>, cutoff: int, id: nat, start: int, end: int)
    ensures start >= cutoff ==> Range(Keep(rows, cutoff), id, start, end) == Range(rows, id, start, end)
    ensures Latest(Keep(rows, cutoff), id) == Latest(rows, id) <==>
              Latest(rows, id).None? || Latest(rows, id).value.timestamp >= cutoff
  {
    if start >= cutoff {
      SelectAfterKeep(rows, cutoff, id, start, end);
    }
    LatestAfterKeep(rows, cutoff, id);
  }
}
