/** The table of recording days and the deletion of old ones. */
module Retention {
  import opened Base

  /** Days in calendar order, which is also the order of their YYYY-MM-DD names. */
  type Date = nat

  datatype State = ACTIVE | PENDING

  datatype Day = Day(motionCount: int, state: State)

  type Table = map<Date, Day>

  // ------------------------------------------------------------------ tables

  function Pending(rows: Table): set<Date>
  {
    set d | d in rows && rows[d].state == PENDING
  }

  function Others(rows: Table, today: Date): set<Date>
  {
    rows.Keys - {today}
  }

  function Deletable(rows: Table, today: Date): set<Date>
  {
    set d | d in rows && d != today && rows[d].state == ACTIVE
  }

  /** d is the earliest of s. */
  ghost predicate Earliest(s: set<Date>, d: Date)
  {
    d in s && forall e :: e in s ==> d <= e
  }

  function EnsureDay(rows: Table, today: Date): Table
  {
    if today in rows then rows else rows[today := Day(0, ACTIVE)]
  }

  function UpsertMotionCount(rows: Table, today: Date, count: int): Table
  {
    rows[today := if today in rows then rows[today].(motionCount := count) else Day(count, ACTIVE)]
  }

  /** Marks an ACTIVE day; any other is left alone. */
  function ScheduleDelete(rows: Table, d: Date): Table
  {
    if d in rows && rows[d].state == ACTIVE then rows[d := rows[d].(state := PENDING)] else rows
  }

  // --------------------------------------------------------------- cleanup

  /** A removal round of budget 1: the query gives some PENDING day, if there is one, and the day goes
    * unless its directory is one of those that cannot be removed. */
  ghost predicate MayPick(rows: Table, failing: set<Date>, pick: Option<Date>)
  {
    if pick.Some? then pick.value in Pending(rows) - failing
    else Pending(rows) == {} || Pending(rows) * failing != {}
  }

  function Dropped(rows: Table, pick: Option<Date>): Table
  {
    if pick.Some? then rows - {pick.value} else rows
  }

  /** A due cleanup.  `first` and `second` are the days its two rounds remove, `oldest` the day it
    * schedules in between, if space is low and there is one; `failing` holds the days whose directory
    * cannot be removed. */
  ghost predicate Cleanup(rows: Table, today: Date, low: bool, failing: set<Date>, first: Option<Date>,
                          oldest: Option<Date>, second: Option<Date>, after: Table)
  {
    && MayPick(rows, failing, first)
    && var kept := Dropped(rows, first);
       if !low || Deletable(kept, today) == {} then oldest == None && second == None && after == kept
       else
         && oldest.Some? && Earliest(Deletable(kept, today), oldest.value)
         && MayPick(ScheduleDelete(kept, oldest.value), failing, second)
         && after == Dropped(ScheduleDelete(kept, oldest.value), second)
  }

  lemma ScheduledIsPending(rows: Table, today: Date, d: Date)
    requires d in Deletable(rows, today)
    ensures Pending(ScheduleDelete(rows, d)) == Pending(rows) + {d}
    ensures ScheduleDelete(rows, d).Keys == rows.Keys
  {
  }

  /** Whatever removals fail: only PENDING days or the one just scheduled go, none whose directory is
    * still there, no day but that one becomes PENDING, and today's row keeps its place. */
  lemma CleanupTakesOnlyDueDays(rows: Table, today: Date, low: bool, failing: set<Date>,
                                first: Option<Date>, oldest: Option<Date>, second: Option<Date>,
                                after: Table)
    requires Cleanup(rows, today, low, failing, first, oldest, second, after)
    ensures after.Keys <= rows.Keys && (oldest.Some? ==> low && oldest.value != today)
    ensures forall d :: d in rows && d !in after ==> d !in failing && (d in Pending(rows) || oldest == Some(d))
    ensures forall d :: d in after && d !in Pending(rows) && d in Pending(after) ==> oldest == Some(d)
    ensures today in rows && today !in Pending(rows) ==> today in after && today !in Pending(after)
  {
    var kept := Dropped(rows, first);
    if oldest.Some? {
      ScheduledIsPending(kept, today, oldest.value);
    }
  }

  lemma OthersAreDeletable(rows: Table, today: Date)
    requires Pending(rows) == {}
    ensures Deletable(rows, today) == Others(rows, today)
  {
  }

  lemma Smaller(a: set<Date>, b: set<Date>, x: Date)
    requires x in b && a <= b - {x}
    ensures |a| < |b|
  {
    SubsetSize(a, b - {x});
  }

  lemma {:induction false} SubsetSize(a: set<Date>, b: set<Date>)
    requires a <= b
    ensures |a| <= |b|
  {
    if a != {} {
      var x :| x in a;
      SubsetSize(a - {x}, b - {x});
    }
  }

  lemma {:induction false} EarliestExists(s: set<Date>) returns (d: Date)
    requires s != {}
    ensures Earliest(s, d)
  {
    var x :| x in s;
    d := x;
    if s != {x} {
      var y := EarliestExists(s - {x});
      d := if x <= y then x else y;
      assert forall e :: e in s ==> e == x || e in s - {x};
    }
  }

  /** The guard for progress: no PENDING day's directory is stuck and, when none is PENDING, neither is
    * that of the day that would be scheduled. */
  ghost predicate CanProgress(rows: Table, today: Date, failing: set<Date>)
  {
    && Pending(rows) * failing == {}
    && (Pending(rows) == {} ==> forall d :: Earliest(Deletable(rows, today), d) ==> d !in failing)
  }

  /** Each due low-space cleanup that finds the guard satisfied and a day to delete deletes at least one,
    * never today's: the number of other days strictly falls. */
  lemma CleanupProgress(rows: Table, today: Date, failing: set<Date>, first: Option<Date>,
                        oldest: Option<Date>, second: Option<Date>, after: Table)
    requires Cleanup(rows, today, true, failing, first, oldest, second, after)
    requires today !in Pending(rows) && CanProgress(rows, today, failing)
    ensures after.Keys <= rows.Keys && today !in Pending(after)
    ensures today in rows ==> today in after
    ensures Others(rows, today) != {} ==> |Others(after, today)| < |Others(rows, today)|
  {
    CleanupTakesOnlyDueDays(rows, today, true, failing, first, oldest, second, after);
    if first.Some? {
      Smaller(Others(after, today), Others(rows, today), first.value);
    } else if Others(rows, today) != {} {
      OthersAreDeletable(rows, today);
      ScheduledIsPending(rows, today, oldest.value);
      assert second == Some(oldest.value);
      Smaller(Others(after, today), Others(rows, today), oldest.value);
    }
  }

  /** Without the guard a cleanup may remove nothing: the query gives a stuck day each time. */
  lemma StuckCleanup(rows: Table, today: Date, failing: set<Date>) returns (oldest: Option<Date>, after: Table)
    requires !CanProgress(rows, today, failing)
    ensures Cleanup(rows, today, true, failing, None, oldest, None, after) && after.Keys == rows.Keys
    ensures if Deletable(rows, today) == {} then oldest == None && after == rows
            else oldest.Some? && oldest.value in Deletable(rows, today) && after == ScheduleDelete(rows, oldest.value)
  {
    oldest, after := None, rows;
    if Deletable(rows, today) != {} {
      var d := EarliestExists(Deletable(rows, today));
      oldest, after := Some(d), ScheduleDelete(rows, d);
      ScheduledIsPending(rows, today, d);
      if Pending(rows) == {} {
        var e :| Earliest(Deletable(rows, today), e) && e in failing;
        assert d in Pending(after) * failing;
      } else {
        var e :| e in Pending(rows) * failing;
        assert e in Pending(after) * failing;
      }
    }
  }

  ghost predicate AlwaysProgresses(rows: Table, today: Date, failing: set<Date>)
  {
    forall first, oldest, second, after :: Cleanup(rows, today, true, failing, first, oldest, second, after) ==>
      |Others(after, today)| < |Others(rows, today)|
  }

  ghost predicate NeverAddsToBacklog(rows: Table, today: Date, low: bool, failing: set<Date>)
  {
    forall first, oldest, second, after :: Cleanup(rows, today, low, failing, first, oldest, second, after) ==>
      |Pending(after)| <= |Pending(rows)|
  }

  /** Progress, exactly: with another day on the card, every due low-space cleanup deletes at least one,
    * whichever days the queries give, if and only if the guard holds. */
  lemma ProgressExactly(rows: Table, today: Date, failing: set<Date>)
    requires today !in Pending(rows) && Others(rows, today) != {}
    ensures AlwaysProgresses(rows, today, failing) <==> CanProgress(rows, today, failing)
  {
    if CanProgress(rows, today, failing) {
      forall first, oldest, second, after | Cleanup(rows, today, true, failing, first, oldest, second, after)
        ensures |Others(after, today)| < |Others(rows, today)|
      {
        CleanupProgress(rows, today, failing, first, oldest, second, after);
      }
    } else {
      var oldest, after := StuckCleanup(rows, today, failing);
      assert Others(after, today) == Others(rows, today);
    }
  }

  /** Without a backlog: the earliest of the other days is deleted and nothing stays PENDING, unless its
    * directory is stuck; then it is all that becomes PENDING. */
  lemma CleanupDeletesOldest(rows: Table, today: Date, failing: set<Date>, first: Option<Date>,
                             oldest: Option<Date>, second: Option<Date>, after: Table)
    requires Cleanup(rows, today, true, failing, first, oldest, second, after)
    requires Pending(rows) == {} && Others(rows, today) != {}
    ensures oldest.Some? && oldest.value in rows && oldest.value != today
    ensures forall d :: d in rows && d != today ==> oldest.value <= d
    ensures oldest.value !in failing ==> after == rows - {oldest.value} && Pending(after) == {}
    ensures oldest.value in failing ==> after == ScheduleDelete(rows, oldest.value) && Pending(after) == {oldest.value}
  {
    assert first == None && Dropped(rows, first) == rows;
    OthersAreDeletable(rows, today);
    assert forall d :: d in rows && d != today ==> d in Deletable(rows, today);
    ScheduledIsPending(rows, today, oldest.value);
    assert second == if oldest.value in failing then None else Some(oldest.value);
  }

  lemma DroppedPending(rows: Table, pick: Option<Date>)
    requires pick.Some? ==> pick.value in Pending(rows)
    ensures |Pending(Dropped(rows, pick))| == |Pending(rows)| - if pick.Some? then 1 else 0
  {
    if pick.Some? {
      assert Pending(Dropped(rows, pick)) == Pending(rows) - {pick.value};
    }
  }

  /** What a due cleanup does to the backlog: each of its rounds that removes a day takes one off, and
    * scheduling a day adds one. */
  lemma BacklogCount(rows: Table, today: Date, low: bool, failing: set<Date>, first: Option<Date>,
                     oldest: Option<Date>, second: Option<Date>, after: Table)
    requires Cleanup(rows, today, low, failing, first, oldest, second, after)
    ensures |Pending(after)| == |Pending(rows)| - (if first.Some? then 1 else 0)
                              + (if oldest.Some? then 1 else 0) - (if second.Some? then 1 else 0)
  {
    var kept := Dropped(rows, first);
    DroppedPending(rows, first);
    if oldest.Some? {
      ScheduledIsPending(kept, today, oldest.value);
      DroppedPending(ScheduleDelete(kept, oldest.value), second);
    }
  }

  /** While removals succeed the backlog shrinks: one PENDING day fewer, or none left. */
  lemma BacklogNeverGrows(rows: Table, today: Date, low: bool, first: Option<Date>,
                          oldest: Option<Date>, second: Option<Date>, after: Table)
    requires Cleanup(rows, today, low, {}, first, oldest, second, after)
    ensures |Pending(after)| == if |Pending(rows)| == 0 then 0 else |Pending(rows)| - 1
  {
    BacklogCount(rows, today, low, {}, first, oldest, second, after);
    if oldest.Some? {
      ScheduledIsPending(Dropped(rows, first), today, oldest.value);
    }
  }

  /** The backlog, exactly: no due cleanup adds to it, whichever days the queries give, if and only if
    * space is not low, there is no day to schedule, or the guard holds. */
  lemma BacklogGrowsExactly(rows: Table, today: Date, low: bool, failing: set<Date>)
    ensures NeverAddsToBacklog(rows, today, low, failing)
       <==> !low || Deletable(rows, today) == {} || CanProgress(rows, today, failing)
  {
    if !low || Deletable(rows, today) == {} || CanProgress(rows, today, failing) {
      forall first, oldest, second, after | Cleanup(rows, today, low, failing, first, oldest, second, after)
        ensures |Pending(after)| <= |Pending(rows)|
      {
        BacklogCount(rows, today, low, failing, first, oldest, second, after);
        ScheduledGoes(rows, today, low, failing, first, oldest, second, after);
      }
    } else {
      var oldest, after := StuckCleanup(rows, today, failing);
      BacklogCount(rows, today, low, failing, None, oldest, None, after);
    }
  }

  /** Under the guard a cleanup that schedules a day also removes one. */
  lemma ScheduledGoes(rows: Table, today: Date, low: bool, failing: set<Date>, first: Option<Date>,
                      oldest: Option<Date>, second: Option<Date>, after: Table)
    requires Cleanup(rows, today, low, failing, first, oldest, second, after)
    requires !low || Deletable(rows, today) == {} || CanProgress(rows, today, failing)
    ensures oldest.Some? ==> first.Some? || second.Some?
  {
    if oldest.Some? {
      var kept := Dropped(rows, first);
      assert Deletable(kept, today) == Deletable(rows, today);
      ScheduledIsPending(kept, today, oldest.value);
    }
  }

  /** What writes the table while a day is recorded: a due low-space cleanup, with the directories that
    * cannot be removed at the time, and the two writes of today's row. */
  datatype Write = LowSpaceCleanup(failing: set<Date>) | TodayEnsured | MotionCounted(count: int)

  ghost predicate Writes(rows: Table, today: Date, w: Write, after: Table)
  {
    match w
    case LowSpaceCleanup(failing) =>
      exists first, oldest, second :: Cleanup(rows, today, true, failing, first, oldest, second, after)
    case TodayEnsured => after == EnsureDay(rows, today)
    case MotionCounted(count) => after == UpsertMotionCount(rows, today, count)
  }

  ghost predicate WriteRun(tables: seq<Table>, today: Date, writes: seq<Write>)
  {
    && |tables| == |writes| + 1
    && forall i, j :: 0 <= i && j == i + 1 && j < |tables| ==> Writes(tables[i], today, writes[i], tables[j])
  }

  /** A cleanup that finds the guard satisfied. */
  ghost predicate Unstuck(rows: Table, today: Date, w: Write)
  {
    w.LowSpaceCleanup? && CanProgress(rows, today, w.failing)
  }

  ghost function UnstuckCleanups(tables: seq<Table>, today: Date, writes: seq<Write>): nat
    requires |tables| == |writes| + 1
  {
    if writes == [] then 0
    else
      var n := |writes| - 1;
      UnstuckCleanups(tables[..n + 1], today, writes[..n]) + (if Unstuck(tables[n], today, writes[n]) then 1 else 0)
  }

  lemma WriteKeepsToday(rows: Table, today: Date, w: Write, after: Table)
    requires Writes(rows, today, w, after) && today !in Pending(rows)
    ensures today !in Pending(after)
    ensures |Others(after, today)| <= |Others(rows, today)|
    ensures Unstuck(rows, today, w) && Others(rows, today) != {} ==> |Others(after, today)| < |Others(rows, today)|
  {
    if w.LowSpaceCleanup? {
      var first, oldest, second :| Cleanup(rows, today, true, w.failing, first, oldest, second, after);
      CleanupTakesOnlyDueDays(rows, today, true, w.failing, first, oldest, second, after);
      if Unstuck(rows, today, w) && Others(rows, today) != {} {
        CleanupProgress(rows, today, w.failing, first, oldest, second, after);
      }
    }
    SubsetSize(Others(after, today), Others(rows, today));
  }

  /** While a day is recorded, due low-space cleanups, whatever fails in them, with any writes of today's
    * row between them: the other days never become more, and n of them that find the guard satisfied
    * leave none if there were at most n, and otherwise at least n fewer. */
  lemma {:induction false} CleanupsEmptyTheCard(tables: seq<Table>, today: Date, writes: seq<Write>)
    requires WriteRun(tables, today, writes) && today !in Pending(tables[0])
    ensures today !in Pending(tables[|writes|])
    ensures var before, n := |Others(tables[0], today)|, UnstuckCleanups(tables, today, writes);
            |Others(tables[|writes|], today)| <= if before >= n then before - n else 0
    decreases |writes|
  {
    if writes != [] {
      var n := |writes| - 1;
      CleanupsEmptyTheCard(tables[..n + 1], today, writes[..n]);
      assert tables[..n + 1][n] == tables[n] && tables[..n + 1][0] == tables[0];
      WriteKeepsToday(tables[n], today, writes[n], tables[n + 1]);
    }
  }

  // ------------------------------------------------------------- the code

  /** The metadata database and the writer's cleanup counter. */
  class MetaDb {
    var rows: Table
    var tsSinceCleanup: nat

    constructor (rows: Table)
      ensures this.rows == rows && tsSinceCleanup == 0
    {
      this.rows, tsSinceCleanup := rows, 0;
    }

    /** meta_db_oldest_retention_candidate */
    method OldestCandidate(today: Date) returns (d: Option<Date>)
      ensures d.None? <==> Deletable(rows, today) == {}
      ensures d.Some? ==> d.value in rows && d.value != today && rows[d.value].state == ACTIVE
      ensures d.Some? ==> forall e :: e in rows && e != today && rows[e].state == ACTIVE ==> d.value <= e
    {
      d := None;
      var left := Deletable(rows, today);
      while left != {}
        invariant left <= Deletable(rows, today)
        invariant d.None? ==> left == Deletable(rows, today)
        invariant d.Some? ==> d.value in Deletable(rows, today)
                              && forall e :: e in Deletable(rows, today) && e !in left ==> d.value <= e
      {
        var e :| e in left;
        left := left - {e};
        if d.None? || e < d.value {
          d := Some(e);
        }
      }
      assert forall e :: e in rows && e != today && rows[e].state == ACTIVE ==> e in Deletable(rows, today);
    }

    /** retention_schedule_delete: 1 when the day was ACTIVE and is now PENDING, otherwise 0. */
    method Schedule(d: Date) returns (queued: int)
      modifies this`rows
      ensures rows == ScheduleDelete(old(rows), d)
      ensures queued == if d in old(rows) && old(rows)[d].state == ACTIVE then 1 else 0
    {
      queued := 0;
      if d in rows && rows[d].state == ACTIVE {
        rows := rows[d := rows[d].(state := PENDING)];
        queued := 1;
      }
    }

    /** retention_process_tasks; `failing` holds the days whose directory cannot be removed. */
    method ProcessTasks(budget: nat, failing: set<Date>) returns (ghost gone: seq<Date>)
      modifies this`rows
      ensures |gone| <= budget && (forall i, j :: 0 <= i < j < |gone| ==> gone[i] != gone[j])
      ensures forall d :: d in gone ==> d in Pending(old(rows)) && d !in failing
      ensures rows == old(rows) - (set d | d in gone)
      ensures |gone| < budget ==> Pending(rows) == {} || exists d :: d in Pending(rows) && d in failing
    {
      gone := [];
      for i := 0 to budget
        invariant |gone| == i && (forall j, k :: 0 <= j < k < |gone| ==> gone[j] != gone[k])
        invariant forall d :: d in gone ==> d in Pending(old(rows)) && d !in failing
        invariant rows == old(rows) - (set d | d in gone)
      {
        var pending := Pending(rows);
        if pending == {} {
          return;
        }
        var date :| date in pending;
        if date in failing {
          return;
        }
        rows := rows - {date};
        gone := gone + [date];
      }
    }

    /** check_and_cleanup */
    method CheckAndCleanup(today: Date, every: nat, freeMb: nat, minMb: nat, failing: set<Date>)
      returns (ghost first: Option<Date>, ghost oldest: Option<Date>, ghost second: Option<Date>)
      modifies this
      ensures old(tsSinceCleanup) < every ==> rows == old(rows) && tsSinceCleanup == old(tsSinceCleanup)
      ensures old(tsSinceCleanup) >= every ==> tsSinceCleanup == 0
      ensures old(tsSinceCleanup) >= every ==>
                Cleanup(old(rows), today, freeMb < minMb, failing, first, oldest, second, rows)
    {
      first, oldest, second := None, None, None;
      if tsSinceCleanup < every {
        return;
      }
      tsSinceCleanup := 0;
      ghost var before := rows;
      ghost var gone := ProcessTasks(1, failing);
      if gone != [] {
        first := Some(gone[0]);
      }
      assert MayPick(before, failing, first) && rows == Dropped(before, first) by {
        OneRound(before, rows, gone, first, failing);
      }
      if freeMb >= minMb {
        return;
      }
      var target := OldestCandidate(today);
      if target.None? {
        return;
      }
      oldest := target;
      ghost var kept := rows;
      var queued := Schedule(target.value);
      ghost var scheduled := rows;
      gone := ProcessTasks(1, failing);
      if gone != [] {
        second := Some(gone[0]);
      }
      assert MayPick(scheduled, failing, second) && rows == Dropped(scheduled, second) by {
        OneRound(scheduled, rows, gone, second, failing);
      }
    }
  }

  lemma OneRound(before: Table, after: Table, gone: seq<Date>, pick: Option<Date>, failing: set<Date>)
    requires |gone| <= 1 && pick == (if gone == [] then None else Some(gone[0]))
    requires forall d :: d in gone ==> d in Pending(before) && d !in failing
    requires after == before - (set d | d in gone)
    requires |gone| < 1 ==> Pending(after) == {} || exists d :: d in Pending(after) && d in failing
    ensures MayPick(before, failing, pick) && after == Dropped(before, pick)
  {
    if gone == [] && Pending(after) != {} {
      var d :| d in Pending(after) && d in failing;
      assert d in Pending(before) * failing;
    }
  }
}
