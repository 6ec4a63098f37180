/** The writer thread's handling of one frame: day rollover, the keyframe gate, the event counters
  * and the rows they leave in the day's event database. */
module Writer {
  import opened Base
  import opened Arithmetic
  import FQ = FrameQueue
  import opened Retention
  import Pipeline
  import Retimer

  datatype Config = Config(fpsHigh: int, fpsLow: int, debounceMs: int)
  {
    /** The range the divisions below need. */
    predicate Sane() { 1 <= fpsLow <= fpsHigh }
    function Ratio(): (r: int)
      requires Sane()
      ensures r >= 1
    {
      fpsHigh / fpsLow
    }
  }

  /** The local date, and the day of the year the rollover test looks at. */
  datatype Clock = Clock(date: Date, yday: int)

  /** One row of EventDetails. */
  datatype Mark = Mark(segment: nat, frame: nat)

  /** A day's EventLogs.db: the total_frames of each segment row, -1 until first set, and the marks. */
  datatype EventDb = EventDb(totals: seq<int>, marks: seq<Mark>)

  /** One call of hls_media_input. */
  datatype Fed = Fed(bytes: seq<byte>, isKey: bool, ptsMs: int)

  datatype WriterState = WriterState(
    date: Date,
    yday: int,
    segment: nat,                // row of the open segment in the day's database
    frameCount: nat,
    motionCount: nat,
    lastMotionMs: int,
    seenKeyframe: bool,
    instances: seq<seq<Fed>>,    // inputs of each HLS instance, the open one last
    dbs: map<Date, EventDb>,
    rows: Table)

  function Db(dbs: map<Date, EventDb>, d: Date): EventDb
  {
    if d in dbs then dbs[d] else EventDb([], [])
  }

  // ------------------------------------------------------------------- steps

  function SetTotal(db: EventDb, segment: nat, frames: nat): EventDb
  {
    if segment < |db.totals| then db.(totals := db.totals[segment := frames]) else db
  }

  /** event_db_update_total_frames */
  function StoreTotal(w: WriterState): WriterState
  {
    w.(dbs := w.dbs[w.date := SetTotal(Db(w.dbs, w.date), w.segment, w.frameCount)])
  }

  /** open_today: a new segment row, fresh counters, and a playlist that waits for a keyframe. */
  function OpenToday(w: WriterState, clock: Clock): WriterState
  {
    var db := Db(w.dbs, clock.date);
    w.(date := clock.date, yday := clock.yday, segment := |db.totals|,
       frameCount := 0, motionCount := 0, seenKeyframe := false,
       instances := w.instances + [[]],
       dbs := w.dbs[clock.date := db.(totals := db.totals + [-1])])
  }

  function RollOver(w: WriterState, clock: Clock): WriterState
  {
    var w := OpenToday(StoreTotal(w), clock);
    w.(rows := EnsureDay(w.rows, w.date))
  }

  function Feed(w: WriterState, f: FQ.Frame): WriterState
    requires w.instances != []
  {
    var n := |w.instances| - 1;
    w.(instances := w.instances[..n] + [w.instances[n] + [Fed(f.bytes, f.isKey, Retimer.CDiv(f.ptsUs, 1000))]],
       seenKeyframe := true,
       frameCount := w.frameCount + 1)
  }

  /** A marker for the current frame. */
  function AddMotion(w: WriterState, now: int): WriterState
  {
    var db := Db(w.dbs, w.date);
    w.(motionCount := w.motionCount + 1,
       dbs := w.dbs[w.date := db.(marks := db.marks + [Mark(w.segment, w.frameCount)])],
       rows := UpsertMotionCount(w.rows, w.date, w.motionCount + 1),
       lastMotionMs := now)
  }

  function Count(c: Config, w: WriterState, fps: int, now: int): WriterState
    requires c.Sane()
  {
    var w := if fps == c.fpsHigh && now - w.lastMotionMs >= c.debounceMs then AddMotion(w, now) else w;
    if fps != c.fpsHigh || w.frameCount % c.Ratio() == 0 then StoreTotal(w) else w
  }

  /** ingest_frame, without the cleanup at its end. */
  function Ingest(c: Config, w: WriterState, f: FQ.Frame, clock: Clock, fps: int, now: int): WriterState
    requires c.Sane() && w.instances != []
  {
    var w := if clock.yday != w.yday then RollOver(w, clock) else w;
    if !w.seenKeyframe && !f.isKey then w
    else Count(c, Feed(w, f), fps, now)
  }

  /** The writer's start: tables as found, today's segment opened. */
  function Boot(dbs: map<Date, EventDb>, rows: Table, clock: Clock): WriterState
  {
    var w := OpenToday(WriterState(0, 0, 0, 0, 0, 0, false, [], dbs, rows), clock);
    w.(rows := EnsureDay(w.rows, w.date))
  }

  // ------------------------------------------------------------ marker rows

  /** The motion frames recorded for a segment, in row order. */
  function Frames(marks: seq<Mark>, segment: nat): seq<nat>
  {
    if marks == [] then []
    else
      var m := marks[|marks| - 1];
      Frames(marks[..|marks| - 1], segment) + (if m.segment == segment then [m.frame] else [])
  }

  ghost predicate StrictlyUpTo(s: seq<nat>, top: nat)
  {
    && (forall i :: 0 <= i < |s| ==> 1 <= s[i] <= top)
    && (forall i, j :: 0 <= i < j < |s| ==> s[i] < s[j])
  }

  /** The stored total is -1 or the frame count at the last update; no update has been due since. */
  predicate Lags(total: int, frames: nat, ratio: int)
    requires ratio >= 1
  {
    var t := if total < 0 then 0 else total;
    (total < 0 ==> total == -1) && t <= frames < (t / ratio) * ratio + ratio
  }

  /** A database none of whose marks belongs to a segment row yet to be added. */
  ghost predicate MarksRefer(db: EventDb)
  {
    forall i :: 0 <= i < |db.marks| ==> db.marks[i].segment < |db.totals|
  }

  ghost predicate AllRefer(dbs: map<Date, EventDb>)
  {
    forall d :: d in dbs ==> MarksRefer(dbs[d])
  }

  /** The open segment's rows agree with the counters. */
  ghost predicate Consistent(c: Config, w: WriterState)
    requires c.Sane()
  {
    && w.instances != [] && AllRefer(w.dbs) && w.date in w.dbs
    && var db := w.dbs[w.date];
    && w.segment < |db.totals|
    && |Frames(db.marks, w.segment)| == w.motionCount
    && StrictlyUpTo(Frames(db.marks, w.segment), w.frameCount)
    && Lags(db.totals[w.segment], w.frameCount, c.Ratio())
  }

  /** What the player needs of a segment row: every marker's share lies in (0, 1]. */
  ghost predicate SharesOk(db: EventDb, segment: nat)
  {
    && segment < |db.totals|
    && forall i :: 0 <= i < |Frames(db.marks, segment)| ==> 1 <= Frames(db.marks, segment)[i] <= db.totals[segment]
  }

  lemma {:induction false} NoMarksYet(marks: seq<Mark>, segment: nat)
    requires forall i :: 0 <= i < |marks| ==> marks[i].segment < segment
    ensures Frames(marks, segment) == []
  {
    if marks != [] {
      NoMarksYet(marks[..|marks| - 1], segment);
    }
  }

  lemma OpenIsConsistent(c: Config, w: WriterState, clock: Clock)
    requires c.Sane() && AllRefer(w.dbs)
    ensures Consistent(c, OpenToday(w, clock))
  {
    var db := Db(w.dbs, clock.date);
    NoMarksYet(db.marks, |db.totals|);
    var r := OpenToday(w, clock);
    forall d | d in r.dbs ensures MarksRefer(r.dbs[d]) {
      assert d != clock.date ==> d in w.dbs;
    }
  }

  lemma StoreIsConsistent(c: Config, w: WriterState)
    requires c.Sane() && Consistent(c, w)
    ensures Consistent(c, StoreTotal(w))
    ensures StoreTotal(w).dbs[w.date].totals[w.segment] == w.frameCount
  {
  }

  /** No update was due at frame n + 1, so the stored total may stay. */
  lemma LagGrows(total: int, n: nat, ratio: int)
    requires ratio >= 1 && Lags(total, n, ratio) && (n + 1) % ratio != 0
    ensures Lags(total, n + 1, ratio)
  {
    var t := if total < 0 then 0 else total;
    var top := (t / ratio) * ratio + ratio;
    if n + 1 == top {
      assert n + 1 == (t / ratio + 1) * ratio;
      MultipleHasNoRest(t / ratio + 1, ratio);
    }
  }

  /** The rows after a fed frame: one more frame than the stored total may account for. */
  ghost predicate Counting(c: Config, w: WriterState)
    requires c.Sane()
  {
    && w.instances != [] && AllRefer(w.dbs) && w.date in w.dbs && w.frameCount >= 1
    && var db := w.dbs[w.date];
    && w.segment < |db.totals|
    && |Frames(db.marks, w.segment)| == w.motionCount
    && StrictlyUpTo(Frames(db.marks, w.segment), w.frameCount - 1)
    && Lags(db.totals[w.segment], w.frameCount - 1, c.Ratio())
  }

  /** As Counting, once the frame may have its marker. */
  ghost predicate Marked(c: Config, w: WriterState)
    requires c.Sane()
  {
    && w.instances != [] && AllRefer(w.dbs) && w.date in w.dbs && w.frameCount >= 1
    && var db := w.dbs[w.date];
    && w.segment < |db.totals|
    && |Frames(db.marks, w.segment)| == w.motionCount
    && StrictlyUpTo(Frames(db.marks, w.segment), w.frameCount)
    && Lags(db.totals[w.segment], w.frameCount - 1, c.Ratio())
  }

  lemma AddMotionMarks(c: Config, w: WriterState, now: int)
    requires c.Sane() && Counting(c, w)
    ensures Marked(c, AddMotion(w, now))
  {
  }

  lemma StoreAfterMark(c: Config, w: WriterState)
    requires c.Sane() && Marked(c, w)
    ensures Consistent(c, StoreTotal(w))
  {
  }

  lemma CountIsConsistent(c: Config, w: WriterState, fps: int, now: int)
    requires c.Sane() && Counting(c, w)
    ensures Consistent(c, Count(c, w, fps, now))
  {
    var marking := fps == c.fpsHigh && now - w.lastMotionMs >= c.debounceMs;
    var m := if marking then AddMotion(w, now) else w;
    if marking {
      AddMotionMarks(c, w, now);
    }
    assert Marked(c, m);
    if fps != c.fpsHigh || m.frameCount % c.Ratio() == 0 {
      StoreAfterMark(c, m);
    } else {
      LagGrows(m.dbs[m.date].totals[m.segment], m.frameCount - 1, c.Ratio());
    }
  }

  lemma RollOverIsConsistent(c: Config, w: WriterState, clock: Clock)
    requires c.Sane() && Consistent(c, w)
    ensures Consistent(c, RollOver(w, clock))
  {
    StoreIsConsistent(c, w);
    OpenIsConsistent(c, StoreTotal(w), clock);
  }

  lemma IngestIsConsistent(c: Config, w: WriterState, f: FQ.Frame, clock: Clock, fps: int, now: int)
    requires c.Sane() && Consistent(c, w)
    ensures Consistent(c, Ingest(c, w, f, clock, fps, now))
  {
    var v := if clock.yday != w.yday then RollOver(w, clock) else w;
    if clock.yday != w.yday {
      RollOverIsConsistent(c, w, clock);
    }
    if v.seenKeyframe || f.isKey {
      CountIsConsistent(c, Feed(v, f), fps, now);
    }
  }

  /** One frame taken by the writer and what it reads beside it. */
  datatype Taken = Taken(frame: FQ.Frame, clock: Clock, fps: int, now: int)

  function Run(c: Config, w: WriterState, taken: seq<Taken>): (r: WriterState)
    requires c.Sane() && w.instances != []
    ensures r.instances != []
  {
    if taken == [] then w
    else
      var t := taken[|taken| - 1];
      Ingest(c, Run(c, w, taken[..|taken| - 1]), t.frame, t.clock, t.fps, t.now)
  }

  /** Over every run, through any switching of the frame rate and any rollovers: the open segment's
    * motion count is its number of marker rows, their frames strictly increase within the frame
    * count, and the stored total lags it by less than fpsHigh / fpsLow frames. */
  lemma {:induction false} RunIsConsistent(c: Config, w: WriterState, taken: seq<Taken>)
    requires c.Sane() && Consistent(c, w)
    ensures Consistent(c, Run(c, w, taken))
  {
    if taken != [] {
      RunIsConsistent(c, w, taken[..|taken| - 1]);
      var t := taken[|taken| - 1];
      IngestIsConsistent(c, Run(c, w, taken[..|taken| - 1]), t.frame, t.clock, t.fps, t.now);
    }
  }

  /** The open segment's stored total, -1 when never stored. */
  function Total(w: WriterState): int
    requires w.date in w.dbs && w.segment < |w.dbs[w.date].totals|
  {
    w.dbs[w.date].totals[w.segment]
  }

  /** The lag of the stored total, exactly: in every state of every run it is below fpsHigh / fpsLow
    * frames unless the total has never been stored and the next frame is the one that stores it;
    * then it is exactly that ratio. */
  lemma {:induction false} LagExactly(c: Config, w: WriterState, taken: seq<Taken>)
    requires c.Sane() && Consistent(c, w)
    ensures var r := Run(c, w, taken);
            && r.date in r.dbs && r.segment < |r.dbs[r.date].totals|
            && (r.frameCount - Total(r) < c.Ratio() <==> Total(r) >= 0 || r.frameCount + 1 < c.Ratio())
            && Total(r) <= r.frameCount <= Total(r) + c.Ratio()
  {
    RunIsConsistent(c, w, taken);
    var r := Run(c, w, taken);
    LagBound(Total(r), r.frameCount, c.Ratio());
  }

  lemma LagBound(total: int, frames: nat, ratio: int)
    requires ratio >= 1 && Lags(total, frames, ratio)
    ensures frames - total < ratio <==> total >= 0 || frames + 1 < ratio
    ensures total <= frames <= total + ratio
  {
    var t := if total < 0 then 0 else total;
    DivBounds(t, ratio);
  }

  /** n keyframes taken at the high rate on the day of the start, too close for a second marker. */
  function Burst(c: Config, n: nat, f: FQ.Frame, clock: Clock): seq<Taken>
  {
    seq(n, i => Taken(f, clock, c.fpsHigh, 0))
  }

  /** n frames into a segment whose total has not been stored. */
  ghost predicate Unstored(w: WriterState, clock: Clock, n: nat)
  {
    && w.date == clock.date && w.yday == clock.yday && w.instances != []
    && w.date in w.dbs && w.segment < |w.dbs[w.date].totals|
    && w.frameCount == n && Total(w) == -1
  }

  lemma BurstStep(c: Config, w: WriterState, clock: Clock, f: FQ.Frame, n: nat)
    requires c.Sane() && f.isKey && Unstored(w, clock, n) && (n + 1) % c.Ratio() != 0
    ensures Unstored(Ingest(c, w, f, clock, c.fpsHigh, 0), clock, n + 1)
  {
  }

  lemma {:induction false} BurstRun(c: Config, w: WriterState, clock: Clock, f: FQ.Frame, n: nat)
    requires c.Sane() && f.isKey && Unstored(w, clock, 0) && n < c.Ratio()
    ensures Unstored(Run(c, w, Burst(c, n, f, clock)), clock, n)
  {
    if n > 0 {
      var s := Burst(c, n, f, clock);
      assert s[..n - 1] == Burst(c, n - 1, f, clock) && s[n - 1] == Taken(f, clock, c.fpsHigh, 0);
      BelowRatio(n, c.Ratio());
      hide Ingest, Burst, Unstored;
      BurstRun(c, w, clock, f, n - 1);
      BurstStep(c, Run(c, w, s[..n - 1]), clock, f, n - 1);
    }
  }

  lemma BelowRatio(n: nat, ratio: nat)
    requires 0 < n < ratio
    ensures n % ratio != 0
  {
  }

  /** And every configuration gets there: a start followed by one frame less than the ratio at the high
    * rate leaves the total at -1 and the lag at the full ratio. */
  lemma {:induction false} FirstFramesLagByRatio(c: Config, dbs: map<Date, EventDb>, rows: Table, clock: Clock,
                                                 f: FQ.Frame)
    requires c.Sane() && f.isKey
    ensures var r := Run(c, Boot(dbs, rows, clock), Burst(c, c.Ratio() - 1, f, clock));
            && r.date in r.dbs && r.segment < |r.dbs[r.date].totals|
            && r.frameCount - Total(r) == c.Ratio()
  {
    BurstRun(c, Boot(dbs, rows, clock), clock, f, c.Ratio() - 1);
  }

  /** Once a segment is closed, by a rollover or at the end, its total is its frame count, and every
    * marker's share of the timeline lies in (0, 1]. */
  lemma ClosedSegmentShares(c: Config, w: WriterState)
    requires c.Sane() && Consistent(c, w)
    ensures var db := StoreTotal(w).dbs[w.date];
            && db.totals[w.segment] == w.frameCount
            && SharesOk(db, w.segment)
  {
  }

  /** A step from w to r leaves every segment row but w's open one as it was. */
  ghost predicate OthersKept(w: WriterState, r: WriterState)
  {
    forall d :: d in w.dbs ==>
      && d in r.dbs && |w.dbs[d].totals| <= |r.dbs[d].totals|
      && forall s: nat :: s < |w.dbs[d].totals| && !(d == w.date && s == w.segment) ==>
           r.dbs[d].totals[s] == w.dbs[d].totals[s]
           && Frames(r.dbs[d].marks, s) == Frames(w.dbs[d].marks, s)
  }

  lemma AddMotionKeepsOthers(w: WriterState, now: int)
    requires w.date in w.dbs
    ensures OthersKept(w, AddMotion(w, now))
  {
  }

  /** Segment rows this run added, other than the open one, are closed in order. */
  ghost predicate ClosedOk(w: WriterState, base: map<Date, EventDb>)
  {
    forall d :: d in w.dbs ==>
      forall s: nat :: |Db(base, d).totals| <= s < |w.dbs[d].totals| && !(d == w.date && s == w.segment) ==>
        SharesOk(w.dbs[d], s)
  }

  lemma ClosedWhenKept(w: WriterState, r: WriterState, base: map<Date, EventDb>)
    requires ClosedOk(w, base) && OthersKept(w, r) && r.date == w.date && r.segment == w.segment
    requires r.dbs.Keys == w.dbs.Keys && forall d :: d in w.dbs ==> |r.dbs[d].totals| == |w.dbs[d].totals|
    ensures ClosedOk(r, base)
  {
    forall d, s: nat | d in r.dbs && |Db(base, d).totals| <= s < |r.dbs[d].totals| && !(d == r.date && s == r.segment)
      ensures SharesOk(r.dbs[d], s)
    {
      assert SharesOk(w.dbs[d], s);
    }
  }

  lemma RollOverCloses(c: Config, w: WriterState, clock: Clock, base: map<Date, EventDb>)
    requires c.Sane() && Consistent(c, w) && ClosedOk(w, base)
    ensures ClosedOk(RollOver(w, clock), base)
  {
    ClosedSegmentShares(c, w);
    var v := StoreTotal(w);
    var r := RollOver(w, clock);
    forall d, s: nat | d in v.dbs && |Db(base, d).totals| <= s < |v.dbs[d].totals|
      ensures SharesOk(v.dbs[d], s)
    {
      if !(d == w.date && s == w.segment) {
        assert SharesOk(w.dbs[d], s);
      }
    }
    forall d, s: nat | d in r.dbs && |Db(base, d).totals| <= s < |r.dbs[d].totals| && !(d == r.date && s == r.segment)
      ensures SharesOk(r.dbs[d], s)
    {
      assert d in v.dbs && s < |v.dbs[d].totals|;
      assert SharesOk(v.dbs[d], s);
    }
  }

  lemma StoreKeepsClosed(w: WriterState, base: map<Date, EventDb>)
    requires w.date in w.dbs && ClosedOk(w, base)
    ensures ClosedOk(StoreTotal(w), base)
  {
    ClosedWhenKept(w, StoreTotal(w), base);
  }

  lemma CountKeepsClosed(c: Config, w: WriterState, fps: int, now: int, base: map<Date, EventDb>)
    requires c.Sane() && w.date in w.dbs && ClosedOk(w, base)
    ensures ClosedOk(Count(c, w, fps, now), base)
  {
    if fps == c.fpsHigh && now - w.lastMotionMs >= c.debounceMs {
      AddMotionKeepsOthers(w, now);
      ClosedWhenKept(w, AddMotion(w, now), base);
      StoreKeepsClosed(AddMotion(w, now), base);
    } else {
      StoreKeepsClosed(w, base);
    }
  }

  lemma IngestKeepsClosed(c: Config, w: WriterState, f: FQ.Frame, clock: Clock, fps: int, now: int,
                          base: map<Date, EventDb>)
    requires c.Sane() && Consistent(c, w) && ClosedOk(w, base)
    ensures ClosedOk(Ingest(c, w, f, clock, fps, now), base)
  {
    var v := if clock.yday != w.yday then RollOver(w, clock) else w;
    if clock.yday != w.yday {
      RollOverCloses(c, w, clock, base);
      RollOverIsConsistent(c, w, clock);
    }
    if v.seenKeyframe || f.isKey {
      CountKeepsClosed(c, Feed(v, f), fps, now, base);
    }
  }

  /** Over every run, each segment the run opened and closed has its total equal to the frames it
    * was closed with and all its markers within (0, 1]. */
  lemma {:induction false} RunClosesSegments(c: Config, w: WriterState, taken: seq<Taken>, base: map<Date, EventDb>)
    requires c.Sane() && Consistent(c, w) && ClosedOk(w, base)
    ensures ClosedOk(Run(c, w, taken), base)
  {
    if taken != [] {
      var before := taken[..|taken| - 1];
      RunClosesSegments(c, w, before, base);
      RunIsConsistent(c, w, before);
      var t := taken[|taken| - 1];
      IngestKeepsClosed(c, Run(c, w, before), t.frame, t.clock, t.fps, t.now, base);
    }
  }

  /** The writer starts consistent whatever well-formed databases it finds. */
  lemma BootIsConsistent(c: Config, dbs: map<Date, EventDb>, rows: Table, clock: Clock)
    requires c.Sane() && AllRefer(dbs)
    ensures Consistent(c, Boot(dbs, rows, clock)) && ClosedOk(Boot(dbs, rows, clock), dbs)
  {
    OpenIsConsistent(c, WriterState(0, 0, 0, 0, 0, 0, false, [], dbs, rows), clock);
  }

  /** And adds one row for its segment, under today's date, to whatever it finds. */
  lemma BootAddsRow(dbs: map<Date, EventDb>, rows: Table, clock: Clock)
    ensures var w := Boot(dbs, rows, clock);
            && w.date == clock.date && w.segment == |Db(dbs, clock.date).totals| && w.lastMotionMs == 0
            && forall d :: Db(w.dbs, d).marks == Db(dbs, d).marks
                           && Db(w.dbs, d).totals == Db(dbs, d).totals + (if d == clock.date then [-1] else [])
  {
  }

  // ------------------------------------------------------------- the gate

  function FedOf(f: FQ.Frame): Fed
  {
    Fed(f.bytes, f.isKey, Retimer.CDiv(f.ptsUs, 1000))
  }

  function FedInstance(offered: seq<FQ.Frame>, ids: seq<nat>): seq<Fed>
    requires forall i :: 0 <= i < |ids| ==> ids[i] < |offered|
  {
    seq(|ids|, i requires 0 <= i < |ids| => FedOf(offered[ids[i]]))
  }

  ghost predicate SameInstances(fed: seq<seq<Fed>>, ids: seq<seq<nat>>, offered: seq<FQ.Frame>)
  {
    && |fed| == |ids| && fed != []
    && forall i :: 0 <= i < |ids| ==>
         (forall j :: 0 <= j < |ids[i]| ==> ids[i][j] < |offered|) && fed[i] == FedInstance(offered, ids[i])
  }

  /** The writer's instances are those of module Pipeline, with the frames for the ids. */
  ghost predicate GateAgrees(w: WriterState, p: Pipeline.Pipe)
  {
    w.seenKeyframe == p.seen && SameInstances(w.instances, p.instances, p.q.offered)
  }

  lemma NewInstanceAgrees(fed: seq<seq<Fed>>, ids: seq<seq<nat>>, offered: seq<FQ.Frame>)
    requires SameInstances(fed, ids, offered)
    ensures SameInstances(fed + [[]], ids + [[]], offered)
  {
  }

  lemma AppendAgrees(fed: seq<seq<Fed>>, ids: seq<seq<nat>>, offered: seq<FQ.Frame>, id: nat)
    requires SameInstances(fed, ids, offered) && id < |offered|
    ensures var n := |fed| - 1;
            SameInstances(fed[..n] + [fed[n] + [FedOf(offered[id])]], Pipeline.Append(ids, id), offered)
  {
  }

  lemma CountFeedsNothing(c: Config, w: WriterState, fps: int, now: int)
    requires c.Sane()
    ensures var r := Count(c, w, fps, now);
            r.instances == w.instances && r.seenKeyframe == w.seenKeyframe && r.frameCount == w.frameCount
  {
  }

  /** Whatever the clock and the rates, ingesting a frame feeds the instances as Pipeline's step does. */
  lemma IngestAgrees(c: Config, w: WriterState, p: Pipeline.Pipe, id: nat, clock: Clock,
                     fps: int, now: int)
    requires c.Sane() && GateAgrees(w, p) && id < |p.q.offered|
    ensures p.instances != []
    ensures GateAgrees(Ingest(c, w, p.q.offered[id], clock, fps, now), Pipeline.Ingest(p, id, clock.yday != w.yday))
  {
    var rollover := clock.yday != w.yday;
    var v := if rollover then RollOver(w, clock) else w;
    var insts := if rollover then p.instances + [[]] else p.instances;
    if rollover {
      NewInstanceAgrees(w.instances, p.instances, p.q.offered);
    }
    assert SameInstances(v.instances, insts, p.q.offered);
    AppendAgrees(v.instances, insts, p.q.offered, id);
    CountFeedsNothing(c, Feed(v, p.q.offered[id]), fps, now);
  }

  predicate CountIsLength(w: WriterState)
    requires w.instances != []
  {
    w.frameCount == |w.instances[|w.instances| - 1]|
  }

  lemma IngestCounts(c: Config, w: WriterState, t: Taken)
    requires c.Sane() && w.instances != [] && CountIsLength(w)
    ensures var r := Ingest(c, w, t.frame, t.clock, t.fps, t.now);
            r.instances != [] && CountIsLength(r)
  {
    var v := if t.clock.yday != w.yday then RollOver(w, t.clock) else w;
    assert CountIsLength(v);
    CountFeedsNothing(c, Feed(v, t.frame), t.fps, t.now);
  }

  /** A marker's frame number is the frame's place in its instance: over every run the frame count is the
    * number of frames fed to the open instance. */
  lemma {:induction false} FrameCountIsPlace(c: Config, dbs: map<Date, EventDb>, rows: Table, clock: Clock,
                                             taken: seq<Taken>)
    requires c.Sane()
    ensures var r := Run(c, Boot(dbs, rows, clock), taken);
            CountIsLength(r)
  {
    hide Ingest;
    if taken != [] {
      var t := taken[|taken| - 1];
      FrameCountIsPlace(c, dbs, rows, clock, taken[..|taken| - 1]);
      IngestCounts(c, Run(c, Boot(dbs, rows, clock), taken[..|taken| - 1]), t);
    }
  }

  // ------------------------------------------- what each frame of a run does

  /** The state after the first k frames. */
  function At(c: Config, w: WriterState, taken: seq<Taken>, k: nat): (r: WriterState)
    requires c.Sane() && w.instances != [] && k <= |taken|
    ensures r.instances != []
  {
    Run(c, w, taken[..k])
  }

  function IngestTaken(c: Config, w: WriterState, t: Taken): (r: WriterState)
    requires c.Sane() && w.instances != []
    ensures r.instances != []
  {
    Ingest(c, w, t.frame, t.clock, t.fps, t.now)
  }

  lemma AtStep(c: Config, w: WriterState, taken: seq<Taken>, k: nat)
    requires c.Sane() && w.instances != [] && k < |taken|
    ensures At(c, w, taken, k + 1) == IngestTaken(c, At(c, w, taken, k), taken[k])
  {
    assert taken[..k + 1][..k] == taken[..k];
  }

  /** The frame went into an HLS instance. */
  predicate WasFed(w: WriterState, r: WriterState)
  {
    |Flatten(r.instances)| > |Flatten(w.instances)|
  }

  /** An input carries the frame's bytes and flag, under its time in whole milliseconds, cut toward 0. */
  predicate FedOk(x: Fed, f: FQ.Frame)
  {
    && x.bytes == f.bytes && x.isKey == f.isKey
    && (if f.ptsUs >= 0 then x.ptsMs * 1000 <= f.ptsUs < x.ptsMs * 1000 + 1000
        else x.ptsMs * 1000 - 1000 < f.ptsUs <= x.ptsMs * 1000)
  }

  lemma FedOfOk(f: FQ.Frame)
    ensures FedOk(FedOf(f), f)
  {
    DivBounds(f.ptsUs, 1000);
    DivBounds(-f.ptsUs, 1000);
  }

  lemma FlattenOpens(s: seq<seq<Fed>>)
    ensures Flatten(s + [[]]) == Flatten(s)
  {
    FlattenSnoc(s, []);
  }

  /** What is fed is the frame taken, at the end of the open instance. */
  lemma IngestFeeds(c: Config, w: WriterState, t: Taken)
    requires c.Sane() && w.instances != []
    ensures var r := IngestTaken(c, w, t);
            && |r.instances| == |w.instances| + (if t.clock.yday != w.yday then 1 else 0)
            && (WasFed(w, r) <==> r.seenKeyframe)
            && (r.seenKeyframe <==> t.frame.isKey || (w.seenKeyframe && t.clock.yday == w.yday))
            && Flatten(r.instances) == Flatten(w.instances) + (if WasFed(w, r) then [FedOf(t.frame)] else [])
            && FedOk(FedOf(t.frame), t.frame)
  {
    var v := if t.clock.yday != w.yday then RollOver(w, t.clock) else w;
    FlattenOpens(w.instances);
    FlattenAppend(v.instances, FedOf(t.frame));
    FedOfOk(t.frame);
    CountFeedsNothing(c, Feed(v, t.frame), t.fps, t.now);
  }

  /** Frame k of the run adds a marker. */
  predicate MarksAt(c: Config, w: WriterState, taken: seq<Taken>, k: nat)
    requires c.Sane() && w.instances != [] && k < |taken|
  {
    var s, r := At(c, w, taken, k), At(c, w, taken, k + 1);
    |Db(r.dbs, r.date).marks| > |Db(s.dbs, r.date).marks|
  }

  /** The time of the last marker before frame k, and at the start what the writer starts with. */
  function LastMark(c: Config, w: WriterState, taken: seq<Taken>, k: nat): int
    requires c.Sane() && w.instances != [] && k <= |taken|
  {
    if k == 0 then w.lastMotionMs
    else if MarksAt(c, w, taken, k - 1) then taken[k - 1].now
    else LastMark(c, w, taken, k - 1)
  }

  /** A marker is due for the frame that leads from w to r. */
  predicate MarkDue(c: Config, w: WriterState, r: WriterState, t: Taken, last: int)
  {
    WasFed(w, r) && t.fps == c.fpsHigh && t.now - last >= c.debounceMs
  }

  /** The step from w to r adds exactly the markers `added`, to the day being recorded. */
  ghost predicate AddsMarks(w: WriterState, r: WriterState, added: seq<Mark>)
  {
    forall d :: Db(r.dbs, d).marks == Db(w.dbs, d).marks + (if d == r.date then added else [])
  }

  lemma CountMarks(c: Config, w: WriterState, fps: int, now: int)
    requires c.Sane()
    ensures var r, due := Count(c, w, fps, now), fps == c.fpsHigh && now - w.lastMotionMs >= c.debounceMs;
            && AddsMarks(w, r, if due then [Mark(r.segment, r.frameCount)] else [])
            && r.lastMotionMs == (if due then now else w.lastMotionMs) && r.frameCount == w.frameCount
            && r.segment == w.segment && r.date == w.date
  {
  }

  lemma IngestMarks(c: Config, w: WriterState, t: Taken)
    requires c.Sane() && w.instances != []
    ensures var r := IngestTaken(c, w, t);
            var due := MarkDue(c, w, r, t, w.lastMotionMs);
            && AddsMarks(w, r, if due then [Mark(r.segment, r.frameCount)] else [])
            && r.lastMotionMs == (if due then t.now else w.lastMotionMs)
  {
    IngestFeeds(c, w, t);
    var v := if t.clock.yday != w.yday then RollOver(w, t.clock) else w;
    assert AddsMarks(w, v, []);
    if v.seenKeyframe || t.frame.isKey {
      CountMarks(c, Feed(v, t.frame), t.fps, t.now);
    }
  }

  lemma MarkStep(c: Config, w: WriterState, taken: seq<Taken>, k: nat)
    requires c.Sane() && w.instances != [] && k < |taken|
    ensures var s, r := At(c, w, taken, k), At(c, w, taken, k + 1);
            && (MarksAt(c, w, taken, k) <==> MarkDue(c, s, r, taken[k], s.lastMotionMs))
            && AddsMarks(s, r, if MarksAt(c, w, taken, k) then [Mark(r.segment, r.frameCount)] else [])
            && r.lastMotionMs == (if MarksAt(c, w, taken, k) then taken[k].now else s.lastMotionMs)
  {
    AtStep(c, w, taken, k);
    IngestMarks(c, At(c, w, taken, k), taken[k]);
    hide At, IngestTaken, WasFed;
  }

  lemma {:induction false} LastMarkIsKept(c: Config, w: WriterState, taken: seq<Taken>, k: nat)
    requires c.Sane() && w.instances != [] && k <= |taken|
    ensures At(c, w, taken, k).lastMotionMs == LastMark(c, w, taken, k)
  {
    if k > 0 {
      LastMarkIsKept(c, w, taken, k - 1);
      MarkStep(c, w, taken, k - 1);
      hide At, MarksAt, MarkDue;
    }
  }

  /** Markers, exactly: over every run a frame gets one if and only if it is fed to an HLS instance at the
    * high rate, at least the debounce time after the last marker; it names the open segment and the
    * frame's number, and no marker of any day is ever changed or removed. */
  lemma MarksExactly(c: Config, w: WriterState, taken: seq<Taken>, k: nat)
    requires c.Sane() && w.instances != [] && k < |taken|
    ensures var s, r := At(c, w, taken, k), At(c, w, taken, k + 1);
            && (MarksAt(c, w, taken, k) <==> MarkDue(c, s, r, taken[k], LastMark(c, w, taken, k)))
            && AddsMarks(s, r, if MarksAt(c, w, taken, k) then [Mark(r.segment, r.frameCount)] else [])
  {
    LastMarkIsKept(c, w, taken, k);
    MarkStep(c, w, taken, k);
    hide At, MarksAt, MarkDue, AddsMarks;
  }

  // ------------------------------------------------------ the stored totals

  /** What a frame does to the segment rows.  A rollover adds one row to the new day's table, which becomes
    * the open one, and leaves the old segment's row at its frame count; the open row's total becomes the
    * frame count if `stored`, and otherwise stays, or is -1 in a new row; no other total changes. */
  ghost predicate TotalsFollow(w: WriterState, r: WriterState, rolled: bool, stored: bool)
  {
    && (forall d :: |Db(r.dbs, d).totals| == |Db(w.dbs, d).totals| + (if rolled && d == r.date then 1 else 0))
    && r.segment == (if rolled then |Db(w.dbs, r.date).totals| else w.segment)
    && w.segment < |Db(w.dbs, w.date).totals| && r.segment < |Db(r.dbs, r.date).totals|
    && Db(r.dbs, r.date).totals[r.segment]
       == (if stored then r.frameCount else if rolled then -1 else Db(w.dbs, w.date).totals[w.segment])
    && (rolled ==> Db(r.dbs, w.date).totals[w.segment] == w.frameCount)
    && forall d, s: nat :: s < |Db(w.dbs, d).totals| && !(d == w.date && s == w.segment) ==>
         Db(r.dbs, d).totals[s] == Db(w.dbs, d).totals[s]
  }

  lemma CountTotals(c: Config, w: WriterState, fps: int, now: int)
    requires c.Sane() && w.segment < |Db(w.dbs, w.date).totals|
    ensures TotalsFollow(w, Count(c, w, fps, now), false,
                         fps != c.fpsHigh || w.frameCount % (c.fpsHigh / c.fpsLow) == 0)
  {
    var m := if fps == c.fpsHigh && now - w.lastMotionMs >= c.debounceMs then AddMotion(w, now) else w;
    assert TotalsFollow(w, m, false, false);
  }

  lemma RollOverTotals(w: WriterState, clock: Clock)
    requires w.segment < |Db(w.dbs, w.date).totals|
    ensures TotalsFollow(w, RollOver(w, clock), true, false)
  {
  }

  /** Stored totals, exactly: over every run the open segment's total becomes its frame count when a frame
    * is fed at another rate than the high one, or as a multiple of fpsHigh / fpsLow, and only then; a
    * rollover stores the old segment's, and no other row ever changes. */
  lemma TotalsExactly(c: Config, w: WriterState, taken: seq<Taken>, k: nat)
    requires c.Sane() && Consistent(c, w) && k < |taken|
    ensures var s, r := At(c, w, taken, k), At(c, w, taken, k + 1);
            var due := taken[k].fps != c.fpsHigh || r.frameCount % (c.fpsHigh / c.fpsLow) == 0;
            TotalsFollow(s, r, taken[k].clock.yday != s.yday, WasFed(s, r) && due)
  {
    RunIsConsistent(c, w, taken[..k]);
    AtStep(c, w, taken, k);
    IngestTotals(c, At(c, w, taken, k), taken[k]);
    hide *;
  }

  lemma IngestTotals(c: Config, w: WriterState, t: Taken)
    requires c.Sane() && Consistent(c, w)
    ensures var r := IngestTaken(c, w, t);
            var due := t.fps != c.fpsHigh || r.frameCount % (c.fpsHigh / c.fpsLow) == 0;
            TotalsFollow(w, r, t.clock.yday != w.yday, WasFed(w, r) && due)
  {
    IngestFeeds(c, w, t);
    assert w.segment < |Db(w.dbs, w.date).totals|;
    var rolled := t.clock.yday != w.yday;
    var v := if rolled then RollOver(w, t.clock) else w;
    if rolled {
      RollOverTotals(w, t.clock);
    }
    var r := IngestTaken(c, w, t);
    if v.seenKeyframe || t.frame.isKey {
      var u := Feed(v, t.frame);
      var due := t.fps != c.fpsHigh || u.frameCount % (c.fpsHigh / c.fpsLow) == 0;
      assert u.segment < |Db(u.dbs, u.date).totals| by {
        hide Count;
      }
      CountTotals(c, u, t.fps, t.now);
      CountFeedsNothing(c, u, t.fps, t.now);
      CountMarks(c, u, t.fps, t.now);
      assert r == Count(c, u, t.fps, t.now);
      hide Count, RollOver, TotalsFollow, Flatten, AddsMarks, Consistent, Db, WasFed, FedOk, FedOf;
      JoinTotals(w, v, u, r, rolled, due);
    }
  }

  lemma JoinTotals(s: WriterState, v: WriterState, u: WriterState, r: WriterState, rolled: bool, stored: bool)
    requires if rolled then TotalsFollow(s, v, true, false) else v == s
    requires u.dbs == v.dbs && u.date == v.date && u.segment == v.segment && TotalsFollow(u, r, false, stored)
    requires r.date == u.date
    ensures TotalsFollow(s, r, rolled, stored)
  {
  }

  // --------------------------------------------------------- the day's row

  /** What a frame, or the start, does to the table of days: the day being recorded has a row, a missing
    * one appearing as ACTIVE with count 0, its count becomes the open segment's with a marker and
    * otherwise stays; no other row changes. */
  ghost predicate RowsFollow(before: Table, w: WriterState, marked: bool)
  {
    && w.date in w.rows
    && w.rows[w.date].state == (if w.date in before then before[w.date].state else ACTIVE)
    && w.rows[w.date].motionCount
       == (if marked then w.motionCount else if w.date in before then before[w.date].motionCount else 0)
    && forall d :: d != w.date ==> (d in w.rows <==> d in before) && (d in before ==> w.rows[d] == before[d])
  }

  /** Once the open segment has a marker, the day's row holds its motion count. */
  predicate RowHoldsCount(w: WriterState)
  {
    w.date in w.rows && (w.motionCount > 0 ==> w.rows[w.date].motionCount == w.motionCount)
  }

  lemma CountRows(c: Config, w: WriterState, fps: int, now: int)
    requires c.Sane() && RowHoldsCount(w)
    ensures var r, due := Count(c, w, fps, now), fps == c.fpsHigh && now - w.lastMotionMs >= c.debounceMs;
            RowsFollow(w.rows, r, due) && RowHoldsCount(r) && r.date == w.date
  {
  }

  lemma RollRows(w: WriterState, clock: Clock)
    ensures RowsFollow(w.rows, RollOver(w, clock), false) && RowHoldsCount(RollOver(w, clock))
  {
  }

  lemma JoinRows(before: Table, v: WriterState, r: WriterState, marked: bool)
    requires v.date == r.date && RowsFollow(v.rows, r, marked)
    requires v.rows == before || RowsFollow(before, v, false)
    ensures RowsFollow(before, r, marked)
  {
  }

  lemma IngestRows(c: Config, w: WriterState, t: Taken)
    requires c.Sane() && w.instances != [] && RowHoldsCount(w)
    ensures var r := IngestTaken(c, w, t);
            RowsFollow(w.rows, r, MarkDue(c, w, r, t, w.lastMotionMs)) && RowHoldsCount(r)
  {
    IngestFeeds(c, w, t);
    var v := if t.clock.yday != w.yday then RollOver(w, t.clock) else w;
    RollRows(w, t.clock);
    assert RowHoldsCount(v);
    if v.seenKeyframe || t.frame.isKey {
      var u, r := Feed(v, t.frame), IngestTaken(c, w, t);
      CountRows(c, u, t.fps, t.now);
      hide Count, RollOver, WasFed, FedOk, FedOf, Flatten, RowHoldsCount;
      JoinRows(w.rows, v, r, t.fps == c.fpsHigh && t.now - w.lastMotionMs >= c.debounceMs);
    }
  }

  lemma BootRows(dbs: map<Date, EventDb>, rows: Table, clock: Clock)
    ensures RowsFollow(rows, Boot(dbs, rows, clock), false) && RowHoldsCount(Boot(dbs, rows, clock))
  {
  }

  lemma {:induction false} RowAt(c: Config, dbs: map<Date, EventDb>, rows: Table, clock: Clock,
                                 taken: seq<Taken>, k: nat)
    requires c.Sane() && k <= |taken|
    ensures RowHoldsCount(At(c, Boot(dbs, rows, clock), taken, k))
  {
    if k == 0 {
      BootRows(dbs, rows, clock);
    } else {
      var w := Boot(dbs, rows, clock);
      RowAt(c, dbs, rows, clock, taken, k - 1);
      AtStep(c, w, taken, k - 1);
      IngestRows(c, At(c, w, taken, k - 1), taken[k - 1]);
    }
  }

  /** The day being recorded has its row, in every state of every run: the start and each frame, through
    * any rollovers, leave the table exactly as RowsFollow says. */
  lemma RecordedDayHasRow(c: Config, dbs: map<Date, EventDb>, rows: Table, clock: Clock, taken: seq<Taken>, k: nat)
    requires c.Sane() && k <= |taken|
    ensures var w := Boot(dbs, rows, clock);
            && RowHoldsCount(At(c, w, taken, k))
            && (k == 0 ==> RowsFollow(rows, At(c, w, taken, k), false))
            && (k > 0 ==>
                  RowsFollow(At(c, w, taken, k - 1).rows, At(c, w, taken, k), MarksAt(c, w, taken, k - 1)))
  {
    var w := Boot(dbs, rows, clock);
    RowAt(c, dbs, rows, clock, taken, k);
    if k == 0 {
      BootRows(dbs, rows, clock);
    } else {
      RowAt(c, dbs, rows, clock, taken, k - 1);
      AtStep(c, w, taken, k - 1);
      IngestRows(c, At(c, w, taken, k - 1), taken[k - 1]);
      MarksExactly(c, w, taken, k - 1);
      LastMarkIsKept(c, w, taken, k - 1);
    }
  }

  // --------------------------------------------------------- the calendar

  /** The clock read last before frame k. */
  function ClockBefore(clock: Clock, taken: seq<Taken>, k: nat): Clock
    requires k <= |taken|
  {
    if k == 0 then clock else taken[k - 1].clock
  }

  lemma IngestReadsClock(c: Config, w: WriterState, t: Taken)
    requires c.Sane() && w.instances != []
    ensures var r := IngestTaken(c, w, t);
            r.yday == t.clock.yday && r.date == if t.clock.yday != w.yday then t.clock.date else w.date
  {
  }

  lemma YdayFollows(c: Config, w: WriterState, clock: Clock, taken: seq<Taken>, k: nat)
    requires c.Sane() && w.instances != [] && w.yday == clock.yday && k <= |taken|
    ensures At(c, w, taken, k).yday == ClockBefore(clock, taken, k).yday
    ensures k < |taken| ==>
              At(c, w, taken, k + 1).date
              == if taken[k].clock.yday != ClockBefore(clock, taken, k).yday then taken[k].clock.date
                 else At(c, w, taken, k).date
  {
    if k > 0 {
      AtStep(c, w, taken, k - 1);
      IngestReadsClock(c, At(c, w, taken, k - 1), taken[k - 1]);
    }
    if k < |taken| {
      AtStep(c, w, taken, k);
      IngestReadsClock(c, At(c, w, taken, k), taken[k]);
    }
    hide IngestTaken;
  }

  lemma {:induction false} DateFollows(c: Config, w: WriterState, clock: Clock, taken: seq<Taken>, k: nat)
    requires c.Sane() && w.instances != [] && w.yday == clock.yday && w.date == clock.date && k <= |taken|
    requires forall j :: 0 <= j < |taken| ==> YdayTells(clock, taken, j)
    ensures At(c, w, taken, k).date == ClockBefore(clock, taken, k).date
  {
    if k > 0 {
      DateFollows(c, w, clock, taken, k - 1);
      YdayFollows(c, w, clock, taken, k - 1);
      assert YdayTells(clock, taken, k - 1);
    }
  }

  /** The date has changed at frame k only if the day of the year has. */
  predicate YdayTells(clock: Clock, taken: seq<Taken>, k: nat)
    requires k < |taken|
  {
    taken[k].clock.yday == ClockBefore(clock, taken, k).yday ==>
      taken[k].clock.date == ClockBefore(clock, taken, k).date
  }

  /** The calendar, exactly: in every state of every run the writer records under the date it read last, if
    * and only if no two readings in succession have one day of the year and different dates. */
  lemma CalendarExactly(c: Config, dbs: map<Date, EventDb>, rows: Table, clock: Clock, taken: seq<Taken>)
    requires c.Sane()
    ensures (forall k :: 0 <= k <= |taken| ==>
               At(c, Boot(dbs, rows, clock), taken, k).date == ClockBefore(clock, taken, k).date)
       <==> (forall k :: 0 <= k < |taken| ==> YdayTells(clock, taken, k))
  {
    var w := Boot(dbs, rows, clock);
    if forall k :: 0 <= k < |taken| ==> YdayTells(clock, taken, k) {
      forall k | 0 <= k <= |taken| ensures At(c, w, taken, k).date == ClockBefore(clock, taken, k).date {
        DateFollows(c, w, clock, taken, k);
      }
    } else {
      var k :| 0 <= k < |taken| && !YdayTells(clock, taken, k);
      YdayFollows(c, w, clock, taken, k);
      assert At(c, w, taken, k).date != ClockBefore(clock, taken, k).date
          || At(c, w, taken, k + 1).date != ClockBefore(clock, taken, k + 1).date;
    }
  }

  // --------------------------------------------------------------- the code

  /** The writer's state and the two databases behind it. */
  class Writer {
    const config: Config
    var date: Date
    var dayOfYear: int
    var currentSegment: nat
    var frameCount: nat
    var motionCount: nat
    var lastFps: int
    var lastMotionMs: int
    var ptsMs: int
    var seenKeyframe: bool
    var instances: seq<seq<Fed>>
    var dbs: map<Date, EventDb>
    var rows: Table

    function View(): WriterState
      reads this
    {
      WriterState(date, dayOfYear, currentSegment, frameCount, motionCount, lastMotionMs, seenKeyframe,
                  instances, dbs, rows)
    }

    ghost predicate Valid()
      reads this
    {
      config.Sane() && instances != []
    }

    constructor (config: Config, dbs: map<Date, EventDb>, rows: Table, clock: Clock)
      requires config.Sane()
      ensures Valid() && this.config == config && View() == Boot(dbs, rows, clock)
    {
      this.config := config;
      date, dayOfYear, currentSegment, frameCount, motionCount, lastFps := 0, 0, 0, 0, 0, 0;
      lastMotionMs, ptsMs, seenKeyframe, instances, this.dbs, this.rows := 0, 0, false, [], dbs, rows;
      new;
      OpenTodaysSegment(clock);
      EnsureTodaysRow();
    }

    /** event_db_update_total_frames */
    method UpdateTotalFrames()
      modifies this`dbs
      ensures View() == StoreTotal(old(View()))
    {
      var db := Db(dbs, date);
      if currentSegment < |db.totals| {
        db := db.(totals := db.totals[currentSegment := frameCount]);
      }
      dbs := dbs[date := db];
    }

    /** event_db_open and event_db_add_segment: a new row at the end of the day's table. */
    method AddSegment()
      modifies this`currentSegment, this`dbs
      ensures var db := Db(old(dbs), date);
              View() == old(View()).(segment := |db.totals|, dbs := old(dbs)[date := db.(totals := db.totals + [-1])])
    {
      var db := Db(dbs, date);
      currentSegment := |db.totals|;
      dbs := dbs[date := db.(totals := db.totals + [-1])];
    }

    /** open_today */
    method OpenTodaysSegment(clock: Clock)
      modifies this
      ensures View() == OpenToday(old(View()), clock) && instances != []
    {
      date := clock.date;
      dayOfYear := clock.yday;
      AddSegment();
      frameCount, motionCount, lastFps, ptsMs := 0, 0, config.fpsLow, 0;
      seenKeyframe := false;
      instances := instances + [[]];
    }

    method EnsureTodaysRow()
      modifies this`rows
      ensures View() == old(View()).(rows := EnsureDay(old(rows), date))
    {
      if date !in rows {
        rows := rows[date := Day(0, ACTIVE)];
      }
    }

    /** rollover_day: the old segment's total is stored before the new one opens. */
    method RolloverDay(clock: Clock)
      requires Valid()
      modifies this
      ensures Valid() && View() == RollOver(old(View()), clock)
    {
      UpdateTotalFrames();
      OpenTodaysSegment(clock);
      EnsureTodaysRow();
    }

    /** event_db_add_motion and meta_db_upsert_motion_count for the current frame. */
    method RecordMotion(now: int)
      modifies this
      ensures View() == AddMotion(old(View()), now)
    {
      motionCount := motionCount + 1;
      var db := Db(dbs, date);
      dbs := dbs[date := db.(marks := db.marks + [Mark(currentSegment, frameCount)])];
      rows := rows[date := if date in rows then rows[date].(motionCount := motionCount)
                           else Day(motionCount, ACTIVE)];
      lastMotionMs := now;
    }

    /** ingest_frame up to the cleanup. */
    method IngestFrame(f: FQ.Frame, clock: Clock, fps: int, now: int)
      requires Valid()
      modifies this
      ensures Valid() && View() == Ingest(config, old(View()), f, clock, fps, now)
    {
      if clock.yday != dayOfYear {
        RolloverDay(clock);
      }
      if !seenKeyframe {
        if !f.isKey {
          return;
        }
        seenKeyframe := true;
      }
      ptsMs := Retimer.CDiv(f.ptsUs, 1000);
      var n := |instances| - 1;
      instances := instances[..n] + [instances[n] + [Fed(f.bytes, f.isKey, ptsMs)]];
      frameCount := frameCount + 1;
      CountFrame(fps, now);
    }

    /** ingest_frame's counters and rows for a frame just fed. */
    method CountFrame(fps: int, now: int)
      requires Valid()
      modifies this
      ensures Valid() && View() == Count(config, old(View()), fps, now)
    {
      lastFps := fps;
      if fps == config.fpsHigh {
        if now - lastMotionMs >= config.debounceMs {
          RecordMotion(now);
        }
        var ratio := config.fpsHigh / config.fpsLow;
        if frameCount % ratio == 0 {
          UpdateTotalFrames();
        }
      } else {
        UpdateTotalFrames();
      }
    }

    /** The loop of writer_thread over the frames popped until the queue is closed and empty, and the
      * close of the last segment after it. */
    method Drain(taken: seq<Taken>)
      requires Valid()
      modifies this
      ensures Valid() && View() == StoreTotal(Run(config, old(View()), taken))
    {
      for i := 0 to |taken|
        invariant Valid() && View() == Run(config, old(View()), taken[..i])
      {
        assert taken[..i + 1][..i] == taken[..i];
        IngestFrame(taken[i].frame, taken[i].clock, taken[i].fps, taken[i].now);
      }
      assert taken[..|taken|] == taken;
      UpdateTotalFrames();
    }
  }
}
