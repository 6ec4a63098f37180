/** The writer's days over whole runs: recording, rollover, the deletion of old days one directory
  * entry at a time, and crashes and restarts at any step. */
module Lifecycle {
  import opened Base
  import opened Retention

  /** A day's directory: its numbered segment directories, and whether removal has taken anything
    * out of it. */
  datatype Dir = Dir(subdirs: set<nat>, touched: bool)

  datatype Path = Path(date: Date, interrupt: nat, ts: nat)

  /** What the writer is recording into. */
  datatype Session = Session(date: Date, interrupt: nat, nextTs: nat)

  /** The removal under way: its PENDING day, and whether the directory is gone. */
  datatype Removal = Removal(date: Date, done: bool)

  datatype World = World(
    rows: Table,
    dirs: map<Date, Dir>,
    session: Option<Session>,
    removal: Option<Removal>,
    clock: Date,
    latest: Date,         // the latest day ever opened
    written: seq<Path>)   // every segment file written, in order

  datatype Step =
    | Tick(now: Date)
    | Open                          // open_today, at the start or at a rollover
    | RecordDay                     // meta_db_ensure_day
    | RecordMotion(count: int)      // meta_db_upsert_motion_count
    | WriteTs                       // one handler call
    | Mark(d: Date)                 // retention_schedule_delete on the oldest candidate
    | StartRemoval(d: Date)         // the query for a PENDING day
    | RemoveSome(gone: set<nat>)    // remove_path_tree unlinks entries
    | RemoveDir                     // and at last the directory
    | GiveUpRemoval                 // remove_path_tree or the row's deletion fails
    | DropRow
    | Crash

  predicate Enabled(w: World, s: Step)
  {
    match s
    case Tick(_) => true
    case Crash => true
    case Open => w.removal.None?
    case RecordDay => w.session.Some? && w.removal.None?
    case RecordMotion(_) => w.session.Some? && w.removal.None?
    case WriteTs => w.session.Some? && w.removal.None?
    case Mark(d) => w.session.Some? && w.removal.None? && d in Deletable(w.rows, w.session.value.date)
    case StartRemoval(d) => w.session.Some? && w.removal.None? && d in Pending(w.rows)
    case RemoveSome(_) => w.removal.Some? && !w.removal.value.done
    case RemoveDir => w.removal.Some? && !w.removal.value.done
    case GiveUpRemoval => w.removal.Some?
    case DropRow => w.removal.Some? && w.removal.value.done
  }

  function SubdirsOf(w: World, d: Date): set<nat>
  {
    if d in w.dirs then w.dirs[d].subdirs else {}
  }

  function Next(w: World, s: Step): World
    requires Enabled(w, s)
  {
    match s
    case Tick(now) => w.(clock := now)
    case Open =>
      var idx := |SubdirsOf(w, w.clock)|;
      var touched := w.clock in w.dirs && w.dirs[w.clock].touched;
      w.(dirs := w.dirs[w.clock := Dir(SubdirsOf(w, w.clock) + {idx}, touched)],
         session := Some(Session(w.clock, idx, 0)),
         latest := w.clock)
    case RecordDay => w.(rows := EnsureDay(w.rows, w.session.value.date))
    case RecordMotion(count) => w.(rows := UpsertMotionCount(w.rows, w.session.value.date, count))
    case WriteTs =>
      var s := w.session.value;
      w.(written := w.written + [Path(s.date, s.interrupt, s.nextTs)],
         session := Some(s.(nextTs := s.nextTs + 1)))
    case Mark(d) => w.(rows := ScheduleDelete(w.rows, d))
    case StartRemoval(d) => w.(removal := Some(Removal(d, false)))
    case RemoveSome(gone) =>
      var d := w.removal.value.date;
      if d in w.dirs then w.(dirs := w.dirs[d := Dir(w.dirs[d].subdirs - gone, true)]) else w
    case RemoveDir =>
      var d := w.removal.value.date;
      w.(dirs := w.dirs - {d}, removal := Some(Removal(d, true)))
    case GiveUpRemoval => w.(removal := None)
    case DropRow => w.(rows := w.rows - {w.removal.value.date}, removal := None)
    case Crash => w.(session := None, removal := None)
  }

  ghost predicate IsRun(ws: seq<World>, steps: seq<Step>)
  {
    && |ws| == |steps| + 1
    && forall i :: 0 <= i < |steps| ==> Enabled(ws[i], steps[i]) && ws[i + 1] == Next(ws[i], steps[i])
  }

  // ---------------------------------------- with no assumption on the clock

  /** A directory that removal has touched belongs to a PENDING row, as does the removal under way. */
  ghost predicate TouchedArePending(w: World)
  {
    && (forall d :: d in w.dirs && w.dirs[d].touched ==> d in Pending(w.rows))
    && (w.removal.Some? ==>
          && w.removal.value.date in Pending(w.rows)
          && (w.removal.value.done ==> w.removal.value.date !in w.dirs))
  }

  /** A row only moves from ACTIVE to PENDING to deleted, and one appears only as ACTIVE, for the
    * day being recorded. */
  ghost predicate RowMoves(w: World, r: World)
  {
    forall d: Date :: RowMove(w, r, d)
  }

  predicate RowMove(w: World, r: World, d: Date)
  {
    && (d in w.rows && w.rows[d].state == ACTIVE ==> d in r.rows)
    && (d in w.rows && w.rows[d].state == PENDING && d in r.rows ==> r.rows[d].state == PENDING)
    && (d !in w.rows && d in r.rows ==>
          r.rows[d].state == ACTIVE && w.session.Some? && w.session.value.date == d)
  }

  lemma StepMovesRows(w: World, s: Step)
    requires Enabled(w, s) && TouchedArePending(w)
    ensures RowMoves(w, Next(w, s))
  {
  }

  lemma StepKeepsTouched(w: World, s: Step)
    requires Enabled(w, s) && TouchedArePending(w)
    ensures TouchedArePending(Next(w, s))
  {
  }

  /** In every run, whatever the clock does. */
  lemma {:induction false} RunKeepsTouched(ws: seq<World>, steps: seq<Step>)
    requires IsRun(ws, steps) && TouchedArePending(ws[0])
    ensures forall i :: 0 <= i < |ws| ==> TouchedArePending(ws[i])
    ensures forall i, j :: 0 <= i && j == i + 1 && j < |ws| ==> RowMoves(ws[i], ws[j])
    decreases |steps|
  {
    if steps != [] {
      var n := |steps| - 1;
      assert IsRun(ws[..n + 1], steps[..n]);
      RunKeepsTouched(ws[..n + 1], steps[..n]);
      assert ws[..n + 1][n] == ws[n];
      StepKeepsTouched(ws[n], steps[n]);
      StepMovesRows(ws[n], steps[n]);
      forall i, j | 0 <= i && j == i + 1 && j < |ws| ensures RowMoves(ws[i], ws[j]) {
        if i < n {
          assert RowMoves(ws[..n + 1][i], ws[..n + 1][j]);
        }
      }
      forall i | 0 <= i < |ws| ensures TouchedArePending(ws[i]) {
        if i <= n {
          assert ws[i] == ws[..n + 1][i];
        }
      }
    }
  }

  // ------------------------------------------------- safety of the recorded day

  /** The day being recorded is not PENDING, no removal is under way for it, and its directory and
    * the open segment directory are there, nothing taken out. */
  ghost predicate DayIsSafe(w: World)
  {
    w.session.Some? ==>
      var d := w.session.value.date;
      && d !in Pending(w.rows)
      && !(w.removal.Some? && w.removal.value.date == d)
      && d in w.dirs && !w.dirs[d].touched && w.session.value.interrupt in w.dirs[d].subdirs
  }

  /** The guard that opening a day would need: today's row is not waiting for deletion. */
  predicate OpensLiveDay(w: World, s: Step)
  {
    s.Open? ==> w.clock !in Pending(w.rows)
  }

  lemma StepKeepsDaySafe(w: World, s: Step)
    requires Enabled(w, s) && TouchedArePending(w) && DayIsSafe(w) && OpensLiveDay(w, s)
    ensures DayIsSafe(Next(w, s))
  {
    if s.Mark? {
      ScheduledIsPending(w.rows, w.session.value.date, s.d);
    }
  }

  lemma {:induction false} RunKeepsDaySafe(ws: seq<World>, steps: seq<Step>, i: nat)
    requires IsRun(ws, steps) && ws[0].session.None? && TouchedArePending(ws[0]) && i < |ws|
    requires forall k :: 0 <= k < |steps| ==> OpensLiveDay(ws[k], steps[k])
    ensures DayIsSafe(ws[i])
    decreases i
  {
    if i > 0 {
      RunKeepsDaySafe(ws, steps, i - 1);
      RunKeepsTouched(ws, steps);
      StepKeepsDaySafe(ws[i - 1], steps[i - 1]);
    }
  }

  /** Retention safety, exactly: over every run with crashes and restarts at any step and whatever the
    * clock does, the day being recorded is safe in every state if and only if no day is ever opened
    * while its row waits for deletion. */
  lemma DaySafeExactly(ws: seq<World>, steps: seq<Step>)
    requires IsRun(ws, steps) && ws[0].session.None? && TouchedArePending(ws[0])
    ensures (forall i :: 0 <= i < |ws| ==> DayIsSafe(ws[i]))
       <==> (forall k :: 0 <= k < |steps| ==> OpensLiveDay(ws[k], steps[k]))
  {
    if forall k :: 0 <= k < |steps| ==> OpensLiveDay(ws[k], steps[k]) {
      forall i | 0 <= i < |ws| ensures DayIsSafe(ws[i]) {
        RunKeepsDaySafe(ws, steps, i);
      }
    } else {
      var k :| 0 <= k < |steps| && !OpensLiveDay(ws[k], steps[k]);
      assert ws[k + 1] == Next(ws[k], steps[k]);
      assert !DayIsSafe(ws[k + 1]);
    }
  }

  // ------------------------------------------- when the date never goes back

  /** Segment directories are numbered from 0 without gaps. */
  ghost predicate Contiguous(s: set<nat>)
  {
    forall i :: i in s <==> 0 <= i < |s|
  }

  /** What a card may look like when the writer starts: no day later than today, today not PENDING,
    * and directories as earlier runs left them. */
  ghost predicate Initial(w: World)
  {
    && w.session.None? && w.removal.None? && w.latest == w.clock && w.written == []
    && (forall d :: d in w.rows ==> d <= w.clock)
    && w.clock !in Pending(w.rows)
    && TouchedArePending(w)
    && (forall d :: d in w.dirs && !w.dirs[d].touched ==> Contiguous(w.dirs[d].subdirs))
  }

  ghost predicate RowsInOrder(w: World)
  {
    && w.latest <= w.clock
    && (forall d :: d in w.rows ==> d <= w.latest)
    && (forall d :: d in Pending(w.rows) ==> d < w.latest)
    && (w.session.Some? ==> w.session.value.date == w.latest)
  }

  predicate InSession(p: Path, s: Session)
  {
    p.date == s.date && p.interrupt == s.interrupt
  }

  ghost predicate PathsInOrder(w: World)
  {
    && (forall d :: d in w.dirs && !w.dirs[d].touched ==> Contiguous(w.dirs[d].subdirs))
    && (w.session.Some? ==>
          w.latest in w.dirs && w.session.value.interrupt in w.dirs[w.latest].subdirs)
    && (forall k :: 0 <= k < |w.written| ==>
          && w.written[k].date <= w.latest
          && (w.written[k].date == w.latest ==> w.written[k].interrupt in SubdirsOf(w, w.latest))
          && (w.session.Some? && InSession(w.written[k], w.session.value) ==>
                w.written[k].ts < w.session.value.nextTs))
    && (forall j, k :: 0 <= j < k < |w.written| ==> w.written[j] != w.written[k])
  }

  ghost predicate Forward(w: World, s: Step)
  {
    s.Tick? ==> w.clock <= s.now
  }

  ghost predicate Ordered(w: World)
  {
    TouchedArePending(w) && RowsInOrder(w) && PathsInOrder(w)
  }

  lemma StepKeepsRowsInOrder(w: World, s: Step)
    requires Enabled(w, s) && Forward(w, s) && TouchedArePending(w) && RowsInOrder(w)
    ensures RowsInOrder(Next(w, s))
  {
    var r := Next(w, s);
    match s
    case RecordDay => assert forall d :: d in Pending(r.rows) ==> d in Pending(w.rows);
    case RecordMotion(_) => assert forall d :: d in Pending(r.rows) ==> d in Pending(w.rows);
    case Mark(d) => ScheduledIsPending(w.rows, w.session.value.date, d);
    case DropRow => assert Pending(r.rows) == Pending(w.rows) - {w.removal.value.date};
    case _ =>
  }

  lemma NextIndexIsFresh(s: set<nat>)
    requires Contiguous(s)
    ensures |s| !in s && Contiguous(s + {|s|})
  {
  }

  lemma OpenKeepsPaths(w: World)
    requires Enabled(w, Open) && Ordered(w)
    ensures PathsInOrder(Next(w, Open))
  {
  }

  lemma WriteKeepsPaths(w: World)
    requires Enabled(w, WriteTs) && Ordered(w)
    ensures PathsInOrder(Next(w, WriteTs))
  {
  }

  lemma RemovalKeepsPaths(w: World, s: Step)
    requires Enabled(w, s) && Ordered(w) && (s.RemoveSome? || s.RemoveDir?)
    ensures PathsInOrder(Next(w, s))
  {
  }

  lemma StepKeepsOrdered(w: World, s: Step)
    requires Enabled(w, s) && Forward(w, s) && Ordered(w)
    ensures Ordered(Next(w, s))
  {
    StepKeepsTouched(w, s);
    StepKeepsRowsInOrder(w, s);
    match s
    case Open => OpenKeepsPaths(w);
    case WriteTs => WriteKeepsPaths(w);
    case RemoveSome(_) => RemovalKeepsPaths(w, s);
    case RemoveDir => RemovalKeepsPaths(w, s);
    case _ =>
  }

  lemma InitialIsOrdered(w: World)
    requires Initial(w)
    ensures Ordered(w)
  {
  }

  lemma {:induction false} RunKeepsOrdered(ws: seq<World>, steps: seq<Step>)
    requires IsRun(ws, steps) && Initial(ws[0])
    requires forall i :: 0 <= i < |steps| ==> Forward(ws[i], steps[i])
    ensures forall i :: 0 <= i < |ws| ==> Ordered(ws[i])
    decreases |steps|
  {
    if steps == [] {
      InitialIsOrdered(ws[0]);
    } else {
      var n := |steps| - 1;
      var us := ws[..n + 1];
      assert IsRun(us, steps[..n]);
      assert forall i :: 0 <= i < n ==> us[i] == ws[i] && Forward(us[i], steps[..n][i]);
      RunKeepsOrdered(us, steps[..n]);
      assert us[n] == ws[n];
      StepKeepsOrdered(ws[n], steps[n]);
      forall i | 0 <= i < |ws| ensures Ordered(ws[i]) {
        if i <= n {
          assert ws[i] == us[i];
        }
      }
    }
  }

  /** When dates never go back, no opened day is PENDING, so the recorded day is safe throughout. */
  lemma RecordedDayIsSafe(ws: seq<World>, steps: seq<Step>, i: nat)
    requires IsRun(ws, steps) && Initial(ws[0]) && i < |ws|
    requires forall k :: 0 <= k < |steps| ==> Forward(ws[k], steps[k])
    ensures DayIsSafe(ws[i])
  {
    RunKeepsOrdered(ws, steps);
    forall k | 0 <= k < |steps| ensures OpensLiveDay(ws[k], steps[k]) {
      assert Ordered(ws[k]);
    }
    DaySafeExactly(ws, steps);
  }

  // ------------------------------------------------ the rows of recorded days

  /** Step k takes away the row of day d, whose directory is gone. */
  predicate DropsDay(w: World, s: Step, d: Date)
  {
    s.DropRow? && w.removal.Some? && w.removal.value.date == d && d !in w.dirs
  }

  lemma StepKeepsRow(w: World, s: Step, d: Date)
    requires Enabled(w, s) && TouchedArePending(w) && d in w.rows && !DropsDay(w, s, d)
    ensures d in Next(w, s).rows
  {
  }

  /** In every run with crashes and any clock: once a day has been given its row it keeps one until its
    * directory has been removed, so that retention finds every day on the card. */
  lemma {:induction false} RecordedDayStays(ws: seq<World>, steps: seq<Step>, i: nat, j: nat, d: Date)
    requires IsRun(ws, steps) && TouchedArePending(ws[0]) && i < j < |ws|
    requires steps[i] == RecordDay && ws[i].session.Some? && ws[i].session.value.date == d
    ensures d in ws[j].rows || exists k :: i < k < j && DropsDay(ws[k], steps[k], d)
    decreases j
  {
    RunKeepsTouched(ws, steps);
    var k := j - 1;
    assert Enabled(ws[k], steps[k]) && ws[j] == Next(ws[k], steps[k]);
    if k > i {
      RecordedDayStays(ws, steps, i, k, d);
      if d in ws[k].rows && !DropsDay(ws[k], steps[k], d) {
        StepKeepsRow(ws[k], steps[k], d);
      }
    }
  }

  /** The count that a step writes for day d. */
  predicate CountsFor(w: World, s: Step, d: Date)
  {
    s.RecordMotion? && w.session.Some? && w.session.value.date == d
  }

  /** And the row holds the motion count recorded last, until it goes. */
  lemma {:induction false} RecordedCountStays(ws: seq<World>, steps: seq<Step>, i: nat, j: nat, d: Date)
    requires IsRun(ws, steps) && i < j < |ws| && CountsFor(ws[i], steps[i], d)
    requires forall k :: i < k < j ==> !CountsFor(ws[k], steps[k], d) && !steps[k].DropRow?
    ensures d in ws[j].rows && ws[j].rows[d].motionCount == steps[i].count
    decreases j
  {
    var k := j - 1;
    assert Enabled(ws[k], steps[k]) && ws[j] == Next(ws[k], steps[k]);
    if k > i {
      RecordedCountStays(ws, steps, i, k, d);
    }
  }

  // ------------------------------------------------- what each step leaves

  /** Before step i a step of `begins` was taken, and none of `ends` since. */
  ghost predicate Since(steps: seq<Step>, i: nat, begins: Step -> bool, ends: Step -> bool)
    requires i <= |steps|
  {
    exists j: nat :: j < i && begins(steps[j]) && forall k: nat :: j < k < i ==> !ends(steps[k])
  }

  lemma SinceStep(steps: seq<Step>, i: nat, begins: Step -> bool, ends: Step -> bool)
    requires i < |steps| && !(begins(steps[i]) && ends(steps[i]))
    ensures Since(steps, i + 1, begins, ends)
       <==> begins(steps[i]) || (Since(steps, i, begins, ends) && !ends(steps[i]))
  {
    if Since(steps, i, begins, ends) && !ends(steps[i]) {
      var j: nat :| j < i && begins(steps[j]) && forall k: nat :: j < k < i ==> !ends(steps[k]);
      assert forall k: nat :: j < k < i + 1 ==> !ends(steps[k]);
    }
  }

  function Opens(): Step -> bool { (s: Step) => s.Open? }
  function Crashes(): Step -> bool { (s: Step) => s.Crash? }
  function StartsRemoval(): Step -> bool { (s: Step) => s.StartRemoval? }
  function EndsRemoval(): Step -> bool { (s: Step) => s.GiveUpRemoval? || s.DropRow? || s.Crash? }

  /** In every run, a day is being recorded exactly when one has been opened since the last crash, and a
    * removal is under way exactly when one has been started and since then neither finished, given up nor
    * cut off by a crash. */
  lemma {:induction false} WorkFollows(ws: seq<World>, steps: seq<Step>, i: nat)
    requires IsRun(ws, steps) && ws[0].session.None? && ws[0].removal.None? && i <= |steps|
    ensures ws[i].session.Some? <==> Since(steps, i, Opens(), Crashes())
    ensures ws[i].removal.Some? <==> Since(steps, i, StartsRemoval(), EndsRemoval())
  {
    if i > 0 {
      WorkFollows(ws, steps, i - 1);
      SinceStep(steps, i - 1, Opens(), Crashes());
      SinceStep(steps, i - 1, StartsRemoval(), EndsRemoval());
      assert Enabled(ws[i - 1], steps[i - 1]) && ws[i] == Next(ws[i - 1], steps[i - 1]);
      hide Since, Next, Enabled, IsRun;
      WorkStep(ws[i - 1], steps[i - 1]);
    }
  }

  lemma WorkStep(w: World, s: Step)
    requires Enabled(w, s)
    ensures Next(w, s).session.Some? <==> s.Open? || (w.session.Some? && !s.Crash?)
    ensures Next(w, s).removal.Some? <==>
            s.StartRemoval? || (w.removal.Some? && !s.GiveUpRemoval? && !s.DropRow? && !s.Crash?)
  {
  }

  /** The segment directories on the card: one appears only by an opening, under today's date and numbered by
    * the count of those there, and goes only when the removal of its day takes it. */
  lemma SubdirsExactly(w: World, s: Step, d: Date, n: nat)
    requires Enabled(w, s)
    ensures n in SubdirsOf(Next(w, s), d)
       <==> || (s.Open? && d == w.clock && n == |SubdirsOf(w, d)|)
            || (n in SubdirsOf(w, d)
                && !((s.RemoveDir? || (s.RemoveSome? && n in s.gone)) && w.removal.value.date == d))
  {
  }

  // ------------------------------------------------------ paths written twice

  ghost predicate NoneTwice(written: seq<Path>)
  {
    forall j, k :: 0 <= j < k < |written| ==> written[j] != written[k]
  }

  /** The guard that recording would need: a session's first segment goes into a directory that none has
    * been written into. */
  predicate FirstWriteFresh(w: World, s: Step)
  {
    s.WriteTs? && w.session.Some? && w.session.value.nextTs == 0 ==>
      forall k :: 0 <= k < |w.written| ==> !InSession(w.written[k], w.session.value)
  }

  /** The segments written in any one directory are numbered from 0 without gaps. */
  ghost predicate FromZero(w: World)
  {
    && (forall k, ts: nat :: 0 <= k < |w.written| && ts <= w.written[k].ts ==> w.written[k].(ts := ts) in w.written)
    && (w.session.Some? ==>
          forall ts: nat :: ts < w.session.value.nextTs ==>
            Path(w.session.value.date, w.session.value.interrupt, ts) in w.written)
  }

  ghost predicate BelowNext(w: World)
  {
    w.session.Some? && w.session.value.nextTs > 0 ==>
      forall k :: 0 <= k < |w.written| && InSession(w.written[k], w.session.value) ==>
        w.written[k].ts < w.session.value.nextTs
  }

  lemma StepKeepsFromZero(w: World, s: Step)
    requires Enabled(w, s) && FromZero(w)
    ensures FromZero(Next(w, s))
  {
    var r := Next(w, s);
    if s.WriteTs? {
      forall p | p in w.written ensures p in r.written {
      }
    }
  }

  lemma StepKeepsNoneTwice(w: World, s: Step)
    requires Enabled(w, s) && FirstWriteFresh(w, s) && NoneTwice(w.written) && BelowNext(w)
    ensures NoneTwice(Next(w, s).written) && BelowNext(Next(w, s))
  {
  }

  /** A first write into a directory written before repeats that directory's segment 0. */
  lemma StaleWriteRepeats(w: World, s: Step)
    requires Enabled(w, s) && !FirstWriteFresh(w, s) && FromZero(w)
    ensures !NoneTwice(Next(w, s).written)
  {
    var r := Next(w, s);
    var k :| 0 <= k < |w.written| && InSession(w.written[k], w.session.value);
    var j :| 0 <= j < |w.written| && w.written[j] == w.written[k].(ts := 0);
    assert r.written[j] == r.written[|w.written|];
  }

  lemma {:induction false} RunKeepsFromZero(ws: seq<World>, steps: seq<Step>, i: nat)
    requires IsRun(ws, steps) && ws[0].session.None? && ws[0].written == [] && i < |ws|
    ensures FromZero(ws[i])
  {
    if i > 0 {
      RunKeepsFromZero(ws, steps, i - 1);
      StepKeepsFromZero(ws[i - 1], steps[i - 1]);
    }
  }

  lemma {:induction false} RunKeepsNoneTwice(ws: seq<World>, steps: seq<Step>, i: nat)
    requires IsRun(ws, steps) && ws[0].session.None? && ws[0].written == [] && i < |ws|
    requires forall k :: 0 <= k < |steps| ==> FirstWriteFresh(ws[k], steps[k])
    ensures NoneTwice(ws[i].written) && BelowNext(ws[i])
  {
    if i > 0 {
      RunKeepsNoneTwice(ws, steps, i - 1);
      StepKeepsNoneTwice(ws[i - 1], steps[i - 1]);
    }
  }

  /** Fresh paths, exactly: over every run with crashes and restarts at any step and whatever the clock
    * does, no segment file is ever written twice if and only if every session's first segment goes into
    * a directory that none has been written into. */
  lemma NoPathTwiceExactly(ws: seq<World>, steps: seq<Step>)
    requires IsRun(ws, steps) && ws[0].session.None? && ws[0].written == []
    ensures (forall i :: 0 <= i < |ws| ==> NoneTwice(ws[i].written))
       <==> (forall k :: 0 <= k < |steps| ==> FirstWriteFresh(ws[k], steps[k]))
  {
    if forall k :: 0 <= k < |steps| ==> FirstWriteFresh(ws[k], steps[k]) {
      forall i | 0 <= i < |ws| ensures NoneTwice(ws[i].written) {
        RunKeepsNoneTwice(ws, steps, i);
      }
    } else {
      var k :| 0 <= k < |steps| && !FirstWriteFresh(ws[k], steps[k]);
      RunKeepsFromZero(ws, steps, k);
      StaleWriteRepeats(ws[k], steps[k]);
      assert !NoneTwice(ws[k + 1].written);
    }
  }

  /** When dates never go back, each opening takes a directory that none has been written into, so no
    * segment file is ever written twice. */
  lemma NoPathWrittenTwice(ws: seq<World>, steps: seq<Step>, i: nat)
    requires IsRun(ws, steps) && Initial(ws[0]) && i < |ws|
    requires forall k :: 0 <= k < |steps| ==> Forward(ws[k], steps[k])
    ensures NoneTwice(ws[i].written)
  {
    RunKeepsOrdered(ws, steps);
    forall k | 0 <= k < |steps| ensures FirstWriteFresh(ws[k], steps[k]) {
      assert Ordered(ws[k]);
    }
    NoPathTwiceExactly(ws, steps);
  }

  /** A clock set back to a day that waits for deletion: the writer opens that day, and the next
    * cleanup takes its directory away while it records there. */
  lemma ClockBackLosesToday()
    ensures exists ws: seq<World>, steps ::
              && IsRun(ws, steps) && Initial(ws[0])
              && var w := ws[|ws| - 1];
                 w.session.Some? && w.session.value.date !in w.dirs
  {
    var w0 := World(map[9 := Day(0, PENDING)], map[], None, None, 10, 10, []);
    var w1 := Next(w0, Tick(9));
    var w2 := Next(w1, Open);
    assert Pending(w0.rows) == {9};
    assert w2.session.value.date == 9 && 9 in Pending(w2.rows);
    var w3 := Next(w2, StartRemoval(9));
    var w4 := Next(w3, RemoveDir);
    var ws, steps := [w0, w1, w2, w3, w4], [Tick(9), Open, StartRemoval(9), RemoveDir];
    assert IsRun(ws, steps) && Initial(ws[0]);
    assert ws[|ws| - 1] == w4 && w4.session == w2.session && 9 !in w4.dirs;
  }

  lemma JoinRuns(us: seq<World>, before: seq<Step>, vs: seq<World>, after: seq<Step>)
    requires IsRun(us, before) && IsRun(vs, after) && us[|before|] == vs[0]
    ensures IsRun(us + vs[1..], before + after)
  {
    var ws, steps := us + vs[1..], before + after;
    forall i | 0 <= i < |steps| ensures Enabled(ws[i], steps[i]) && ws[i + 1] == Next(ws[i], steps[i]) {
      assert i >= |before| ==> ws[i] == vs[i - |before|] && ws[i + 1] == vs[i - |before| + 1];
    }
  }

  /** Day 9 recorded, waiting for deletion, and gone. */
  const RECORDED_9 := World(map[9 := Day(0, ACTIVE)], map[9 := Dir({0}, false)], Some(Session(9, 0, 1)), None, 9, 9,
                            [Path(9, 0, 0)])
  const DAY_9_PENDING := World(map[9 := Day(0, PENDING)], map[9 := Dir({0}, false), 10 := Dir({0}, false)],
                               Some(Session(10, 0, 0)), None, 10, 10, [Path(9, 0, 0)])
  const DAY_9_GONE := World(map[], map[10 := Dir({0}, false)], Some(Session(10, 0, 0)), None, 10, 10, [Path(9, 0, 0)])

  lemma RecordsDay9() returns (ws: seq<World>)
    ensures IsRun(ws, [Open, WriteTs]) && Initial(ws[0]) && ws[0].clock == 9 && ws[2] == RECORDED_9
  {
    var w0 := World(map[9 := Day(0, ACTIVE)], map[], None, None, 9, 9, []);
    var w1 := Next(w0, Open);
    ws := [w0, w1, Next(w1, WriteTs)];
  }

  lemma MarksDay9() returns (ws: seq<World>)
    ensures IsRun(ws, [Tick(10), Open, Mark(9)])
    ensures ws[0] == RECORDED_9 && ws[3] == DAY_9_PENDING && ws[1].rows == RECORDED_9.rows
  {
    var w1 := Next(RECORDED_9, Tick(10));
    ws := [RECORDED_9, w1, Next(w1, Open), DAY_9_PENDING];
    assert ScheduleDelete(ws[2].rows, 9) == DAY_9_PENDING.rows;
  }

  lemma RemovesDay9() returns (ws: seq<World>)
    ensures IsRun(ws, [StartRemoval(9), RemoveDir, DropRow]) && ws[0] == DAY_9_PENDING && ws[3] == DAY_9_GONE
  {
    var w1 := Next(DAY_9_PENDING, StartRemoval(9));
    ws := [DAY_9_PENDING, w1, Next(w1, RemoveDir), DAY_9_GONE];
    assert DAY_9_PENDING.dirs - {9} == DAY_9_GONE.dirs && DAY_9_PENDING.rows - {9} == DAY_9_GONE.rows;
  }

  lemma RecordsDay9Again() returns (ws: seq<World>)
    ensures IsRun(ws, [Tick(9), Open, WriteTs]) && ws[0] == DAY_9_GONE && ws[1].rows == map[]
    ensures ws[3].written == [Path(9, 0, 0), Path(9, 0, 0)]
  {
    var w1 := Next(DAY_9_GONE, Tick(9));
    var w2 := Next(w1, Open);
    ws := [DAY_9_GONE, w1, w2, Next(w2, WriteTs)];
  }

  /** A clock set back to a day that is already gone: no day is opened while it waits for deletion, and
    * still the day's first segment is written a second time. */
  lemma ClockBackRepeatsPath()
    ensures exists ws: seq<World>, steps ::
              && IsRun(ws, steps) && Initial(ws[0])
              && (forall k :: 0 <= k < |steps| ==> OpensLiveDay(ws[k], steps[k]))
              && ws[|ws| - 1].written == [Path(9, 0, 0), Path(9, 0, 0)]
  {
    var us := RecordsDay9();
    var vs := MarksDay9();
    var xs := RemovesDay9();
    var ys := RecordsDay9Again();
    var a, b := [Open, WriteTs], [Tick(10), Open, Mark(9)];
    var c, d := [StartRemoval(9), RemoveDir, DropRow], [Tick(9), Open, WriteTs];
    hide Next, Enabled, Initial, IsRun;
    JoinRuns(us, a, vs, b);
    JoinRuns(us + vs[1..], a + b, xs, c);
    JoinRuns(us + vs[1..] + xs[1..], a + b + c, ys, d);
    var ws, steps := us + vs[1..] + xs[1..] + ys[1..], a + b + c + d;
    forall k | 0 <= k < |steps| ensures OpensLiveDay(ws[k], steps[k]) {
      assert steps[k].Open? ==> k == 0 || k == 3 || k == 9;
      assert ws[0] == us[0] && ws[3] == vs[1] && ws[9] == ys[1];
    }
  }

  // ---------------------------------------------------- cleanup as a run

  /** A round of removal: the query's day goes, directory first. */
  lemma RoundIsARun(w: World, d: Date) returns (ws: seq<World>)
    requires w.session.Some? && w.removal.None? && d in Pending(w.rows)
    ensures IsRun(ws, [StartRemoval(d), RemoveDir, DropRow]) && ws[0] == w
    ensures ws[3] == w.(rows := Dropped(w.rows, Some(d)), dirs := w.dirs - {d})
  {
    var w1 := Next(w, StartRemoval(d));
    var w2 := Next(w1, RemoveDir);
    ws := [w, w1, w2, Next(w2, DropRow)];
  }

  lemma PickIsARun(w: World, failing: set<Date>, pick: Option<Date>) returns (ws: seq<World>, steps: seq<Step>)
    requires w.session.Some? && w.removal.None? && MayPick(w.rows, failing, pick)
    ensures IsRun(ws, steps) && ws[0] == w
    ensures ws[|steps|] == w.(rows := Dropped(w.rows, pick),
                              dirs := if pick.Some? then w.dirs - {pick.value} else w.dirs)
  {
    if pick.Some? {
      ws := RoundIsARun(w, pick.value);
      steps := [StartRemoval(pick.value), RemoveDir, DropRow];
    } else {
      ws, steps := [w], [];
    }
  }

  /** Every cleanup that module Retention describes is a run of these steps: it leaves the table it says,
    * and the directories of just the days it removed are gone. */
  lemma CleanupIsARun(w: World, low: bool, failing: set<Date>, first: Option<Date>, oldest: Option<Date>,
                      second: Option<Date>, after: Table)
    returns (ws: seq<World>, steps: seq<Step>)
    requires w.session.Some? && w.removal.None?
    requires Cleanup(w.rows, w.session.value.date, low, failing, first, oldest, second, after)
    ensures IsRun(ws, steps) && ws[0] == w
    ensures ws[|steps|].rows == after && ws[|steps|].session == w.session && ws[|steps|].removal == None
    ensures forall d :: d in ws[|steps|].dirs <==> d in w.dirs && first != Some(d) && second != Some(d)
  {
    ws, steps := PickIsARun(w, failing, first);
    if oldest.Some? {
      var kept := ws[|steps|];
      var marked := Next(kept, Mark(oldest.value));
      var us, more := PickIsARun(marked, failing, second);
      hide Next, Enabled, MayPick;
      OneStep(kept, Mark(oldest.value));
      JoinRuns(ws, steps, [kept, marked], [Mark(oldest.value)]);
      JoinRuns(ws + [marked], steps + [Mark(oldest.value)], us, more);
      ws, steps := ws + [marked] + us[1..], steps + [Mark(oldest.value)] + more;
    }
  }

  lemma OneStep(w: World, s: Step)
    requires Enabled(w, s)
    ensures IsRun([w, Next(w, s)], [s])
  {
  }
}
