/** The capture thread: a rate limiter on the sensor's timestamps and the timeline it
  * synthesizes for the frames it keeps.  Times are microseconds. */
module Retimer {
  import opened Base
  import opened Arithmetic
  import FQ = FrameQueue

  const SECOND: int := 1000000
  const MOTION_DETECTED: int := 1

  datatype Config = Config(fpsHigh: int, fpsLow: int)
  {
    function Hi(): (r: int)
      ensures r >= 1 && r >= fpsHigh && (r == 1 || r == fpsHigh)
    {
      if fpsHigh < 1 then 1 else fpsHigh
    }

    function Lo(): (r: int)
      ensures r >= 1 && r >= fpsLow && (r == 1 || r == fpsLow)
    {
      if fpsLow < 1 then 1 else fpsLow
    }

    function Interval(motion: int): (r: int)
      ensures r >= 0
      ensures var fps := if motion == 1 then Hi() else Lo(); r * fps <= 1000000 < (r + 1) * fps
    {
      DivBounds(SECOND, if motion == MOTION_DETECTED then Hi() else Lo());
      SECOND / (if motion == MOTION_DETECTED then Hi() else Lo())
    }

    predicate Sane() { Lo() <= Hi() <= SECOND }
  }

  /** One sensor frame: its hardware time and the motion state read when it arrived. */
  datatype Sensor = Sensor(hw: int, motion: int)

  datatype Timer = Timer(pts: int, lastKept: int, nextKeep: int, prevMotion: int)

  const START := Timer(0, -1, 0, -1)

  /** C's division, which truncates toward zero. */
  function CDiv(a: int, b: int): int
    requires b > 0
  {
    if a < 0 then -((-a) / b) else a / b
  }

  predicate Anchors(t: Timer, f: Sensor)
  {
    t.lastKept < 0 || f.motion != t.prevMotion
  }

  predicate Keeps(t: Timer, f: Sensor)
  {
    Anchors(t, f) || f.hw >= t.nextKeep
  }

  /** The limiter fell a whole interval behind and restarts from this frame. */
  predicate CatchesUp(c: Config, t: Timer, f: Sensor)
  {
    !Anchors(t, f) && Keeps(t, f) && t.nextKeep + c.Interval(f.motion) <= f.hw
  }

  function Step(c: Config, t: Timer, f: Sensor): Timer
  {
    if !Keeps(t, f) then t
    else
      var interval := c.Interval(f.motion);
      var next := if Anchors(t, f) || CatchesUp(c, t, f) then f.hw + interval else t.nextKeep + interval;
      var pts :=
        if Anchors(t, f) then t.pts + SECOND / c.Hi()
        else if f.motion == MOTION_DETECTED then t.pts + (f.hw - t.lastKept)
        else t.pts + CDiv((f.hw - t.lastKept) * c.Lo(), c.Hi());
      Timer(pts, f.hw, next, f.motion)
  }

  function Run(c: Config, t: Timer, fs: seq<Sensor>): Timer
  {
    if fs == [] then t else Step(c, Run(c, t, fs[..|fs| - 1]), fs[|fs| - 1])
  }

  function Kept(c: Config, t: Timer, fs: seq<Sensor>): nat
  {
    if fs == [] then 0
    else
      var init := fs[..|fs| - 1];
      Kept(c, t, init) + (if Keeps(Run(c, t, init), fs[|fs| - 1]) then 1 else 0)
  }

  /** Hardware timestamps are non-negative and never decrease. */
  ghost predicate Ordered(fs: seq<Sensor>)
  {
    && (forall i :: 0 <= i < |fs| ==> 0 <= fs[i].hw)
    && (forall i, j :: 0 <= i && j == i + 1 && j < |fs| ==> fs[i].hw <= fs[j].hw)
  }

  ghost predicate GapsAtMost(fs: seq<Sensor>, gap: int)
  {
    forall i, j :: 0 <= i && j == i + 1 && j < |fs| ==> fs[j].hw - fs[i].hw <= gap
  }

  ghost predicate OneMode(fs: seq<Sensor>, motion: int)
  {
    forall i :: 0 <= i < |fs| ==> fs[i].motion == motion
  }

  // ------------------------------------------------------ the keep gate

  /** A run in one mode, entered by a switch or at the start. */
  ghost predicate ModeRun(t: Timer, fs: seq<Sensor>, motion: int)
  {
    fs != [] && OneMode(fs, motion) && Ordered(fs) && Anchors(t, fs[0])
  }

  ghost predicate GateInv(c: Config, t: Timer, fs: seq<Sensor>, motion: int)
    requires fs != []
  {
    var r := Run(c, t, fs);
    var k := Kept(c, t, fs);
    var i := c.Interval(motion);
    && k >= 1 && r.prevMotion == motion && 0 <= fs[0].hw <= r.lastKept <= fs[|fs| - 1].hw < r.nextKeep
    && fs[0].hw + k * i <= r.nextKeep
    && fs[0].hw + (k - 1) * i <= fs[|fs| - 1].hw
  }

  lemma GateStep(c: Config, t: Timer, f: Sensor, h0: int, k: int)
    requires !Anchors(t, f) && c.Interval(f.motion) >= 1
    requires h0 + k * c.Interval(f.motion) <= t.nextKeep
    ensures var r := Step(c, t, f);
            && h0 + (if Keeps(t, f) then k + 1 else k) * c.Interval(f.motion) <= r.nextKeep
            && f.hw < r.nextKeep
            && (Keeps(t, f) ==> h0 + k * c.Interval(f.motion) <= f.hw)
  {
  }

  lemma {:induction false} GateHolds(c: Config, t: Timer, fs: seq<Sensor>, motion: int)
    requires ModeRun(t, fs, motion) && c.Interval(motion) >= 1
    ensures GateInv(c, t, fs, motion)
  {
    var init := fs[..|fs| - 1];
    if init == [] {
      assert Run(c, t, init) == t && Kept(c, t, init) == 0;
    } else {
      assert ModeRun(t, init, motion);
      GateHolds(c, t, init, motion);
      assert fs[|init| - 1].hw <= fs[|init|].hw;
      GateStep(c, Run(c, t, init), fs[|fs| - 1], fs[0].hw, Kept(c, t, init));
    }
  }

  /** In one mode run entered at h0 with interval I, whatever the sensor timing, at most
    * 1 + floor((h - h0) / I) frames are kept by time h. */
  lemma {:induction false} GateUpperBound(c: Config, t: Timer, fs: seq<Sensor>, motion: int)
    requires ModeRun(t, fs, motion) && c.Interval(motion) >= 1
    ensures Kept(c, t, fs) <= 1 + (fs[|fs| - 1].hw - fs[0].hw) / c.Interval(motion)
  {
    GateHolds(c, t, fs, motion);
    DivAtLeast(fs[|fs| - 1].hw - fs[0].hw, c.Interval(motion), Kept(c, t, fs) - 1);
  }

  ghost predicate OnGrid(c: Config, t: Timer, fs: seq<Sensor>, motion: int)
    requires fs != []
  {
    Run(c, t, fs).nextKeep == fs[0].hw + Kept(c, t, fs) * c.Interval(motion)
  }

  /** One frame at most an interval after the previous one, with the deadline on the grid. */
  lemma GridStep(c: Config, t: Timer, f: Sensor, prevHw: int, h0: int, k: int)
    requires !Anchors(t, f) && c.Interval(f.motion) >= 1
    requires prevHw < t.nextKeep == h0 + k * c.Interval(f.motion)
    requires f.hw - prevHw <= c.Interval(f.motion)
    ensures !CatchesUp(c, t, f)
    ensures Step(c, t, f).nextKeep == h0 + (if Keeps(t, f) then k + 1 else k) * c.Interval(f.motion)
  {
  }

  lemma {:induction false} GridNext(c: Config, t: Timer, fs: seq<Sensor>, motion: int)
    requires |fs| > 1 && ModeRun(t, fs, motion) && c.Interval(motion) >= 1
    requires GapsAtMost(fs, c.Interval(motion))
    requires OnGrid(c, t, fs[..|fs| - 1], motion)
    ensures OnGrid(c, t, fs, motion) && !CatchesUp(c, Run(c, t, fs[..|fs| - 1]), fs[|fs| - 1])
  {
    var init := fs[..|fs| - 1];
    assert ModeRun(t, init, motion);
    GateHolds(c, t, init, motion);
    GridStep(c, Run(c, t, init), fs[|fs| - 1], fs[|init| - 1].hw, fs[0].hw, Kept(c, t, init));
  }

  lemma {:induction false} GridHolds(c: Config, t: Timer, fs: seq<Sensor>, motion: int)
    requires ModeRun(t, fs, motion) && c.Interval(motion) >= 1 && GapsAtMost(fs, c.Interval(motion))
    ensures OnGrid(c, t, fs, motion)
  {
    var init := fs[..|fs| - 1];
    if init == [] {
      assert Run(c, t, init) == t;
    } else {
      assert ModeRun(t, init, motion);
      GridHolds(c, t, init, motion);
      GridNext(c, t, fs, motion);
    }
  }

  /** When sensor gaps are at most I, the gate is the ideal grid sampler: exactly one frame per
    * grid cell, the deadline always on the grid, and the catch-up branch never taken. */
  lemma {:induction false} GateIsGridSampler(c: Config, t: Timer, fs: seq<Sensor>, motion: int)
    requires ModeRun(t, fs, motion) && c.Interval(motion) >= 1 && GapsAtMost(fs, c.Interval(motion))
    ensures Kept(c, t, fs) == 1 + (fs[|fs| - 1].hw - fs[0].hw) / c.Interval(motion)
    ensures OnGrid(c, t, fs, motion)
    ensures |fs| > 1 ==> !CatchesUp(c, Run(c, t, fs[..|fs| - 1]), fs[|fs| - 1])
  {
    GateHolds(c, t, fs, motion);
    GridHolds(c, t, fs, motion);
    DivIs(fs[|fs| - 1].hw - fs[0].hw, c.Interval(motion), Kept(c, t, fs) - 1);
    if |fs| > 1 {
      GridHolds(c, t, fs[..|fs| - 1], motion);
      GridNext(c, t, fs, motion);
    }
  }

  // ------------------------------------------- the gate by the frames it keeps

  predicate KeptAt(c: Config, t: Timer, fs: seq<Sensor>, i: nat)
    requires i < |fs|
  {
    Keeps(Run(c, t, fs[..i]), fs[i])
  }

  /** j is the last frame kept before i. */
  ghost predicate LastKeptBefore(c: Config, t: Timer, fs: seq<Sensor>, j: nat, i: nat)
    requires j < i <= |fs|
  {
    KeptAt(c, t, fs, j) && forall x: nat :: j < x < i ==> !KeptAt(c, t, fs, x)
  }

  lemma {:induction false} TimerSinceKept(c: Config, t: Timer, fs: seq<Sensor>, j: nat, i: nat)
    requires j < i <= |fs| && LastKeptBefore(c, t, fs, j, i)
    ensures Run(c, t, fs[..i]) == Step(c, Run(c, t, fs[..j]), fs[j])
    decreases i
  {
    assert fs[..i][..i - 1] == fs[..i - 1];
    if i - 1 > j {
      TimerSinceKept(c, t, fs, j, i - 1);
      assert !KeptAt(c, t, fs, i - 1);
    }
  }

  /** In a mode run the deadline set by a kept frame lies after it, by at most an interval. */
  lemma KeptSetsDeadline(c: Config, t: Timer, fs: seq<Sensor>, motion: int, j: nat, i: nat)
    requires ModeRun(t, fs, motion) && c.Interval(motion) >= 1
    requires j < i < |fs| && LastKeptBefore(c, t, fs, j, i)
    ensures var r := Run(c, t, fs[..i]);
            && !Anchors(r, fs[i]) && r.lastKept == fs[j].hw
            && fs[j].hw < r.nextKeep <= fs[j].hw + c.Interval(motion)
  {
    TimerSinceKept(c, t, fs, j, i);
  }

  /** The limiter drops nothing for longer than an interval: over every mode run, a dropped frame comes
    * less than an interval after the last one kept. */
  lemma DroppedIsEarly(c: Config, t: Timer, fs: seq<Sensor>, motion: int, j: nat, i: nat)
    requires ModeRun(t, fs, motion) && c.Interval(motion) >= 1
    requires j < i < |fs| && LastKeptBefore(c, t, fs, j, i) && !KeptAt(c, t, fs, i)
    ensures fs[i].hw - fs[j].hw < c.Interval(motion)
  {
    KeptSetsDeadline(c, t, fs, motion, j, i);
  }

  /** After a stall it lets no second frame through within one interval: over every mode run, of three
    * successively kept frames, when the second comes two intervals or more after the first, the third
    * comes an interval or more after the second. */
  lemma KeptAfterStall(c: Config, t: Timer, fs: seq<Sensor>, motion: int, j: nat, k: nat, l: nat)
    requires ModeRun(t, fs, motion) && c.Interval(motion) >= 1
    requires j < k < l < |fs| && LastKeptBefore(c, t, fs, j, k) && LastKeptBefore(c, t, fs, k, l) && KeptAt(c, t, fs, l)
    requires fs[k].hw - fs[j].hw >= 2 * c.Interval(motion)
    ensures fs[l].hw - fs[k].hw >= c.Interval(motion)
  {
    KeptSetsDeadline(c, t, fs, motion, j, k);
    TimerSinceKept(c, t, fs, k, l);
    assert CatchesUp(c, Run(c, t, fs[..k]), fs[k]);
  }

  /** How many of the frames g up to i are kept. */
  function KeptIn(c: Config, t: Timer, fs: seq<Sensor>, g: nat, i: nat): nat
    requires g <= i <= |fs|
  {
    if g == i then 0 else KeptIn(c, t, fs, g, i - 1) + (if KeptAt(c, t, fs, i - 1) then 1 else 0)
  }

  /** Where the grid of the sampler starts that decides on frame i: at the first frame, or at the last kept
    * one that missed a whole cell of the grid before. */
  function GridStart(c: Config, t: Timer, fs: seq<Sensor>, interval: int, i: nat): (g: nat)
    requires 1 <= i <= |fs|
    ensures g < i
  {
    if i == 1 then 0
    else
      var g, k := GridStart(c, t, fs, interval, i - 1), i - 1;
      if KeptAt(c, t, fs, k) && fs[k].hw >= fs[g].hw + (KeptIn(c, t, fs, g, k) + 1) * interval then k else g
  }

  lemma {:induction false} DeadlineOnGrid(c: Config, t: Timer, fs: seq<Sensor>, motion: int, i: nat)
    requires ModeRun(t, fs, motion) && c.Interval(motion) >= 1 && 1 <= i <= |fs|
    ensures var g, interval := GridStart(c, t, fs, c.Interval(motion), i), c.Interval(motion);
            var r := Run(c, t, fs[..i]);
            && r.nextKeep == fs[g].hw + KeptIn(c, t, fs, g, i) * interval
            && r.lastKept >= 0 && r.prevMotion == motion
    decreases i
  {
    var k, interval := i - 1, c.Interval(motion);
    assert fs[..i][..k] == fs[..k];
    if k == 0 {
      assert KeptIn(c, t, fs, 0, 1) == KeptIn(c, t, fs, 0, 0) + 1;
    } else {
      DeadlineOnGrid(c, t, fs, motion, k);
      var g := GridStart(c, t, fs, interval, k);
      var n := KeptIn(c, t, fs, g, k);
      MulDist(n, 1, interval);
      assert KeptIn(c, t, fs, k, i) == KeptIn(c, t, fs, k, k) + (if KeptAt(c, t, fs, k) then 1 else 0);
    }
  }

  /** The gate, exactly: over every mode run and any sensor timing, a frame is kept if and only if it
    * comes no earlier than the next point of a grid of intervals, one point for each frame kept since the
    * grid's start; the grid starts at the first frame, and anew at each kept frame that missed a whole
    * cell. */
  lemma {:induction false} GateExactly(c: Config, t: Timer, fs: seq<Sensor>, motion: int, i: nat)
    requires ModeRun(t, fs, motion) && c.Interval(motion) >= 1 && i < |fs|
    ensures i == 0 ==> KeptAt(c, t, fs, i)
    ensures i > 0 ==>
              var g := GridStart(c, t, fs, c.Interval(motion), i);
              KeptAt(c, t, fs, i) <==> fs[i].hw >= fs[g].hw + KeptIn(c, t, fs, g, i) * c.Interval(motion)
  {
    if i > 0 {
      DeadlineOnGrid(c, t, fs, motion, i);
    } else {
      assert fs[..0] == [];
    }
  }

  // ----------------------------------------------------- the timeline

  lemma StepAdvances(c: Config, t: Timer, f: Sensor)
    requires t.lastKept <= f.hw
    ensures t.pts <= Step(c, t, f).pts && Step(c, t, f).lastKept <= f.hw
  {
    if Keeps(t, f) && !Anchors(t, f) && f.motion != MOTION_DETECTED {
      assert (f.hw - t.lastKept) * c.Lo() >= 0;
      DivAtLeast((f.hw - t.lastKept) * c.Lo(), c.Hi(), 0);
    }
  }

  lemma {:induction false} KeptInThePast(c: Config, fs: seq<Sensor>)
    requires Ordered(fs)
    ensures fs != [] ==> Run(c, START, fs).lastKept <= fs[|fs| - 1].hw
    ensures fs == [] ==> Run(c, START, fs).lastKept == -1
  {
    if fs != [] {
      var init := fs[..|fs| - 1];
      KeptInThePast(c, init);
      if init != [] {
        assert init[|init| - 1].hw <= fs[|fs| - 1].hw;
      }
    }
  }

  /** Over every run the synthesized time never decreases. */
  lemma {:induction false} TimelineNeverRewinds(c: Config, fs: seq<Sensor>, n: nat)
    requires Ordered(fs) && n <= |fs|
    ensures Run(c, START, fs[..n]).pts <= Run(c, START, fs).pts
    decreases |fs|
  {
    if n == |fs| {
      assert fs[..n] == fs;
    } else {
      var init := fs[..|fs| - 1];
      assert init[..n] == fs[..n];
      TimelineNeverRewinds(c, init, n);
      KeptInThePast(c, init);
      if init != [] {
        assert init[|init| - 1].hw <= fs[|fs| - 1].hw;
      }
      StepAdvances(c, Run(c, START, init), fs[|fs| - 1]);
    }
  }

  /** Inside a motion run the synthesized time advances by exactly the hardware time between the
    * kept frames. */
  lemma {:induction false} MotionIsRealTime(c: Config, t: Timer, fs: seq<Sensor>)
    requires ModeRun(t, fs, 1) && c.Interval(1) >= 1
    ensures var r := Run(c, t, fs);
            r.pts - (t.pts + SECOND / c.Hi()) == r.lastKept - fs[0].hw
  {
    var init := fs[..|fs| - 1];
    if init == [] {
      assert Run(c, t, init) == t;
    } else {
      assert ModeRun(t, init, 1);
      MotionIsRealTime(c, t, init);
      GateHolds(c, t, init, 1);
    }
  }

  /** Inside an idle run it advances by the hardware time scaled by fpsLow / fpsHigh; all the
    * rounding together loses less than one microsecond per frame kept after the first. */
  lemma {:induction false} IdleIsScaledTime(c: Config, t: Timer, fs: seq<Sensor>, motion: int)
    requires motion != 1
    requires ModeRun(t, fs, motion) && c.Interval(motion) >= 1
    ensures var r := Run(c, t, fs);
            var advance := r.pts - (t.pts + SECOND / c.Hi());
            0 <= (r.lastKept - fs[0].hw) * c.Lo() - advance * c.Hi()
              <= (Kept(c, t, fs) - 1) * (c.Hi() - 1)
  {
    var init := fs[..|fs| - 1];
    if init == [] {
      assert Run(c, t, init) == t;
    } else {
      assert ModeRun(t, init, motion);
      IdleIsScaledTime(c, t, init, motion);
      GateHolds(c, t, init, motion);
      var s, f := Run(c, t, init), fs[|fs| - 1];
      if Keeps(s, f) {
        IdleStep(f.hw - s.lastKept, s.lastKept - fs[0].hw, s.pts - (t.pts + SECOND / c.Hi()),
                 Kept(c, t, init) - 1, c.Lo(), c.Hi());
      }
    }
  }

  lemma IdleStep(gap: int, elapsed: int, advance: int, k: int, lo: int, hi: int)
    requires gap >= 0 && lo >= 1 && hi >= 1
    requires 0 <= elapsed * lo - advance * hi <= k * (hi - 1)
    ensures gap * lo >= 0
    ensures 0 <= (elapsed + gap) * lo - (advance + (gap * lo) / hi) * hi <= (k + 1) * (hi - 1)
  {
  }

  // ------------------------------------------------------ constant rate

  /** How many maximal runs of one mode fs has. */
  function ModeRuns(fs: seq<Sensor>): nat
  {
    if fs == [] then 0
    else
      var init := fs[..|fs| - 1];
      ModeRuns(init) + (if init == [] || init[|init| - 1].motion != fs[|fs| - 1].motion then 1 else 0)
  }

  /** How late the last kept frame was against its grid point. */
  function Phase(c: Config, t: Timer): int
  {
    if t.lastKept < 0 then 0 else t.lastKept - (t.nextKeep - c.Interval(t.prevMotion))
  }

  /** Synthesized time per hardware time in a mode, times fpsHigh. */
  function Rate(c: Config, motion: int): int
  {
    if motion == MOTION_DETECTED then c.Hi() else c.Lo()
  }

  /** How far the timeline is ahead of n nominal frame periods, times fpsHigh. */
  function Lead(c: Config, t: Timer, n: int): int
  {
    t.pts * c.Hi() - n * SECOND
  }

  /** The same, had the last kept frame arrived on its grid point.  Inside a mode run this only loses
    * rounding; only a switch can raise it, by what the last frame before it was late. */
  function GridLead(c: Config, t: Timer, n: int): int
  {
    Lead(c, t, n) - Phase(c, t) * Rate(c, t.prevMotion)
  }

  /** The timer after sensor frame `last`, in a mode run on the grid. */
  ghost predicate InRun(c: Config, t: Timer, last: Sensor, gap: int)
  {
    && t.prevMotion == last.motion && 0 <= t.lastKept <= last.hw < t.nextKeep
    && 0 <= Phase(c, t) <= gap
  }

  lemma IntervalOrder(c: Config, motion: int)
    requires c.Sane()
    ensures 1 <= SECOND / c.Hi() <= c.Interval(motion)
    ensures SECOND - Rate(c, motion) < c.Interval(motion) * Rate(c, motion) <= SECOND
  {
    DivAtLeast(SECOND, c.Hi(), 1);
    DivBounds(SECOND, c.Hi());
    DivBounds(SECOND, c.Lo());
    MulMono(c.Lo(), c.Hi(), SECOND / c.Hi());
    DivAtLeast(SECOND, c.Lo(), SECOND / c.Hi());
  }

  /** The first frame, or the first after a switch. */
  lemma SwitchLead(c: Config, t: Timer, f: Sensor, n: int, gap: int)
    requires c.Sane() && Anchors(t, f) && f.hw >= 0 && 0 <= Phase(c, t) <= gap
    ensures Keeps(t, f) && InRun(c, Step(c, t, f), f, gap) && Phase(c, Step(c, t, f)) == 0
    ensures -c.Hi() <= GridLead(c, Step(c, t, f), n + 1) - GridLead(c, t, n) <= gap * c.Hi()
  {
    IntervalOrder(c, f.motion);
    DivBounds(SECOND, c.Hi());
    MulDist(t.pts, SECOND / c.Hi(), c.Hi());
    MulDist(n, 1, SECOND);
    MulMono(0, Phase(c, t), Rate(c, t.prevMotion));
    MulMono(Phase(c, t), gap, Rate(c, t.prevMotion));
    MulMono(c.Lo(), c.Hi(), gap);
  }

  /** A later frame of the same mode run. */
  lemma SameModeLead(c: Config, t: Timer, last: Sensor, f: Sensor, n: int, gap: int)
    requires c.Sane() && InRun(c, t, last, gap) && gap <= SECOND / c.Hi()
    requires f.motion == last.motion && last.hw <= f.hw <= last.hw + gap
    ensures InRun(c, Step(c, t, f), f, gap)
    ensures !Keeps(t, f) ==> Step(c, t, f) == t
    ensures Keeps(t, f) ==>
              -(2 * c.Hi()) <= GridLead(c, Step(c, t, f), n + 1) - GridLead(c, t, n) <= 0
  {
    IntervalOrder(c, f.motion);
    if Keeps(t, f) {
      var r, i, rate := Step(c, t, f), c.Interval(f.motion), Rate(c, f.motion);
      var elapsed := i + Phase(c, r) - Phase(c, t);
      assert f.hw - t.lastKept == elapsed && r.nextKeep == t.nextKeep + i;
      assert -c.Hi() < (r.pts - t.pts) * c.Hi() - elapsed * rate <= 0 by {
        if f.motion != MOTION_DETECTED {
          MulMono(0, elapsed, rate);
          DivBounds(elapsed * rate, c.Hi());
        }
      }
      LeadArith(t.pts, r.pts, c.Hi(), n, i, Phase(c, t), Phase(c, r), rate);
    }
  }

  lemma LeadArith(p: int, q: int, hi: int, n: int, i: int, late: int, later: int, rate: int)
    ensures (q * hi - (n + 1) * SECOND - later * rate) - (p * hi - n * SECOND - late * rate)
         == ((q - p) * hi - (i + later - late) * rate) + i * rate - SECOND
  {
  }

  lemma {:induction false} KeptGrows(c: Config, fs: seq<Sensor>, m: nat, n: nat)
    requires m <= n <= |fs|
    ensures Kept(c, START, fs[..m]) <= Kept(c, START, fs[..n])
    decreases n
  {
    if m < n {
      KeptGrows(c, fs, m, n - 1);
      PrefixStep(c, fs, n - 1);
    }
  }

  /** From sensor frame m on, the grid lead falls by at most 2 fpsHigh per kept frame and rises by at
    * most a sensor gap per switch. */
  ghost predicate WindowOk(c: Config, fs: seq<Sensor>, m: nat, n: nat, gap: int)
    requires 1 <= m <= n <= |fs|
  {
    var t, u := Run(c, START, fs[..m]), Run(c, START, fs[..n]);
    var k, l := Kept(c, START, fs[..m]), Kept(c, START, fs[..n]);
    && InRun(c, u, fs[n - 1], gap)
    && k <= l && ModeRuns(fs[..m]) <= ModeRuns(fs[..n])
    && Within(GridLead(c, u, l) - GridLead(c, t, k), l - k, ModeRuns(fs[..n]) - ModeRuns(fs[..m]), c.Hi(), gap)
  }

  predicate Within(gained: int, frames: int, switches: int, hi: int, gap: int)
  {
    -(2 * (frames * hi)) <= gained <= switches * (gap * hi)
  }

  lemma WithinGrows(gained: int, frames: int, switches: int, hi: int, gap: int, step: int, kept: int, switch: int)
    requires Within(gained, frames, switches, hi, gap) && Within(step, kept, switch, hi, gap)
    ensures Within(gained + step, frames + kept, switches + switch, hi, gap)
  {
  }

  lemma {:induction false} PrefixStep(c: Config, fs: seq<Sensor>, n: nat)
    requires n < |fs|
    ensures var t, f := Run(c, START, fs[..n]), fs[n];
            && Run(c, START, fs[..n + 1]) == Step(c, t, f)
            && Kept(c, START, fs[..n + 1]) == Kept(c, START, fs[..n]) + (if Keeps(t, f) then 1 else 0)
            && ModeRuns(fs[..n + 1])
               == ModeRuns(fs[..n]) + (if n == 0 || fs[n - 1].motion != f.motion then 1 else 0)
  {
    assert fs[..n + 1][..n] == fs[..n];
  }

  lemma {:induction false} WindowHolds(c: Config, fs: seq<Sensor>, m: nat, n: nat, gap: int)
    requires c.Sane() && Ordered(fs) && GapsAtMost(fs, gap) && 0 <= gap <= SECOND / c.Hi()
    requires 1 <= m <= n <= |fs|
    ensures WindowOk(c, fs, m, n, gap)
    decreases n, m
  {
    if n == 1 {
      PrefixStep(c, fs, 0);
      SwitchLead(c, START, fs[0], 0, gap);
    } else if n == m {
      WindowHolds(c, fs, 1, n, gap);
    } else {
      WindowHolds(c, fs, m, n - 1, gap);
      WindowGrows(c, fs, m, n - 1, gap);
    }
  }

  lemma StepLead(c: Config, t: Timer, last: Sensor, f: Sensor, n: int, gap: int)
    requires c.Sane() && InRun(c, t, last, gap) && 0 <= gap <= SECOND / c.Hi()
    requires last.hw <= f.hw <= last.hw + gap
    ensures var r, kept, switch :=
              Step(c, t, f), if Keeps(t, f) then 1 else 0, if f.motion != last.motion then 1 else 0;
            && InRun(c, r, f, gap)
            && Within(GridLead(c, r, n + kept) - GridLead(c, t, n), kept, switch, c.Hi(), gap)
  {
    if f.motion == last.motion {
      SameModeLead(c, t, last, f, n, gap);
    } else {
      SwitchLead(c, t, f, n, gap);
    }
  }

  lemma WindowGrows(c: Config, fs: seq<Sensor>, m: nat, n: nat, gap: int)
    requires c.Sane() && 0 <= gap <= SECOND / c.Hi()
    requires 1 <= m <= n < |fs| && WindowOk(c, fs, m, n, gap) && fs[n - 1].hw <= fs[n].hw <= fs[n - 1].hw + gap
    ensures WindowOk(c, fs, m, n + 1, gap)
  {
    hide Run, Kept, ModeRuns, GridLead, Phase, Within, InRun, Step, Keeps;
    PrefixStep(c, fs, n);
    var t, last, f, l := Run(c, START, fs[..n]), fs[n - 1], fs[n], Kept(c, START, fs[..n]);
    StepLead(c, t, last, f, l, gap);
    var r, kept, switch := Step(c, t, f), if Keeps(t, f) then 1 else 0, if f.motion != last.motion then 1 else 0;
    var s, k := Run(c, START, fs[..m]), Kept(c, START, fs[..m]);
    WithinGrows(GridLead(c, t, l) - GridLead(c, s, k), l - k, ModeRuns(fs[..n]) - ModeRuns(fs[..m]), c.Hi(), gap,
                GridLead(c, r, l + kept) - GridLead(c, t, l), kept, switch);
  }

  /** n kept frames and `runs` mode runs advanced the synthesized time by `pts`: at most 2 microseconds a
    * frame and `early` below, and `late` a mode run above, n nominal frame periods (all times hi). */
  predicate RateOk(pts: int, n: int, runs: int, hi: int, early: int, late: int)
  {
    -(2 * (n * hi)) - early * hi <= pts * hi - n * SECOND <= runs * (late * hi)
  }

  /** Constant playback rate between any two points of a recording: when sensor gaps are at most the
    * nominal frame period, then over the frames kept from sensor frame m to sensor frame n, through any
    * mode switches, the synthesized time advances by one nominal period a frame, within 2 microseconds
    * a frame and one sensor gap a mode run the window touches. */
  lemma {:induction false} ConstantRateInWindow(c: Config, fs: seq<Sensor>, gap: int, m: nat, n: nat)
    requires c.Sane() && Ordered(fs) && GapsAtMost(fs, gap) && 0 <= gap <= SECOND / c.Hi()
    requires 1 <= m <= n <= |fs|
    ensures var t, u := Run(c, START, fs[..m]), Run(c, START, fs[..n]);
            var frames := Kept(c, START, fs[..n]) - Kept(c, START, fs[..m]);
            var runs := ModeRuns(fs[..n]) - ModeRuns(fs[..m]) + 1;
            && frames >= 0 && runs >= 1
            && RateOk(u.pts - t.pts, frames, runs, c.Hi(), gap, gap)
  {
    WindowHolds(c, fs, m, m, gap);
    WindowHolds(c, fs, m, n, gap);
    var t, u := Run(c, START, fs[..m]), Run(c, START, fs[..n]);
    LeadGivesRate(c, t, u, Kept(c, START, fs[..m]), Kept(c, START, fs[..n]),
                  ModeRuns(fs[..n]) - ModeRuns(fs[..m]), gap);
  }

  lemma LeadGivesRate(c: Config, t: Timer, u: Timer, k: int, l: int, switches: int, gap: int)
    requires c.Sane() && 0 <= Phase(c, t) <= gap && 0 <= Phase(c, u) <= gap
    requires Within(GridLead(c, u, l) - GridLead(c, t, k), l - k, switches, c.Hi(), gap)
    ensures RateOk(u.pts - t.pts, l - k, switches + 1, c.Hi(), gap, gap)
  {
    PhaseBound(c, t, gap);
    PhaseBound(c, u, gap);
    RateTerms(u.pts, t.pts, c.Hi(), l, k, switches, gap * c.Hi());
  }

  lemma RateTerms(q: int, p: int, hi: int, l: int, k: int, switches: int, g: int)
    ensures (q - p) * hi - (l - k) * SECOND == (q * hi - l * SECOND) - (p * hi - k * SECOND)
    ensures (switches + 1) * g == switches * g + g
  {
  }

  lemma PhaseBound(c: Config, t: Timer, gap: int)
    requires c.Sane() && 0 <= Phase(c, t) <= gap
    ensures 0 <= Phase(c, t) * Rate(c, t.prevMotion) <= gap * c.Hi()
  {
    MulMono(0, Phase(c, t), Rate(c, t.prevMotion));
    MulMono(Phase(c, t), gap, Rate(c, t.prevMotion));
    MulMono(c.Lo(), c.Hi(), gap);
  }

  /** And from the start of the process, where the first frame is on its grid point: after N kept frames
    * the synthesized time differs from N * 1000000 / fpsHigh by at most 2 microseconds a frame below and
    * one sensor gap a mode run above. */
  lemma {:induction false} ConstantPlaybackRate(c: Config, fs: seq<Sensor>, gap: int)
    requires c.Sane() && Ordered(fs) && GapsAtMost(fs, gap) && 0 <= gap <= SECOND / c.Hi()
    ensures RateOk(Run(c, START, fs).pts, Kept(c, START, fs), ModeRuns(fs), c.Hi(), 0, gap)
  {
    if fs != [] {
      assert fs[..|fs|] == fs;
      WindowHolds(c, fs, 1, |fs|, gap);
      PrefixStep(c, fs, 0);
      SwitchLead(c, START, fs[0], 0, gap);
      DivBounds(SECOND, c.Hi());
      PhaseBound(c, Run(c, START, fs), gap);
      MulDist(Kept(c, START, fs), -1, c.Hi());
      MulDist(ModeRuns(fs), -1, gap * c.Hi());
    }
  }

  /** Frame number d + 1 of a recording of total + 1 frames lies at time p of q, both from the first frame:
    * cross-multiplied, the shares d of total and p of q differ by at most 2 microseconds a frame and one
    * sensor gap a mode run and one more; counted from one, by a frame's time more. */
  predicate ShareOk(p: int, d: int, q: int, total: int, runs: int, gap: int)
  {
    var slack := 2 * (total * d) + total * ((runs + 1) * gap);
    && 0 <= d <= total && 0 <= p <= q
    && -slack <= p * total - d * q <= slack
    && -(slack + q) <= p * (total + 1) - (d + 1) * q <= slack
  }

  /** So the player may place its markers by frame count: in a recording whose frames are those kept from
    * sensor frame m to sensor frame n, wherever in a mode run it was opened, the frame kept last at sensor
    * frame x lies at its share. */
  lemma {:induction false} FrameShareIsTimeShare(c: Config, fs: seq<Sensor>, gap: int, m: nat, x: nat, n: nat)
    requires c.Sane() && Ordered(fs) && GapsAtMost(fs, gap) && 0 <= gap <= SECOND / c.Hi()
    requires 1 <= m <= x <= n <= |fs|
    ensures ShareOk(Run(c, START, fs[..x]).pts - Run(c, START, fs[..m]).pts,
                    Kept(c, START, fs[..x]) - Kept(c, START, fs[..m]),
                    Run(c, START, fs[..n]).pts - Run(c, START, fs[..m]).pts,
                    Kept(c, START, fs[..n]) - Kept(c, START, fs[..m]),
                    ModeRuns(fs[..n]) - ModeRuns(fs[..m]) + 1, gap)
  {
    ConstantRateInWindow(c, fs, gap, m, x);
    ConstantRateInWindow(c, fs, gap, m, n);
    ConstantRateInWindow(c, fs, gap, x, n);
    NeverRewindsBetween(c, fs, m, x);
    NeverRewindsBetween(c, fs, x, n);
    hide *;
    ShareArith(Run(c, START, fs[..x]).pts - Run(c, START, fs[..m]).pts,
               Kept(c, START, fs[..x]) - Kept(c, START, fs[..m]),
               ModeRuns(fs[..x]) - ModeRuns(fs[..m]) + 1,
               Run(c, START, fs[..n]).pts - Run(c, START, fs[..m]).pts,
               Kept(c, START, fs[..n]) - Kept(c, START, fs[..m]),
               ModeRuns(fs[..n]) - ModeRuns(fs[..m]) + 1, c.Hi(), gap);
  }

  lemma NeverRewindsBetween(c: Config, fs: seq<Sensor>, m: nat, n: nat)
    requires Ordered(fs) && m <= n <= |fs|
    ensures Run(c, START, fs[..m]).pts <= Run(c, START, fs[..n]).pts
  {
    assert fs[..n][..m] == fs[..m];
    TimelineNeverRewinds(c, fs[..n], m);
  }

  lemma ShareArith(p: int, d: int, runs: int, q: int, total: int, allRuns: int, hi: int, gap: int)
    requires RateOk(p, d, runs, hi, gap, gap) && RateOk(q, total, allRuns, hi, gap, gap)
    requires 0 <= d <= total && 0 <= runs <= allRuns && gap >= 0 && hi >= 1 && 0 <= p <= q
    ensures ShareOk(p, d, q, total, allRuns, gap)
  {
    var g := gap * hi;
    var slack := 2 * (total * d) + total * ((allRuns + 1) * gap);
    // p * hi and q * hi as multiples of the nominal rate, with one error term each
    var ep, eq := p * hi - d * SECOND, q * hi - total * SECOND;
    MulMono(0, gap, hi);
    MulMono(runs, allRuns, g);
    hide RateOk;
    ShareExpand(p, d, q, total, hi);
    ErrorBound(ep, eq, d, total, hi, g, allRuns);
    SlackExpand(total, d, hi, allRuns + 1, gap);
    Cancel(p * total - d * q, slack, hi);
    MulDist(total, 1, p);
    MulDist(d, 1, q);
  }

  lemma ShareExpand(p: int, n: int, q: int, total: int, hi: int)
    ensures (p * total - n * q) * hi == (p * hi - n * SECOND) * total - n * (q * hi - total * SECOND)
  {
  }

  lemma SlackExpand(total: int, n: int, hi: int, runs: int, gap: int)
    ensures (2 * (total * n) + total * (runs * gap)) * hi
         == 2 * ((total * n) * hi) + total * (runs * (gap * hi))
  {
  }

  lemma ErrorBound(ep: int, eq: int, d: int, total: int, hi: int, g: int, runs: int)
    requires 0 <= d <= total && hi >= 1 && g >= 0 && runs >= 0
    requires -(2 * (d * hi)) - g <= ep <= runs * g && -(2 * (total * hi)) - g <= eq <= runs * g
    ensures var s := 2 * ((total * d) * hi) + total * ((runs + 1) * g);
            -s <= ep * total - d * eq <= s
  {
    MulMono(ep, runs * g, total);
    MulMono(-(2 * (d * hi)) - g, ep, total);
    MulMono(eq, runs * g, d);
    MulMono(-(2 * (total * hi)) - g, eq, d);
    MulMono(0, runs, g);
    MulMono(d, total, runs * g);
    MulMono(d, total, g);
    ErrorTerms(d, total, hi, g, runs);
    ErrorSum(ep * total, eq * d, (total * d) * hi, total * g, total * (runs * g), d * g, d * (runs * g));
  }

  lemma ErrorTerms(d: int, total: int, hi: int, g: int, runs: int)
    ensures (runs * g) * total == total * (runs * g)
    ensures (-(2 * (d * hi)) - g) * total == -(2 * ((total * d) * hi)) - total * g
    ensures (runs * g) * d == d * (runs * g)
    ensures (-(2 * (total * hi)) - g) * d == -(2 * ((total * d) * hi)) - d * g
    ensures total * ((runs + 1) * g) == total * (runs * g) + total * g
  {
  }

  lemma ErrorSum(a: int, b: int, frames: int, gap: int, gaps: int, lessGap: int, lessGaps: int)
    requires -(2 * frames) - gap <= a <= gaps && -(2 * frames) - lessGap <= b <= lessGaps
    requires lessGap <= gap && lessGaps <= gaps
    ensures -(2 * frames + gaps + gap) <= a - b <= 2 * frames + gaps + gap
  {
  }

  lemma Cancel(x: int, s: int, hi: int)
    requires hi >= 1 && -(s * hi) <= x * hi <= s * hi
    ensures -s <= x <= s
  {
  }

  // --------------------------------------------------- under-running sensor

  /** n frames of motion from a sensor with a fixed gap. */
  function Steady(n: nat, gap: nat): seq<Sensor>
  {
    seq(n, i requires 0 <= i < n => Sensor(i * gap, MOTION_DETECTED))
  }

  lemma SteadyStep(c: Config, t: Timer, n: nat, gap: nat)
    requires n >= 1 && gap >= SECOND / c.Hi() && gap >= 1
    requires t.lastKept == (n - 1) * gap && t.prevMotion == MOTION_DETECTED && t.nextKeep <= n * gap
    ensures var r := Step(c, t, Sensor(n * gap, MOTION_DETECTED));
            && Keeps(t, Sensor(n * gap, MOTION_DETECTED))
            && r.pts == t.pts + gap && r.lastKept == n * gap
            && r.prevMotion == MOTION_DETECTED && r.nextKeep <= (n + 1) * gap
  {
  }

  lemma {:induction false} SteadyRun(c: Config, n: nat, gap: nat)
    requires n >= 1 && gap >= SECOND / c.Hi() && gap >= 1
    ensures var t := Run(c, START, Steady(n, gap));
            && Kept(c, START, Steady(n, gap)) == n
            && t.pts == SECOND / c.Hi() + (n - 1) * gap && t.lastKept == (n - 1) * gap
            && t.prevMotion == MOTION_DETECTED && t.nextKeep <= n * gap
  {
    assert Steady(n, gap)[..n - 1] == Steady(n - 1, gap);
    if n > 1 {
      SteadyRun(c, n - 1, gap);
      SteadyStep(c, Run(c, START, Steady(n - 1, gap)), n - 1, gap);
      MulDist(n - 2, 1, gap);
    } else {
      assert Run(c, START, Steady(0, gap)) == START && Kept(c, START, Steady(0, gap)) == 0;
    }
  }

  /** With a sensor slower than fpsHigh the motion timeline keeps real time, so against N nominal frame
    * periods it drifts past every bound. */
  lemma {:induction false} SlowSensorDrifts(c: Config, gap: nat, bound: nat)
    requires gap * c.Hi() > SECOND
    ensures var fs := Steady(bound + c.Hi() + 2, gap);
            Run(c, START, fs).pts * c.Hi() > Kept(c, START, fs) * SECOND + bound
  {
    var hi := c.Hi();
    var n := bound + hi + 2;
    DivBounds(SECOND, hi);
    if gap < SECOND / hi {
      MulMono(gap, SECOND / hi, hi);
    }
    PositiveFactor(gap, hi);
    SteadyRun(c, n, gap);
    MulDist(SECOND / hi, (n - 1) * gap, hi);
    MulAssoc(n - 1, gap, hi);
    MulMono(SECOND + 1, gap * hi, n - 1);
    assert (SECOND + 1) * (n - 1) == SECOND * n - SECOND + n - 1;
  }

  lemma {:induction false} SteadyIsOneRun(n: nat, gap: nat)
    ensures Ordered(Steady(n, gap)) && GapsAtMost(Steady(n, gap), gap)
    ensures ModeRuns(Steady(n, gap)) == if n == 0 then 0 else 1
  {
    forall i, j | 0 <= i && j == i + 1 && j < n ensures Steady(n, gap)[j].hw == Steady(n, gap)[i].hw + gap {
      MulDist(i, 1, gap);
    }
    if n > 0 {
      assert Steady(n, gap)[..n - 1] == Steady(n - 1, gap);
      SteadyIsOneRun(n - 1, gap);
    }
  }

  /** The rate is constant over the whole of a recording. */
  ghost predicate RateHolds(c: Config, fs: seq<Sensor>, gap: int)
  {
    RateOk(Run(c, START, fs).pts, Kept(c, START, fs), ModeRuns(fs), c.Hi(), 0, gap)
  }

  lemma SlowSensorBreaksRate(c: Config, gap: nat) returns (fs: seq<Sensor>)
    requires gap * c.Hi() > SECOND
    ensures Ordered(fs) && GapsAtMost(fs, gap) && !RateHolds(c, fs, gap)
  {
    var bound := gap * c.Hi();
    hide Run, Kept, ModeRuns, Steady;
    SlowSensorDrifts(c, gap, bound);
    fs := Steady(bound + c.Hi() + 2, gap);
    SteadyIsOneRun(bound + c.Hi() + 2, gap);
  }

  /** Exactly: a bound on the sensor's gaps gives a constant playback rate in every recording, if and
    * only if it is at most the nominal frame period. */
  lemma RateIsConstantExactly(c: Config, gap: nat)
    requires c.Sane()
    ensures (forall fs :: Ordered(fs) && GapsAtMost(fs, gap) ==> RateHolds(c, fs, gap)) <==> gap * c.Hi() <= SECOND
  {
    hide Run, Kept, ModeRuns, RateOk, Ordered, GapsAtMost;
    if gap * c.Hi() <= SECOND {
      DivAtLeast(SECOND, c.Hi(), gap);
      forall fs | Ordered(fs) && GapsAtMost(fs, gap) ensures RateHolds(c, fs, gap) {
        ConstantPlaybackRate(c, fs, gap);
      }
    } else {
      var fs := SlowSensorBreaksRate(c, gap);
    }
  }

  // --------------------------------------------------------- the thread

  /** What the encoder returned for a frame sent to it. */
  datatype Encoded = Encoded(bytes: seq<byte>, isKey: bool)

  /** A frame from the sensor; `encoded` is None when the encoder gives nothing back for it. */
  datatype VideoFrame = VideoFrame(sensor: Sensor, encoded: Option<Encoded>)

  function Sensors(frames: seq<VideoFrame>): (r: seq<Sensor>)
    ensures |r| == |frames|
  {
    seq(|frames|, i requires 0 <= i < |frames| => frames[i].sensor)
  }

  /** The frames pushed to the queue: each kept and encoded one, under its synthesized time. */
  function Pushed(c: Config, frames: seq<VideoFrame>): seq<FQ.Frame>
  {
    if frames == [] then []
    else
      var init := frames[..|frames| - 1];
      var f := frames[|frames| - 1];
      var t := Run(c, START, Sensors(init));
      Pushed(c, init)
      + (if Keeps(t, f.sensor) && f.encoded.Some?
         then [FQ.Frame(f.encoded.value.bytes, f.encoded.value.isKey, Step(c, t, f.sensor).pts)]
         else [])
  }

  lemma {:induction false} PushedSnoc(c: Config, frames: seq<VideoFrame>, i: nat)
    requires i < |frames|
    ensures var t, f := Run(c, START, Sensors(frames[..i])), frames[i];
            && Run(c, START, Sensors(frames[..i + 1])) == Step(c, t, f.sensor)
            && Pushed(c, frames[..i + 1])
               == Pushed(c, frames[..i])
                  + (if Keeps(t, f.sensor) && f.encoded.Some?
                     then [FQ.Frame(f.encoded.value.bytes, f.encoded.value.isKey, Step(c, t, f.sensor).pts)]
                     else [])
  {
    assert frames[..i + 1][..i] == frames[..i];
    assert Sensors(frames[..i + 1])[..i] == Sensors(frames[..i]);
  }

  /** The sensor frames behind the frames pushed: those kept and encoded, in order. */
  function PushedFrom(c: Config, frames: seq<VideoFrame>): (at: seq<nat>)
    ensures forall j :: 0 <= j < |at| ==> at[j] < |frames|
  {
    if frames == [] then []
    else
      var n := |frames| - 1;
      PushedFrom(c, frames[..n])
      + (if KeptAt(c, START, Sensors(frames), n) && frames[n].encoded.Some? then [n] else [])
  }

  /** A frame goes to the queue with the encoder's bytes and flag and its synthesized time. */
  ghost predicate IsPushed(c: Config, frames: seq<VideoFrame>, i: nat, f: FQ.Frame)
    requires i < |frames|
  {
    && KeptAt(c, START, Sensors(frames), i) && frames[i].encoded.Some?
    && f.bytes == frames[i].encoded.value.bytes && f.isKey == frames[i].encoded.value.isKey
    && f.ptsUs == Run(c, START, Sensors(frames)[..i + 1]).pts
  }

  /** `out` are the frames pushed for the first n sensor frames, those at the positions `at`. */
  ghost predicate PushedOk(c: Config, frames: seq<VideoFrame>, n: nat, at: seq<nat>, out: seq<FQ.Frame>)
    requires n <= |frames|
  {
    && |at| == |out| && (forall i, j :: 0 <= i < j < |at| ==> at[i] < at[j])
    && (forall j :: 0 <= j < |at| ==> at[j] < n && IsPushed(c, frames, at[j], out[j]))
    && (forall i: nat :: i < n && KeptAt(c, START, Sensors(frames), i) && frames[i].encoded.Some? ==> i in at)
  }

  lemma PushedOkSnoc(c: Config, frames: seq<VideoFrame>, n: nat, at: seq<nat>, out: seq<FQ.Frame>, f: FQ.Frame)
    requires n < |frames| && PushedOk(c, frames, n, at, out) && IsPushed(c, frames, n, f)
    ensures PushedOk(c, frames, n + 1, at + [n], out + [f])
  {
    hide IsPushed, KeptAt;
    forall i: nat | i <= n && KeptAt(c, START, Sensors(frames), i) && frames[i].encoded.Some?
      ensures i in at + [n]
    {
      assert (at + [n])[|at|] == n;
    }
  }

  lemma PushedOkLasts(c: Config, frames: seq<VideoFrame>, n: nat, at: seq<nat>, out: seq<FQ.Frame>)
    requires n < |frames| && PushedOk(c, frames, n, at, out)
    requires !(KeptAt(c, START, Sensors(frames), n) && frames[n].encoded.Some?)
    ensures PushedOk(c, frames, n + 1, at, out)
  {
    hide IsPushed, KeptAt;
  }

  lemma SensorsOfFirst(c: Config, frames: seq<VideoFrame>, n: nat)
    requires n < |frames|
    ensures var fs, t := Sensors(frames), Run(c, START, Sensors(frames[..n]));
            && frames[..n + 1][..n] == frames[..n]
            && KeptAt(c, START, fs, n) == KeptAt(c, START, Sensors(frames[..n + 1]), n) == Keeps(t, frames[n].sensor)
            && Run(c, START, fs[..n + 1]) == Step(c, t, frames[n].sensor)
  {
    var fs := Sensors(frames);
    assert fs[..n] == Sensors(frames[..n]) == Sensors(frames[..n + 1])[..n];
    assert fs[..n + 1][..n] == fs[..n];
  }

  lemma {:induction false} PushedUpTo(c: Config, frames: seq<VideoFrame>, n: nat)
    requires n <= |frames|
    ensures PushedOk(c, frames, n, PushedFrom(c, frames[..n]), Pushed(c, frames[..n]))
  {
    if n > 0 {
      var k, f := n - 1, frames[n - 1];
      PushedUpTo(c, frames, k);
      SensorsOfFirst(c, frames, k);
      var t := Run(c, START, Sensors(frames[..k]));
      hide PushedOk, KeptAt, Run, Step, Keeps, Sensors;
      var at, out := PushedFrom(c, frames[..k]), Pushed(c, frames[..k]);
      if Keeps(t, f.sensor) && f.encoded.Some? {
        var pushed := FQ.Frame(f.encoded.value.bytes, f.encoded.value.isKey, Step(c, t, f.sensor).pts);
        assert IsPushed(c, frames, k, pushed);
        hide IsPushed;
        PushedOkSnoc(c, frames, k, at, out, pushed);
        assert PushedFrom(c, frames[..n]) == at + [k] && Pushed(c, frames[..n]) == out + [pushed];
      } else {
        PushedOkLasts(c, frames, k, at, out);
        assert PushedFrom(c, frames[..n]) == at && Pushed(c, frames[..n]) == out;
      }
    }
  }

  /** What the queue is offered, exactly: each sensor frame that is kept and comes back from the encoder,
    * once and in order, with the encoder's bytes and flag and its own synthesized time. */
  lemma PushedExactly(c: Config, frames: seq<VideoFrame>)
    ensures PushedOk(c, frames, |frames|, PushedFrom(c, frames), Pushed(c, frames))
  {
    PushedUpTo(c, frames, |frames|);
    assert frames[..|frames|] == frames;
  }

  /** The loop of h264_thread over the frames the sensor delivers. */
  method H264Thread(c: Config, frames: seq<VideoFrame>) returns (out: seq<FQ.Frame>, ghost t: Timer)
    ensures out == Pushed(c, frames) && t == Run(c, START, Sensors(frames))
  {
    var pts, lastKept, nextKeep, prevMotion := 0, -1, 0, -1;
    out := [];
    for i := 0 to |frames|
      invariant Timer(pts, lastKept, nextKeep, prevMotion) == Run(c, START, Sensors(frames[..i]))
      invariant out == Pushed(c, frames[..i])
    {
      var f := frames[i];
      ghost var before := Timer(pts, lastKept, nextKeep, prevMotion);
      var hw, motion := f.sensor.hw, f.sensor.motion;
      var fpsHigh := if c.fpsHigh < 1 then 1 else c.fpsHigh;
      var fpsLow := if c.fpsLow < 1 then 1 else c.fpsLow;
      var targetFps := if motion == MOTION_DETECTED then fpsHigh else fpsLow;
      var keepInterval := SECOND / targetFps;
      var transition := motion != prevMotion;
      prevMotion := motion;
      if lastKept >= 0 && !transition {
        if hw < nextKeep {
          PushedSnoc(c, frames, i);
          continue;
        }
        nextKeep := nextKeep + keepInterval;
        if nextKeep <= hw {
          nextKeep := hw + keepInterval;
        }
      } else {
        nextKeep := hw + keepInterval;
      }
      if lastKept < 0 || transition {
        pts := pts + SECOND / fpsHigh;
      } else if motion == MOTION_DETECTED {
        pts := pts + (hw - lastKept);
      } else {
        pts := pts + CDiv((hw - lastKept) * fpsLow, fpsHigh);
      }
      lastKept := hw;
      assert Keeps(before, f.sensor) && Timer(pts, lastKept, nextKeep, prevMotion) == Step(c, before, f.sensor);
      PushedSnoc(c, frames, i);
      if f.encoded.Some? {
        out := out + [FQ.Frame(f.encoded.value.bytes, f.encoded.value.isKey, pts)];
      }
    }
    assert frames[..|frames|] == frames;
    t := Timer(pts, lastKept, nextKeep, prevMotion);
  }

  /** The queue is offered non-decreasing times. */
  lemma {:induction false} PushedNeverRewinds(c: Config, frames: seq<VideoFrame>)
    requires Ordered(Sensors(frames))
    ensures forall i, j :: 0 <= i < j < |Pushed(c, frames)| ==>
              Pushed(c, frames)[i].ptsUs <= Pushed(c, frames)[j].ptsUs
    ensures forall i :: 0 <= i < |Pushed(c, frames)| ==>
              Pushed(c, frames)[i].ptsUs <= Run(c, START, Sensors(frames)).pts
  {
    if frames != [] {
      var init := frames[..|frames| - 1];
      var fs := Sensors(frames);
      assert fs[..|fs| - 1] == Sensors(init);
      assert Ordered(Sensors(init));
      PushedNeverRewinds(c, init);
      TimelineNeverRewinds(c, fs, |fs| - 1);
    }
  }
}
