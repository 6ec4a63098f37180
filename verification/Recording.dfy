/** From the sensor to the card: the capture thread's frames through the queue and the writer's gate
  * into the cutter, and its segments through the handler onto the disk. */
module Recording {
  import opened Base
  import opened Arithmetic
  import FQ = FrameQueue
  import Pipeline
  import Retimer
  import HM = HlsMedia
  import Disk
  import Pub = Publisher
  import Card
  import Writer

  /** What the writer hands the cutter for frame id, when the muxer makes `mux(id)` of it. */
  function InputOf(offered: seq<FQ.Frame>, id: nat, mux: nat -> seq<byte>): HM.Input
    requires id < |offered|
  {
    var ms := Retimer.CDiv(offered[id].ptsUs, 1000);
    HM.Input(true, false, offered[id].isKey, ms, ms, mux(id))
  }

  /** It is what the writer feeds it, under the frame's time in whole milliseconds. */
  lemma InputIsFed(offered: seq<FQ.Frame>, id: nat, mux: nat -> seq<byte>)
    requires id < |offered|
    ensures var i, x := InputOf(offered, id, mux), Writer.FedOf(offered[id]);
            && i.isVideo && !i.empty && i.key == x.isKey == offered[id].isKey && i.pts == i.dts == x.ptsMs
            && Writer.FedOk(x, offered[id])
  {
    Writer.FedOfOk(offered[id]);
  }

  ghost predicate Known(offered: seq<FQ.Frame>, ids: seq<nat>)
  {
    forall k :: 0 <= k < |ids| ==> ids[k] < |offered|
  }

  function Inputs(offered: seq<FQ.Frame>, ids: seq<nat>, mux: nat -> seq<byte>): (r: seq<HM.Input>)
    requires Known(offered, ids)
    ensures |r| == |ids|
  {
    seq(|ids|, k requires 0 <= k < |ids| => InputOf(offered, ids[k], mux))
  }

  /** The same with the handler's answers. */
  function Feeds(offered: seq<FQ.Frame>, ids: seq<nat>, mux: nat -> seq<byte>, ok: nat -> bool): (r: seq<HM.Feed>)
    requires Known(offered, ids)
    ensures |r| == |ids|
  {
    seq(|ids|, k requires 0 <= k < |ids| => HM.Feed(InputOf(offered, ids[k], mux), ok(k)))
  }

  lemma CDivMono(a: int, b: int, d: int)
    requires a <= b && d > 0
    ensures Retimer.CDiv(a, d) <= Retimer.CDiv(b, d)
  {
    if a >= 0 {
      DivMono(a, b, d);
    } else if b < 0 {
      DivMono(-b, -a, d);
    } else {
      DivMono(0, -a, d);
      DivMono(0, b, d);
    }
  }

  lemma DivMono(a: int, b: int, d: int)
    requires 0 <= a <= b && d > 0
    ensures 0 <= a / d <= b / d
  {
    DivBounds(a, d);
    DivAtLeast(a, d, 0);
    DivAtLeast(b, d, a / d);
  }

  /** The queue was offered what the capture thread pushed; a frame whose copy failed counts as one
    * the encoder gave nothing for. */
  ghost predicate Captured(c: Retimer.Config, frames: seq<Retimer.VideoFrame>, offered: seq<FQ.Frame>)
  {
    Retimer.Ordered(Retimer.Sensors(frames)) && offered == Retimer.Pushed(c, frames)
  }

  /** What reaches the cutter never goes back in time. */
  lemma FeedsAreOrdered(c: Retimer.Config, frames: seq<Retimer.VideoFrame>,
                        offered: seq<FQ.Frame>, ids: seq<nat>, mux: nat -> seq<byte>,
                        ok: nat -> bool)
    requires Captured(c, frames, offered) && FQ.Increasing(ids, |offered|)
    requires forall id :: mux(id) != []
    ensures Known(offered, ids)
    ensures HM.VideoFeeds(Feeds(offered, ids, mux, ok))
  {
    Retimer.PushedNeverRewinds(c, frames);
    var fs := Feeds(offered, ids, mux, ok);
    forall k | 0 <= k < |fs| ensures HM.Video(fs[k].input) {
      assert fs[k] == HM.Feed(InputOf(offered, ids[k], mux), ok(k));
    }
    forall j, k | 0 <= j < k < |fs| ensures fs[j].input.dts <= fs[k].input.dts {
      assert fs[j] == HM.Feed(InputOf(offered, ids[j], mux), ok(j));
      assert fs[k] == HM.Feed(InputOf(offered, ids[k], mux), ok(k));
      assert ids[j] < ids[k] < |offered|;
      assert offered[ids[j]].ptsUs <= offered[ids[k]].ptsUs;
      CDivMono(offered[ids[j]].ptsUs, offered[ids[k]].ptsUs, 1000);
    }
  }

  /** The cutter sees a rewind or a flush at frame k of an instance. */
  predicate Rewinds(offered: seq<FQ.Frame>, ids: seq<nat>, mux: nat -> seq<byte>, ok: nat -> bool, maxsize: nat, k: nat)
    requires Known(offered, ids) && k < |ids|
  {
    var fs := Feeds(offered, ids, mux, ok);
    HM.Forced(HM.Run(0, maxsize, fs[..k]).m, fs[k].input)
  }

  lemma NoRewinds(offered: seq<FQ.Frame>, ids: seq<nat>, mux: nat -> seq<byte>, ok: nat -> bool,
                  maxsize: nat)
    requires Known(offered, ids) && HM.VideoFeeds(Feeds(offered, ids, mux, ok))
    ensures forall k :: 0 <= k < |ids| ==> !Rewinds(offered, ids, mux, ok, maxsize, k)
  {
    var fs := Feeds(offered, ids, mux, ok);
    forall k | 0 <= k < |ids| ensures !Rewinds(offered, ids, mux, ok, maxsize, k) {
      assert fs[..k + 1] == fs[..k] + [fs[k]];
      HM.NeverRewinds(0, maxsize, fs[..k], fs[k]);
    }
  }

  /** Over every run of sensor frames, queue interleavings and rollovers, and whatever the handler
    * answers: the recording of each instance starts with a keyframe, each further segment starts
    * with one or follows a full segment, and the cutter's rewind never fires. */
  lemma {:induction false} SegmentsStartWithKeyframes(
      c: Retimer.Config, frames: seq<Retimer.VideoFrame>, capacity: nat, events: seq<Pipeline.Event>, i: nat,
      mux: nat -> seq<byte>, ok: nat -> bool, maxsize: nat)
    requires capacity >= 1 && i < |Pipeline.RunPipe(capacity, events).instances|
    requires Captured(c, frames, Pipeline.RunPipe(capacity, events).q.offered)
    requires forall id :: mux(id) != []
    ensures var p := Pipeline.RunPipe(capacity, events);
            var ids := p.instances[i];
            && Known(p.q.offered, ids)
            && HM.VideoFeeds(Feeds(p.q.offered, ids, mux, ok))
            && var pieces := HM.Pieces(HM.Run(0, maxsize, Feeds(p.q.offered, ids, mux, ok)));
               && HM.PiecesOk(0, maxsize, pieces)
               && (forall k :: 0 <= k < |ids| ==> !Rewinds(p.q.offered, ids, mux, ok, maxsize, k))
               && (ids != [] ==> pieces != [] && pieces[0] != [] && pieces[0][0].key)
  {
    var p := Pipeline.RunPipe(capacity, events);
    var ids := p.instances[i];
    Pipeline.InstancesFollowStreamLaw(capacity, events);
    assert Pipeline.InstanceOk(p.q, ids);
    FeedsAreOrdered(c, frames, p.q.offered, ids, mux, ok);
    var fs := Feeds(p.q.offered, ids, mux, ok);
    HM.SegmentsCutWhereDue(0, maxsize, fs);
    NoRewinds(p.q.offered, ids, mux, ok, maxsize);
    if ids != [] {
      HM.FirstPiece(0, maxsize, fs);
      assert fs[0] == HM.Feed(InputOf(p.q.offered, ids[0], mux), ok(0));
    }
  }

  // ------------------------------------------------ segments and GOPs

  lemma {:induction false} PieceIsSlice<T>(p: seq<seq<T>>, j: nat) returns (a: nat)
    requires j < |p|
    ensures a + |p[j]| <= |Flatten(p)| && Flatten(p)[a..a + |p[j]|] == p[j]
  {
    var n := |p| - 1;
    if j == n {
      a := |Flatten(p[..n])|;
    } else {
      a := PieceIsSlice(p[..n], j);
      assert p[..n][j] == p[j];
      assert Flatten(p)[a..a + |p[j]|] == Flatten(p[..n])[a..a + |p[j]|];
    }
  }

  /** A stretch of a chain that starts with a keyframe and has no other is a GOP prefix. */
  lemma {:induction false} StretchIsGopPrefix(offered: seq<FQ.Frame>, s: seq<nat>, a: nat, b: nat)
    requires FQ.Chain(offered, {}, s) && a < b <= |s|
    requires FQ.IsKey(offered, s[a]) && forall k :: a < k < b ==> !FQ.IsKey(offered, s[k])
    ensures Pipeline.GopPrefix(offered, s[a..b])
    decreases b - a
  {
    var g := s[a..b];
    if b - a > 1 {
      StretchIsGopPrefix(offered, s, a, b - 1);
      var h := s[a..b - 1];
      assert g == h + [s[b - 1]];
      assert FQ.Follows(offered, {}, s[b - 2], s[b - 1]);
      assert h[|h| - 1] == s[b - 2];
      assert h[|h| - 1] == h[0] + |h| - 1;
    }
  }

  /** A handler that always succeeds. */
  function Succeeds(k: nat): bool { true }

  lemma {:induction false} EveryFrameAccepted(offered: seq<FQ.Frame>, ids: seq<nat>, mux: nat -> seq<byte>,
                                              maxsize: nat)
    requires Known(offered, ids)
    ensures HM.Run(0, maxsize, Feeds(offered, ids, mux, Succeeds)).accepted == Inputs(offered, ids, mux)
  {
    var fs := Feeds(offered, ids, mux, Succeeds);
    forall k | 0 <= k < |fs| ensures fs[k] == HM.Feed(Inputs(offered, ids, mux)[k], true) {
      assert Succeeds(k);
    }
    HM.AllAccepted(maxsize, fs);
  }

  lemma InputsAreGopPrefix(offered: seq<FQ.Frame>, s: seq<nat>, mux: nat -> seq<byte>, a: nat, b: nat,
                           piece: seq<HM.Input>)
    requires FQ.Chain(offered, {}, s) && Known(offered, s) && a < b <= |s|
    requires piece == Inputs(offered, s, mux)[a..b]
    requires piece[0].key && forall k :: 1 <= k < |piece| ==> !piece[k].key
    ensures Pipeline.GopPrefix(offered, s[a..b])
  {
    forall k | a <= k < b ensures FQ.IsKey(offered, s[k]) == piece[k - a].key {
      assert piece[k - a] == Inputs(offered, s, mux)[k] == InputOf(offered, s[k], mux);
    }
    StretchIsGopPrefix(offered, s, a, b);
  }

  /** When what the cutter accepted are the frames s, in a chain that starts with a keyframe: one piece. */
  lemma PieceIsGopPrefix(offered: seq<FQ.Frame>, s: seq<nat>, mux: nat -> seq<byte>, maxsize: nat,
                         fs: seq<HM.Feed>, j: nat)
    returns (a: nat, b: nat)
    requires HM.VideoFeeds(fs) && maxsize > 0 && Known(offered, s) && FQ.Chain(offered, {}, s)
    requires HM.Run(0, maxsize, fs).accepted == Inputs(offered, s, mux)
    requires s != [] ==> FQ.IsKey(offered, s[0])
    requires var pieces := HM.Pieces(HM.Run(0, maxsize, fs));
             j < |pieces| && (j > 0 ==> |HM.Packets(pieces[j - 1])| < maxsize)
    ensures a <= b <= |s|
    ensures HM.Pieces(HM.Run(0, maxsize, fs))[j] == Inputs(offered, s, mux)[a..b]
    ensures Pipeline.GopPrefix(offered, s[a..b])
  {
    var l := HM.Run(0, maxsize, fs);
    var pieces: seq<seq<HM.Input>> := HM.Pieces(l);
    HM.ZeroDurationSegments(maxsize, fs, j);
    HM.SegmentsCutWhereDue(0, maxsize, fs);
    assert l.accepted == Flatten(pieces) && HM.PiecesOk(0, maxsize, pieces);
    a := PieceIsSlice(pieces, j);
    b := a + |pieces[j]|;
    if j > 0 {
      assert HM.StartsWell(maxsize, pieces[j - 1], pieces[j]);
    } else {
      HM.FirstPiece(0, maxsize, fs);
      HM.FirstIsAccepted(0, maxsize, fs);
      assert l.accepted[0] == InputOf(offered, s[0], mux);
    }
    hide HM.Run, HM.Pieces, HM.PiecesOk, HM.VideoFeeds, HM.Packets, FQ.Chain;
    InputsAreGopPrefix(offered, s, mux, a, b, pieces[j]);
  }

  // ------------------------------------------------ when the handler may fail

  function Pick<T>(s: seq<T>, at: seq<nat>): (r: seq<T>)
    requires forall j :: 0 <= j < |at| ==> at[j] < |s|
    ensures |r| == |at|
  {
    seq(|at|, j requires 0 <= j < |at| => s[at[j]])
  }

  /** The frames of an instance that the cutter accepts. */
  function Accepted(offered: seq<FQ.Frame>, ids: seq<nat>, mux: nat -> seq<byte>, ok: nat -> bool,
                    maxsize: nat): seq<nat>
    requires Known(offered, ids)
  {
    Pick(ids, HM.Taken(HM.Run(0, maxsize, []), Feeds(offered, ids, mux, ok)))
  }

  /** The handler fails the cut that frame k of the instance makes. */
  predicate CutFails(offered: seq<FQ.Frame>, ids: seq<nat>, mux: nat -> seq<byte>, ok: nat -> bool,
                     maxsize: nat, k: nat)
    requires Known(offered, ids) && k < |ids|
  {
    HM.FailedCut(HM.Run(0, maxsize, []), Feeds(offered, ids, mux, ok), k)
  }

  /** Directly behind a frame whose cut failed comes another such frame or a keyframe. */
  ghost predicate ResumesWithKey(offered: seq<FQ.Frame>, ids: seq<nat>, mux: nat -> seq<byte>, ok: nat -> bool,
                                 maxsize: nat)
    requires Known(offered, ids)
  {
    forall j, k :: 0 <= j && k == j + 1 && k < |ids|
                   && CutFails(offered, ids, mux, ok, maxsize, j) && !CutFails(offered, ids, mux, ok, maxsize, k) ==>
      FQ.IsKey(offered, ids[k])
  }

  ghost predicate StrictlyBelow(at: seq<nat>, n: nat)
  {
    && (forall i, j :: 0 <= i < j < |at| ==> at[i] < at[j])
    && (forall i :: 0 <= i < |at| ==> at[i] < n)
  }

  lemma NothingBetween(at: seq<nat>, n: nat, i: nat, t: nat)
    requires StrictlyBelow(at, n) && i + 1 < |at| && at[i] < t < at[i + 1]
    ensures t !in at
  {
  }

  /** Leaving frames out of a chain keeps it one exactly when the first frame after each gap is a keyframe. */
  lemma PickedChainExactly(offered: seq<FQ.Frame>, ids: seq<nat>, at: seq<nat>)
    requires FQ.Increasing(ids, |offered|) && FQ.Chain(offered, {}, ids)
    requires StrictlyBelow(at, |ids|) && (ids != [] ==> 0 in at)
    ensures FQ.Chain(offered, {}, Pick(ids, at))
       <==> forall j, k :: 0 <= j && k == j + 1 && k < |ids| && j !in at && k in at ==> FQ.IsKey(offered, ids[k])
  {
    var s := Pick(ids, at);
    if FQ.Chain(offered, {}, s) {
      forall j, k | 0 <= j && k == j + 1 && k < |ids| && j !in at && k in at ensures FQ.IsKey(offered, ids[k]) {
        var y :| 0 <= y < |at| && at[y] == k;
        var z :| 0 <= z < |at| && at[z] == 0;
        assert y > 0;
        assert FQ.Follows(offered, {}, s[y - 1], s[y]);
        assert at[y - 1] < j;
        assert ids[at[y - 1]] < ids[j] < ids[k];
      }
    }
    if forall j, k :: 0 <= j && k == j + 1 && k < |ids| && j !in at && k in at ==> FQ.IsKey(offered, ids[k]) {
      forall x, y | 0 <= x && y == x + 1 && y < |s| ensures FQ.Follows(offered, {}, s[x], s[y]) {
        if at[y] == at[x] + 1 {
          assert FQ.Follows(offered, {}, ids[at[x]], ids[at[y]]);
        } else {
          NothingBetween(at, |ids|, x, at[y] - 1);
        }
      }
    }
  }

  lemma FirstPicked(ids: seq<nat>, at: seq<nat>)
    requires StrictlyBelow(at, |ids|) && 0 in at
    ensures Pick(ids, at)[0] == ids[0]
  {
    var z :| 0 <= z < |at| && at[z] == 0;
    assert at[0] <= at[z];
  }

  /** What the cutter accepts of an instance: all but the frames whose own cut the handler failed, never
    * the first. */
  lemma AcceptedAreInputs(offered: seq<FQ.Frame>, ids: seq<nat>, mux: nat -> seq<byte>, ok: nat -> bool, maxsize: nat)
    requires Known(offered, ids)
    ensures var l0, fs := HM.Run(0, maxsize, []), Feeds(offered, ids, mux, ok);
            var at := HM.Taken(l0, fs);
            && StrictlyBelow(at, |ids|) && (ids != [] ==> 0 in at)
            && (forall k: nat :: k < |ids| ==> (k in at <==> !CutFails(offered, ids, mux, ok, maxsize, k)))
            && Known(offered, Pick(ids, at))
            && HM.Run(0, maxsize, fs).accepted == Inputs(offered, Pick(ids, at), mux)
  {
    var l0, fs := HM.Run(0, maxsize, []), Feeds(offered, ids, mux, ok);
    var at := HM.Taken(l0, fs);
    HM.LosesOnlyFailedCuts(l0, fs);
    HM.RunIsRunFrom(0, maxsize, fs);
    assert l0.accepted == [];
    ZeroDurationLosses(maxsize, fs);
    hide HM.RunFrom, HM.Taken, HM.Run, HM.Lost, HM.Adds, Inputs, Pick;
    AddedAreInputs(offered, ids, mux, ok, l0, at, HM.RunFrom(l0, fs));
  }

  lemma AddedAreInputs(offered: seq<FQ.Frame>, ids: seq<nat>, mux: nat -> seq<byte>, ok: nat -> bool,
                       l0: HM.Log, at: seq<nat>, r: HM.Log)
    requires Known(offered, ids) && StrictlyBelow(at, |ids|) && l0.accepted == []
    requires HM.Adds(l0, Feeds(offered, ids, mux, ok), at, r)
    ensures Known(offered, Pick(ids, at)) && r.accepted == Inputs(offered, Pick(ids, at), mux)
  {
    forall j | 0 <= j < |at| ensures r.accepted[j] == Inputs(offered, Pick(ids, at), mux)[j] {
      assert Feeds(offered, ids, mux, ok)[at[j]] == HM.Feed(InputOf(offered, ids[at[j]], mux), ok(at[j]));
    }
  }

  /** With duration 0 only failed cuts lose anything, and the first input makes no cut. */
  lemma ZeroDurationLosses(maxsize: nat, fs: seq<HM.Feed>)
    ensures var l0 := HM.Run(0, maxsize, []);
            && (forall k: nat :: k < |fs| ==> (HM.Lost(l0, fs, k) <==> HM.FailedCut(l0, fs, k)))
            && (fs != [] ==> !HM.FailedCut(l0, fs, 0))
  {
    var l0 := HM.Run(0, maxsize, []);
    assert l0.m.buf == [];
    if fs != [] {
      assert fs[..0] == [];
    }
    forall k: nat | k < |fs| ensures !HM.EndedBy(l0, fs, k) {
      HM.NeverEnds(0, maxsize, fs[..k + 1]);
      HM.RunIsRunFrom(0, maxsize, fs[..k + 1]);
    }
  }

  /** With keyframes dense enough for the queue and a handler that succeeds, each segment of the
    * recording holds exactly a keyframe and frames offered directly after it, none of them key:
    * the prefix of one GOP, unless the segment before it was cut by size. */
  lemma SegmentsAreGopPrefixes(
      c: Retimer.Config, frames: seq<Retimer.VideoFrame>, capacity: nat, events: seq<Pipeline.Event>, i: nat,
      mux: nat -> seq<byte>, maxsize: nat, j: nat)
    returns (a: nat, b: nat)
    requires capacity >= 1 && maxsize > 0 && i < |Pipeline.RunPipe(capacity, events).instances|
    requires Captured(c, frames, Pipeline.RunPipe(capacity, events).q.offered)
    requires FQ.Dense(Pipeline.RunPipe(capacity, events).q.offered, capacity)
    requires forall id :: mux(id) != []
    requires Known(Pipeline.RunPipe(capacity, events).q.offered, Pipeline.RunPipe(capacity, events).instances[i])
    requires var p := Pipeline.RunPipe(capacity, events);
             var pieces := HM.Pieces(HM.Run(0, maxsize, Feeds(p.q.offered, p.instances[i], mux, Succeeds)));
             j < |pieces| && (j > 0 ==> |HM.Packets(pieces[j - 1])| < maxsize)
    ensures var p := Pipeline.RunPipe(capacity, events);
            var pieces := HM.Pieces(HM.Run(0, maxsize, Feeds(p.q.offered, p.instances[i], mux, Succeeds)));
            && a <= b <= |p.instances[i]|
            && pieces[j] == Inputs(p.q.offered, p.instances[i], mux)[a..b]
            && Pipeline.GopPrefix(p.q.offered, p.instances[i][a..b])
  {
    var p := Pipeline.RunPipe(capacity, events);
    var ids := p.instances[i];
    SegmentsStartWithKeyframes(c, frames, capacity, events, i, mux, Succeeds, maxsize);
    EveryFrameAccepted(p.q.offered, ids, mux, maxsize);
    NoOrphans(capacity, events, i);
    a, b := PieceIsGopPrefix(p.q.offered, ids, mux, maxsize, Feeds(p.q.offered, ids, mux, Succeeds), j);
  }

  /** Whatever the handler answers, when no overflow left an orphan: the accepted frames of an instance
    * are a chain, each a keyframe or the frame offered directly behind the one accepted before it, if
    * and only if directly behind a frame whose cut failed comes another such frame or a keyframe. */
  lemma AcceptedChainExactly(capacity: nat, events: seq<Pipeline.Event>, i: nat,
                             mux: nat -> seq<byte>, ok: nat -> bool, maxsize: nat)
    requires capacity >= 1 && i < |Pipeline.RunPipe(capacity, events).instances|
    requires Pipeline.RunPipe(capacity, events).q.orphans == {}
    ensures var p := Pipeline.RunPipe(capacity, events);
            var ids := p.instances[i];
            && Known(p.q.offered, ids) && Known(p.q.offered, Accepted(p.q.offered, ids, mux, ok, maxsize))
            && var s := Accepted(p.q.offered, ids, mux, ok, maxsize);
               && HM.Run(0, maxsize, Feeds(p.q.offered, ids, mux, ok)).accepted == Inputs(p.q.offered, s, mux)
               && (s != [] ==> FQ.IsKey(p.q.offered, s[0]))
               && (FQ.Chain(p.q.offered, {}, s) <==> ResumesWithKey(p.q.offered, ids, mux, ok, maxsize))
  {
    Pipeline.InstancesFollowStreamLaw(capacity, events);
    var p := Pipeline.RunPipe(capacity, events);
    assert Pipeline.InstanceOk(p.q, p.instances[i]);
    hide Pipeline.RunPipe;
    InstanceChainExactly(p.q, p.instances[i], mux, ok, maxsize);
  }

  lemma InstanceChainExactly(q: FQ.Queue, ids: seq<nat>, mux: nat -> seq<byte>, ok: nat -> bool, maxsize: nat)
    requires Pipeline.InstanceOk(q, ids) && q.orphans == {}
    ensures Known(q.offered, ids) && Known(q.offered, Accepted(q.offered, ids, mux, ok, maxsize))
    ensures var s := Accepted(q.offered, ids, mux, ok, maxsize);
            && HM.Run(0, maxsize, Feeds(q.offered, ids, mux, ok)).accepted == Inputs(q.offered, s, mux)
            && (s != [] ==> FQ.IsKey(q.offered, s[0]))
            && (FQ.Chain(q.offered, {}, s) <==> ResumesWithKey(q.offered, ids, mux, ok, maxsize))
  {
    AcceptedAreInputs(q.offered, ids, mux, ok, maxsize);
    var at := HM.Taken(HM.Run(0, maxsize, []), Feeds(q.offered, ids, mux, ok));
    PickedChainExactly(q.offered, ids, at);
    if ids != [] {
      FirstPicked(ids, at);
    }
    assert Accepted(q.offered, ids, mux, ok, maxsize) == Pick(ids, at);
    hide Accepted, Inputs, Feeds, Pick, HM.Taken, HM.Run, CutFails, FQ.Chain;
  }

  /** And then each segment is the prefix of one GOP, unless the one before was cut by size. */
  lemma ResumedSegmentsAreGopPrefixes(
      c: Retimer.Config, frames: seq<Retimer.VideoFrame>, capacity: nat, events: seq<Pipeline.Event>, i: nat,
      mux: nat -> seq<byte>, ok: nat -> bool, maxsize: nat, j: nat)
    returns (a: nat, b: nat)
    requires capacity >= 1 && maxsize > 0 && i < |Pipeline.RunPipe(capacity, events).instances|
    requires Captured(c, frames, Pipeline.RunPipe(capacity, events).q.offered)
    requires Pipeline.RunPipe(capacity, events).q.orphans == {}
    requires forall id :: mux(id) != []
    requires Known(Pipeline.RunPipe(capacity, events).q.offered, Pipeline.RunPipe(capacity, events).instances[i])
    requires var p := Pipeline.RunPipe(capacity, events);
             var pieces := HM.Pieces(HM.Run(0, maxsize, Feeds(p.q.offered, p.instances[i], mux, ok)));
             && ResumesWithKey(p.q.offered, p.instances[i], mux, ok, maxsize)
             && j < |pieces| && (j > 0 ==> |HM.Packets(pieces[j - 1])| < maxsize)
    ensures var p := Pipeline.RunPipe(capacity, events);
            var pieces := HM.Pieces(HM.Run(0, maxsize, Feeds(p.q.offered, p.instances[i], mux, ok)));
            var s := Accepted(p.q.offered, p.instances[i], mux, ok, maxsize);
            && a <= b <= |s| && Known(p.q.offered, s)
            && pieces[j] == Inputs(p.q.offered, s, mux)[a..b]
            && Pipeline.GopPrefix(p.q.offered, s[a..b])
  {
    var p := Pipeline.RunPipe(capacity, events);
    var ids := p.instances[i];
    SegmentsStartWithKeyframes(c, frames, capacity, events, i, mux, ok, maxsize);
    AcceptedChainExactly(capacity, events, i, mux, ok, maxsize);
    var s := Accepted(p.q.offered, ids, mux, ok, maxsize);
    hide Pipeline.RunPipe, Accepted, ResumesWithKey, Captured;
    a, b := PieceIsGopPrefix(p.q.offered, s, mux, maxsize, Feeds(p.q.offered, ids, mux, ok), j);
  }

  lemma {:induction false} NoOrphans(capacity: nat, events: seq<Pipeline.Event>, i: nat)
    requires capacity >= 1 && i < |Pipeline.RunPipe(capacity, events).instances|
    requires FQ.Dense(Pipeline.RunPipe(capacity, events).q.offered, capacity)
    ensures var p := Pipeline.RunPipe(capacity, events);
            p.q.orphans == {} && Pipeline.InstanceOk(p.q, p.instances[i])
  {
    Pipeline.InstancesFollowStreamLaw(capacity, events);
    Pipeline.PipeRunsQueue(capacity, events);
    FQ.DenseRunHasNoOrphan(capacity, Pipeline.QueueActions(events));
  }

  // ------------------------------------------------------------- the card

  /** The last input of a closed instance, if it has been closed. */
  ghost predicate MayClose(flush: Option<HM.Input>)
  {
    flush.Some? ==> HM.IsFlush(flush.value)
  }

  /** How the two writes of the handler go, should it be called. */
  datatype Writes = Writes(ts: Pub.Fault, index: Pub.Fault)

  /** No write fails. */
  function NoFaults(k: nat): Writes { Writes(Pub.NoFault, Pub.NoFault) }

  /** An instance's inputs and, when it is closed, the flush; `writes` says how the handler's writes go at
    * each of them. */
  function CardEvents(offered: seq<FQ.Frame>, ids: seq<nat>, mux: nat -> seq<byte>, writes: nat -> Writes,
                      flush: Option<HM.Input>): seq<Card.Event>
    requires Known(offered, ids)
  {
    seq(|ids|, k requires 0 <= k < |ids| => Card.Event(InputOf(offered, ids[k], mux), writes(k).ts, writes(k).index))
    + (if flush.Some? then [Card.Event(flush.value, writes(|ids|).ts, writes(|ids|).index)] else [])
  }

  /** The flush hands over what is left. */
  lemma {:induction false} FlushTakesRest(maxsize: nat, fs: seq<HM.Feed>, flush: HM.Input)
    requires HM.VideoFeeds(fs) && HM.IsFlush(flush)
    ensures var l := HM.Run(0, maxsize, fs);
            HM.Next(l, HM.Feed(flush, true)).segments == HM.Pieces(l)
  {
    HM.SegmentsCutWhereDue(0, maxsize, fs);
    HM.NeverEnds(0, maxsize, fs);
  }

  lemma EventsAnswer(offered: seq<FQ.Frame>, ids: seq<nat>, mux: nat -> seq<byte>, flush: Option<HM.Input>)
    requires Known(offered, ids)
    ensures Card.Faultless(CardEvents(offered, ids, mux, NoFaults, flush))
    ensures Card.Answers(CardEvents(offered, ids, mux, NoFaults, flush))
         == Feeds(offered, ids, mux, Succeeds) + (if flush.Some? then [HM.Feed(flush.value, true)] else [])
  {
    var es := CardEvents(offered, ids, mux, NoFaults, flush);
    var fs := Feeds(offered, ids, mux, Succeeds) + (if flush.Some? then [HM.Feed(flush.value, true)] else []);
    forall k | 0 <= k < |es| ensures es[k].Succeeds() && Card.Answers(es)[k] == fs[k] {
      assert NoFaults(k) == Writes(Pub.NoFault, Pub.NoFault);
      assert k < |ids| ==> Succeeds(k);
    }
  }

  /** The segments handed over are the pieces of the instance, all of them once it is closed. */
  lemma {:induction false} SegmentsArePieces(offered: seq<FQ.Frame>, ids: seq<nat>, mux: nat -> seq<byte>,
                                             maxsize: nat, flush: Option<HM.Input>)
    requires Known(offered, ids) && MayClose(flush) && HM.VideoFeeds(Feeds(offered, ids, mux, Succeeds))
    ensures var segments := Card.Run(0, maxsize, CardEvents(offered, ids, mux, NoFaults, flush)).log.segments;
            var pieces := HM.Pieces(HM.Run(0, maxsize, Feeds(offered, ids, mux, Succeeds)));
            segments <= pieces && (flush.Some? ==> segments == pieces)
  {
    var es, fs := CardEvents(offered, ids, mux, NoFaults, flush), Feeds(offered, ids, mux, Succeeds);
    EventsAnswer(offered, ids, mux, flush);
    Card.LogIsRun(0, maxsize, es);
    if flush.Some? {
      FlushTakesRest(maxsize, fs, flush.value);
      var all := fs + [HM.Feed(flush.value, true)];
      assert all[..|all| - 1] == fs;
    } else {
      assert Card.Answers(es) == fs;
    }
  }

  /** The pieces an instance's frames are cut into when the handler succeeds. */
  function PiecesOf(offered: seq<FQ.Frame>, ids: seq<nat>, mux: nat -> seq<byte>, maxsize: nat): seq<seq<HM.Input>>
    requires Known(offered, ids)
  {
    HM.Pieces(HM.Run(0, maxsize, Feeds(offered, ids, mux, Succeeds)))
  }

  function CallsOf(offered: seq<FQ.Frame>, ids: seq<nat>, mux: nat -> seq<byte>, maxsize: nat, writes: nat -> Writes,
                   flush: Option<HM.Input>): seq<Pub.Call>
    requires Known(offered, ids)
  {
    Card.Run(0, maxsize, CardEvents(offered, ids, mux, writes, flush)).calls
  }

  /** What was found has a playlist of at least n segments, if n > 0, and each segment it lists holds the
    * packets of one piece, in order. */
  ghost predicate HoldsPieces(img: Disk.Image, pieces: seq<seq<HM.Input>>, n: nat)
  {
    && (n > 0 ==> Disk.Index in img)
    && (Disk.Index in img ==>
          && img[Disk.Index].Playlist? && n <= img[Disk.Index].count <= |pieces|
          && forall j :: 0 <= j < img[Disk.Index].count ==>
               Disk.Ts(j) in img && img[Disk.Ts(j)] == Disk.Segment(HM.Packets(pieces[j])))
  }

  lemma InstanceOnCard(offered: seq<FQ.Frame>, ids: seq<nat>, mux: nat -> seq<byte>, maxsize: nat,
                       flush: Option<HM.Input>, n: nat, k: nat, img: Disk.Image)
    requires Known(offered, ids) && MayClose(flush) && HM.VideoFeeds(Feeds(offered, ids, mux, Succeeds))
    requires var calls := CallsOf(offered, ids, mux, maxsize, NoFaults, flush);
             && n <= |calls| && |Pub.Trace(calls[..n])| - 1 <= k < |Pub.Trace(calls)|
             && Disk.MayLeave(Pub.Trace(calls)[k], img)
    ensures HoldsPieces(img, PiecesOf(offered, ids, mux, maxsize), n)
    ensures flush.Some? ==>
              |CallsOf(offered, ids, mux, maxsize, NoFaults, flush)| == |PiecesOf(offered, ids, mux, maxsize)|
  {
    hide HM.Run, HM.Pieces, HM.Packets, HM.VideoFeeds, Card.Run, Card.Faultless, CardEvents, Feeds, MayClose, Pub.Trace,
         Disk.MayLeave;
    var es := CardEvents(offered, ids, mux, NoFaults, flush);
    SegmentsArePieces(offered, ids, mux, maxsize, flush);
    EventsAnswer(offered, ids, mux, flush);
    Card.FaultlessCalls(0, maxsize, es);
    Card.CallsAreReports(0, maxsize, es);
    Card.FaultlessCard(0, maxsize, es, n, k, img);
  }

  /** From the sensor to the card.  Whatever the sensor delivered, however pushes, pops and rollovers
    * interleaved, without I/O errors: after n handler calls for an instance, a crash at any later step
    * leaves a playlist of at least n segments; each segment it lists is there and holds exactly the
    * packets of one piece of the instance's frames, the pieces in order.  Once the instance is closed
    * there has been a call for every piece. */
  lemma CardHoldsPieces(
      c: Retimer.Config, frames: seq<Retimer.VideoFrame>, capacity: nat, events: seq<Pipeline.Event>, i: nat,
      mux: nat -> seq<byte>, maxsize: nat, flush: Option<HM.Input>, n: nat, k: nat, img: Disk.Image)
    requires capacity >= 1 && i < |Pipeline.RunPipe(capacity, events).instances| && MayClose(flush)
    requires Captured(c, frames, Pipeline.RunPipe(capacity, events).q.offered)
    requires forall id :: mux(id) != []
    requires Known(Pipeline.RunPipe(capacity, events).q.offered, Pipeline.RunPipe(capacity, events).instances[i])
    requires var p := Pipeline.RunPipe(capacity, events);
             var calls := CallsOf(p.q.offered, p.instances[i], mux, maxsize, NoFaults, flush);
             && n <= |calls| && |Pub.Trace(calls[..n])| - 1 <= k < |Pub.Trace(calls)|
             && Disk.MayLeave(Pub.Trace(calls)[k], img)
    ensures var p := Pipeline.RunPipe(capacity, events);
            var pieces := PiecesOf(p.q.offered, p.instances[i], mux, maxsize);
            && HoldsPieces(img, pieces, n)
            && (flush.Some? ==> |CallsOf(p.q.offered, p.instances[i], mux, maxsize, NoFaults, flush)| == |pieces|)
  {
    var p := Pipeline.RunPipe(capacity, events);
    SegmentsStartWithKeyframes(c, frames, capacity, events, i, mux, Succeeds, maxsize);
    hide *;
    InstanceOnCard(p.q.offered, p.instances[i], mux, maxsize, flush, n, k, img);
  }

  /** The first m frames of an instance as the cutter gets them. */
  lemma FirstEvents(offered: seq<FQ.Frame>, ids: seq<nat>, mux: nat -> seq<byte>, writes: nat -> Writes,
                    flush: Option<HM.Input>, m: nat) returns (ok: nat -> bool)
    requires Known(offered, ids) && m <= |ids|
    ensures Known(offered, ids[..m])
    ensures Card.Answers(CardEvents(offered, ids, mux, writes, flush)[..m]) == Feeds(offered, ids[..m], mux, ok)
  {
    ok := (k: nat) => writes(k).ts == Pub.NoFault && writes(k).index == Pub.NoFault;
    var es := CardEvents(offered, ids, mux, writes, flush);
    forall k | 0 <= k < m ensures Card.Answers(es[..m])[k] == Feeds(offered, ids[..m], mux, ok)[k] {
    }
  }

  /** The segment of call j, when all calls before it returned 0: the piece last begun in the frames so
    * far, none of which was lost. */
  lemma CallIsPiece(offered: seq<FQ.Frame>, ids: seq<nat>, mux: nat -> seq<byte>, maxsize: nat,
                    writes: nat -> Writes, flush: Option<HM.Input>, j: nat)
    returns (m: nat, ok: nat -> bool)
    requires Known(offered, ids) && FQ.Increasing(ids, |offered|)
    requires j < |CallsOf(offered, ids, mux, maxsize, writes, flush)|
    requires Card.AllSucceed(CallsOf(offered, ids, mux, maxsize, writes, flush)[..j])
    ensures m <= |ids| && Known(offered, ids[..m])
    ensures var calls := CallsOf(offered, ids, mux, maxsize, writes, flush);
            var l := HM.Run(0, maxsize, Feeds(offered, ids[..m], mux, ok));
            && l.accepted == Inputs(offered, ids[..m], mux)
            && |HM.Pieces(l)| == j + 1 && HM.Packets(HM.Pieces(l)[j]) == calls[j].data
            && (j > 0 ==> HM.Packets(HM.Pieces(l)[j - 1]) == calls[j - 1].data)
  {
    var es := CardEvents(offered, ids, mux, writes, flush);
    var calls := CallsOf(offered, ids, mux, maxsize, writes, flush);
    m := Card.EventOfCall(0, maxsize, es, j);
    ok := FirstEvents(offered, ids, mux, writes, flush, m);
    var fs := Feeds(offered, ids[..m], mux, ok);
    Card.LogIsRun(0, maxsize, es[..m]);
    Card.CallsAreReports(0, maxsize, es[..m]);
    Card.NothingIsLost(maxsize, es[..m]);
    HM.RunPartitions(0, maxsize, fs);
    var l := HM.Run(0, maxsize, fs);
    forall k | 0 <= k < m ensures l.accepted[k] == Inputs(offered, ids[..m], mux)[k] {
      assert es[..m][k].input == InputOf(offered, ids[k], mux);
    }
    if j > 0 {
      assert calls[..j][j - 1] == calls[j - 1];
    }
  }

  /** With keyframes dense enough for the queue, and whatever fails on the way, as long as each handler
    * call before the last one listed returned 0: each segment file a playlist lists after any crash is
    * the packets of the prefix of one GOP, unless the segment before it was cut by size. */
  lemma CardHoldsGopPrefixes(
      c: Retimer.Config, frames: seq<Retimer.VideoFrame>, capacity: nat, events: seq<Pipeline.Event>, i: nat,
      mux: nat -> seq<byte>, maxsize: nat, writes: nat -> Writes, flush: Option<HM.Input>, k: nat, img: Disk.Image,
      j: nat)
    returns (a: nat, b: nat)
    requires capacity >= 1 && maxsize > 0 && i < |Pipeline.RunPipe(capacity, events).instances|
    requires Captured(c, frames, Pipeline.RunPipe(capacity, events).q.offered)
    requires FQ.Dense(Pipeline.RunPipe(capacity, events).q.offered, capacity)
    requires forall id :: mux(id) != []
    requires Known(Pipeline.RunPipe(capacity, events).q.offered, Pipeline.RunPipe(capacity, events).instances[i])
    requires var p := Pipeline.RunPipe(capacity, events);
             var calls := CallsOf(p.q.offered, p.instances[i], mux, maxsize, writes, flush);
             && Card.CleanUpToLast(calls)
             && k < |Pub.Trace(calls)| && Disk.MayLeave(Pub.Trace(calls)[k], img)
    requires Disk.Index in img && img[Disk.Index].Playlist? && j < img[Disk.Index].count
    requires j > 0 ==> Disk.Ts(j - 1) in img && img[Disk.Ts(j - 1)].Segment? && |img[Disk.Ts(j - 1)].data| < maxsize
    ensures var p := Pipeline.RunPipe(capacity, events);
            && a <= b <= |p.instances[i]|
            && Disk.Ts(j) in img
            && img[Disk.Ts(j)] == Disk.Segment(HM.Packets(Inputs(p.q.offered, p.instances[i], mux)[a..b]))
            && Pipeline.GopPrefix(p.q.offered, p.instances[i][a..b])
  {
    var p := Pipeline.RunPipe(capacity, events);
    NoOrphans(capacity, events, i);
    hide Pipeline.RunPipe, Pub.Trace, Disk.MayLeave;
    Card.CleanCard(CallsOf(p.q.offered, p.instances[i], mux, maxsize, writes, flush), k, img);
    a, b := ListedIsGopPrefix(c, frames, p.q, p.instances[i], mux, maxsize, writes, flush, img, j);
  }

  /** Of the calls listed, those before j returned 0, and the files hold the data of j and the one before. */
  lemma ListedIsCall(calls: seq<Pub.Call>, img: Disk.Image, j: nat)
    requires Disk.Playable(img, Pub.Segments(calls)) && Disk.Index in img && j < img[Disk.Index].count <= |calls|
    requires Card.AllSucceed(calls[..img[Disk.Index].count - 1])
    ensures Card.AllSucceed(calls[..j])
    ensures Disk.Ts(j) in img && img[Disk.Ts(j)] == Disk.Segment(calls[j].data)
    ensures j > 0 ==> Disk.Ts(j - 1) in img && img[Disk.Ts(j - 1)] == Disk.Segment(calls[j - 1].data)
  {
    forall h | 0 <= h < j ensures Pub.Succeeds(calls[..j][h]) {
      assert calls[..img[Disk.Index].count - 1][h] == calls[..j][h];
    }
    assert Pub.Segments(calls)[j] == calls[j].data;
    assert j > 0 ==> Pub.Segments(calls)[j - 1] == calls[j - 1].data;
  }

  lemma ListedIsGopPrefix(
      c: Retimer.Config, frames: seq<Retimer.VideoFrame>, q: FQ.Queue, ids: seq<nat>, mux: nat -> seq<byte>,
      maxsize: nat, writes: nat -> Writes, flush: Option<HM.Input>, img: Disk.Image, j: nat)
    returns (a: nat, b: nat)
    requires Captured(c, frames, q.offered) && Pipeline.InstanceOk(q, ids) && q.orphans == {} && maxsize > 0
    requires Known(q.offered, ids) && forall id :: mux(id) != []
    requires var calls := CallsOf(q.offered, ids, mux, maxsize, writes, flush);
             && Disk.Playable(img, Pub.Segments(calls)) && Disk.Index in img && j < img[Disk.Index].count <= |calls|
             && Card.AllSucceed(calls[..img[Disk.Index].count - 1])
    requires j > 0 ==> Disk.Ts(j - 1) in img && img[Disk.Ts(j - 1)].Segment? && |img[Disk.Ts(j - 1)].data| < maxsize
    ensures a <= b <= |ids|
    ensures Disk.Ts(j) in img && img[Disk.Ts(j)] == Disk.Segment(HM.Packets(Inputs(q.offered, ids, mux)[a..b]))
    ensures Pipeline.GopPrefix(q.offered, ids[a..b])
  {
    var calls := CallsOf(q.offered, ids, mux, maxsize, writes, flush);
    hide CallsOf, Captured, HM.Packets, Pipeline.GopPrefix, Pipeline.InstanceOk, FQ.Chain;
    ListedIsCall(calls, img, j);
    hide Disk.Playable, Card.AllSucceed, Known;
    a, b := CallHoldsGopPrefix(c, frames, q, ids, mux, maxsize, writes, flush, j);
  }

  lemma CallHoldsGopPrefix(
      c: Retimer.Config, frames: seq<Retimer.VideoFrame>, q: FQ.Queue, ids: seq<nat>, mux: nat -> seq<byte>,
      maxsize: nat, writes: nat -> Writes, flush: Option<HM.Input>, j: nat)
    returns (a: nat, b: nat)
    requires Captured(c, frames, q.offered) && Pipeline.InstanceOk(q, ids) && q.orphans == {} && maxsize > 0
    requires Known(q.offered, ids) && forall id :: mux(id) != []
    requires var calls := CallsOf(q.offered, ids, mux, maxsize, writes, flush);
             j < |calls| && Card.AllSucceed(calls[..j]) && (j > 0 ==> |calls[j - 1].data| < maxsize)
    ensures a <= b <= |ids| && Pipeline.GopPrefix(q.offered, ids[a..b])
    ensures CallsOf(q.offered, ids, mux, maxsize, writes, flush)[j].data
         == HM.Packets(Inputs(q.offered, ids, mux)[a..b])
  {
    assert FQ.Increasing(ids, |q.offered|);
    var m, ok := CallIsPiece(q.offered, ids, mux, maxsize, writes, flush, j);
    hide *;
    a, b := PieceOfFirst(c, frames, q, ids, mux, maxsize, m, ok, j);
  }

  /** A piece of the first m frames of an instance, none of which was lost. */
  lemma PieceOfFirst(
      c: Retimer.Config, frames: seq<Retimer.VideoFrame>, q: FQ.Queue, ids: seq<nat>, mux: nat -> seq<byte>,
      maxsize: nat, m: nat, ok: nat -> bool, j: nat)
    returns (a: nat, b: nat)
    requires Captured(c, frames, q.offered) && Pipeline.InstanceOk(q, ids) && q.orphans == {} && maxsize > 0
    requires Known(q.offered, ids) && m <= |ids| && Known(q.offered, ids[..m]) && forall id :: mux(id) != []
    requires var l := HM.Run(0, maxsize, Feeds(q.offered, ids[..m], mux, ok));
             && l.accepted == Inputs(q.offered, ids[..m], mux) && j < |HM.Pieces(l)|
             && (j > 0 ==> |HM.Packets(HM.Pieces(l)[j - 1])| < maxsize)
    ensures a <= b <= |ids| && Pipeline.GopPrefix(q.offered, ids[a..b])
    ensures HM.Pieces(HM.Run(0, maxsize, Feeds(q.offered, ids[..m], mux, ok)))[j] == Inputs(q.offered, ids, mux)[a..b]
  {
    var s := ids[..m];
    PrefixChain(q, ids, m);
    FeedsAreOrdered(c, frames, q.offered, s, mux, ok);
    FirstInputs(q.offered, ids, mux, m);
    hide *;
    a, b := PieceIsGopPrefix(q.offered, s, mux, maxsize, Feeds(q.offered, s, mux, ok), j);
    SliceOfFirst(ids, m, a, b);
    SliceOfFirst(Inputs(q.offered, ids, mux), m, a, b);
  }

  lemma SliceOfFirst<T>(s: seq<T>, m: nat, a: nat, b: nat)
    requires a <= b <= m <= |s|
    ensures s[..m][a..b] == s[a..b]
  {
  }

  lemma FirstInputs(offered: seq<FQ.Frame>, ids: seq<nat>, mux: nat -> seq<byte>, m: nat)
    requires Known(offered, ids) && m <= |ids|
    ensures Known(offered, ids[..m]) && Inputs(offered, ids[..m], mux) == Inputs(offered, ids, mux)[..m]
  {
  }

  lemma PrefixChain(q: FQ.Queue, ids: seq<nat>, m: nat)
    requires Pipeline.InstanceOk(q, ids) && q.orphans == {} && m <= |ids|
    ensures FQ.Chain(q.offered, {}, ids[..m]) && (m > 0 ==> FQ.IsKey(q.offered, ids[..m][0]))
  {
  }

  // -------------------------------------------------------- motion markers

  /** Every frame the capture thread keeps comes back from the encoder. */
  ghost predicate AllEncoded(c: Retimer.Config, frames: seq<Retimer.VideoFrame>)
  {
    forall k :: 0 <= k < |frames| ==>
      var t := Retimer.Run(c, Retimer.START, Retimer.Sensors(frames[..k]));
      Retimer.Keeps(t, frames[k].sensor) ==> frames[k].encoded.Some?
  }

  lemma FewerFrames(c: Retimer.Config, frames: seq<Retimer.VideoFrame>, n: nat)
    requires n <= |frames|
    ensures Retimer.Sensors(frames[..n]) == Retimer.Sensors(frames)[..n]
    ensures AllEncoded(c, frames) ==> AllEncoded(c, frames[..n])
  {
    forall k | 0 <= k < n ensures frames[..n][..k] == frames[..k] {
    }
  }

  /** What one more frame adds to the queue's frames and to the count of those kept. */
  lemma FrameAdds(c: Retimer.Config, frames: seq<Retimer.VideoFrame>)
    requires AllEncoded(c, frames) && frames != []
    ensures var n, fs := |frames| - 1, Retimer.Sensors(frames);
            var before, f := Retimer.Run(c, Retimer.START, fs[..n]), frames[n];
            var kept, t := Retimer.Keeps(before, f.sensor), Retimer.Run(c, Retimer.START, fs);
            && Retimer.Kept(c, Retimer.START, fs) == Retimer.Kept(c, Retimer.START, fs[..n]) + (if kept then 1 else 0)
            && |Retimer.Pushed(c, frames)| == |Retimer.Pushed(c, frames[..n])| + (if kept then 1 else 0)
            && Retimer.Pushed(c, frames[..n]) <= Retimer.Pushed(c, frames)
            && (kept ==> Retimer.Pushed(c, frames)[|Retimer.Pushed(c, frames)| - 1].ptsUs == t.pts)
  {
    FewerFrames(c, frames, |frames| - 1);
  }

  lemma {:induction false} PushedIsKept(c: Retimer.Config, frames: seq<Retimer.VideoFrame>)
    requires AllEncoded(c, frames)
    ensures |Retimer.Pushed(c, frames)| == Retimer.Kept(c, Retimer.START, Retimer.Sensors(frames))
  {
    if frames != [] {
      FrameAdds(c, frames);
      FewerFrames(c, frames, |frames| - 1);
      PushedIsKept(c, frames[..|frames| - 1]);
    }
  }

  /** Frame id of the queue is the one kept last at sensor frame m. */
  ghost predicate BehindFrame(c: Retimer.Config, frames: seq<Retimer.VideoFrame>, id: nat, m: nat)
    requires id < |Retimer.Pushed(c, frames)| && m <= |frames|
  {
    var t := Retimer.Sensors(frames)[..m];
    && Retimer.Kept(c, Retimer.START, t) == id + 1
    && Retimer.Pushed(c, frames)[id].ptsUs == Retimer.Run(c, Retimer.START, t).pts
  }

  /** The sensor frame behind a frame of the queue. */
  lemma {:induction false} SensorOf(c: Retimer.Config, frames: seq<Retimer.VideoFrame>, id: nat) returns (m: nat)
    requires AllEncoded(c, frames) && id < |Retimer.Pushed(c, frames)|
    ensures 1 <= m <= |frames| && BehindFrame(c, frames, id, m)
  {
    assert frames != [];
    hide AllEncoded, Retimer.Run, Retimer.Kept, Retimer.Pushed, Retimer.Keeps, Retimer.Sensors, BehindFrame;
    var n := |frames| - 1;
    FrameAdds(c, frames);
    FewerFrames(c, frames, n);
    if id < |Retimer.Pushed(c, frames[..n])| {
      m := SensorOf(c, frames[..n], id);
      BehindEarlier(c, frames, n, id, m);
    } else {
      m := |frames|;
      LastIsBehind(c, frames, id);
    }
  }

  lemma BehindEarlier(c: Retimer.Config, frames: seq<Retimer.VideoFrame>, n: nat, id: nat, m: nat)
    requires n <= |frames| && id < |Retimer.Pushed(c, frames[..n])| && m <= n
    requires Retimer.Pushed(c, frames[..n]) <= Retimer.Pushed(c, frames)
    requires BehindFrame(c, frames[..n], id, m)
    ensures BehindFrame(c, frames, id, m)
  {
    hide Retimer.Run, Retimer.Kept, Retimer.Pushed, Retimer.Keeps, Retimer.Sensors;
    FewerFrames(c, frames, n);
    assert Retimer.Sensors(frames)[..n][..m] == Retimer.Sensors(frames)[..m];
  }

  lemma LastIsBehind(c: Retimer.Config, frames: seq<Retimer.VideoFrame>, id: nat)
    requires AllEncoded(c, frames) && frames != []
    requires |Retimer.Pushed(c, frames[..|frames| - 1])| <= id < |Retimer.Pushed(c, frames)|
    ensures BehindFrame(c, frames, id, |frames|)
  {
    hide Retimer.Run, Retimer.Kept, Retimer.Pushed, Retimer.Keeps, Retimer.Sensors, AllEncoded;
    FrameAdds(c, frames);
    PushedIsKept(c, frames);
    assert Retimer.Sensors(frames)[..|frames|] == Retimer.Sensors(frames);
  }

  lemma {:induction false} LaterFrameLaterSensor(c: Retimer.Config, fs: seq<Retimer.Sensor>, a: nat, b: nat)
    requires a <= |fs| && b <= |fs|
    requires Retimer.Kept(c, Retimer.START, fs[..a]) < Retimer.Kept(c, Retimer.START, fs[..b])
    ensures a < b
  {
    if b <= a {
      Retimer.KeptGrows(c, fs, b, a);
    }
  }

  /** The sensor frames behind three frames of the queue, in order. */
  lemma SensorsOf(c: Retimer.Config, frames: seq<Retimer.VideoFrame>, id0: nat, id1: nat, id2: nat)
    returns (m: nat, x: nat, n: nat)
    requires AllEncoded(c, frames) && id0 <= id1 <= id2 < |Retimer.Pushed(c, frames)|
    ensures 1 <= m <= x <= n <= |frames|
    ensures BehindFrame(c, frames, id0, m) && BehindFrame(c, frames, id1, x) && BehindFrame(c, frames, id2, n)
  {
    hide AllEncoded, Retimer.Run, Retimer.Kept, Retimer.Pushed, Retimer.Keeps, Retimer.Sensors;
    var fs := Retimer.Sensors(frames);
    m := SensorOf(c, frames, id0);
    x := if id1 == id0 then m else 0;
    if id1 > id0 {
      x := SensorOf(c, frames, id1);
      LaterFrameLaterSensor(c, fs, m, x);
    }
    n := x;
    if id2 > id1 {
      n := SensorOf(c, frames, id2);
      LaterFrameLaterSensor(c, fs, x, n);
    }
  }

  /** Frame number x of an instance with the given times plays at its share of the frames. */
  ghost predicate PlaysAtShare(offered: seq<FQ.Frame>, s: seq<nat>, x: nat, runs: int, gap: int)
    requires Known(offered, s) && 1 <= x <= |s|
  {
    var first := offered[s[0]].ptsUs;
    Retimer.ShareOk(offered[s[x - 1]].ptsUs - first, x - 1, offered[s[|s| - 1]].ptsUs - first, |s| - 1, runs, gap)
  }

  /** The player may place a motion marker by its share of the segment's frames.  In an instance that lost
    * no frame inside, wherever it was opened, frame number x of all its frames plays at the same share of
    * its time, cross-multiplied within 2 microseconds a frame, one sensor gap a mode run it touches and
    * one more, and, since the count starts at one, one frame.  m and n are the sensor frames behind the
    * first and the last of them. */
  lemma MarkerShare(c: Retimer.Config, frames: seq<Retimer.VideoFrame>, offered: seq<FQ.Frame>,
                    s: seq<nat>, gap: int, x: nat)
    returns (m: nat, n: nat)
    requires Captured(c, frames, offered) && AllEncoded(c, frames) && Known(offered, s)
    requires c.Sane() && Retimer.GapsAtMost(Retimer.Sensors(frames), gap) && 0 <= gap <= Retimer.SECOND / c.Hi()
    requires 1 <= x <= |s| && forall j :: 0 <= j < |s| ==> s[j] == s[0] + j
    ensures 1 <= m <= n <= |frames|
    ensures BehindFrame(c, frames, s[0], m) && BehindFrame(c, frames, s[|s| - 1], n)
    ensures var fs := Retimer.Sensors(frames);
            PlaysAtShare(offered, s, x, Retimer.ModeRuns(fs[..n]) - Retimer.ModeRuns(fs[..m]) + 1, gap)
  {
    hide AllEncoded, Retimer.Run, Retimer.Kept, Retimer.ModeRuns, Retimer.Pushed, Retimer.ShareOk, Retimer.GapsAtMost,
         Retimer.Ordered, Retimer.Sensors;
    var y;
    m, y, n := SensorsOf(c, frames, s[0], s[x - 1], s[|s| - 1]);
    var fs := Retimer.Sensors(frames);
    Retimer.FrameShareIsTimeShare(c, fs, gap, m, y, n);
    assert s[x - 1] == s[0] + (x - 1) && s[|s| - 1] == s[0] + (|s| - 1);
  }
}
