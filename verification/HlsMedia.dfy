/** The segment cutter: packets of consecutive frames gather in one buffer, which goes to the
  * handler as one segment when a cut falls due.  Times are milliseconds. */
module HlsMedia {
  import opened Base

  const PACKET: nat := 188
  const MAX_FILE: nat := 100 * 1024 * 1024

  /** Whether the build has assertions; release builds define NDEBUG.  Left open: every statement holds
    * for both. */
  const ASSERTS: bool

  /** One call of hls_media_input.  `empty` stands for no data; `packets` is what the muxer appends
    * for the frame, a whole number of packets. */
  datatype Input = Input(isVideo: bool, empty: bool, key: bool, pts: int, dts: int, packets: seq<byte>)

  datatype Stamp = Stamp(pts: int, dts: int)

  /** `first` and `dtsLast` are None where the source holds PTS_NO_VALUE. */
  datatype Media = Media(
    duration: int,
    maxsize: nat,
    buf: seq<byte>,
    first: Option<Stamp>,
    dtsLast: Option<int>,
    audioOnly: bool)

  /** What the handler is given. */
  datatype Report = Report(data: seq<byte>, pts: int, dts: int, duration: int)

  function Create(duration: int, maxsize: nat): Media
  {
    Media(duration, maxsize, [], None, None, false)
  }

  // ---------------------------------------------------------------- one input

  /** The continuity assertion at the top of hls_media_input is there and fails, which ends the program. */
  predicate Aborts(m: Media, i: Input)
  {
    ASSERTS && m.duration != 0 && m.dtsLast.Some? && i.dts >= m.dtsLast.value + m.duration
  }

  /** A rewind or a flush. */
  predicate Forced(m: Media, i: Input)
  {
    (m.dtsLast.Some? && i.dts + m.duration < m.dtsLast.value) || i.empty
  }

  predicate Elapsed(m: Media, i: Input)
  {
    m.first.Some? && i.dts - m.first.value.dts >= m.duration
  }

  predicate Due(m: Media, i: Input)
  {
    || ((Elapsed(m, i) || m.duration == 0) && (i.key || |m.buf| >= m.maxsize))
    || (m.audioOnly && Elapsed(m, i))
  }

  predicate Begins(m: Media, i: Input)
  {
    m.buf == [] || Due(m, i) || Forced(m, i)
  }

  /** The handler is called. */
  predicate Cuts(m: Media, i: Input)
  {
    m.buf != [] && Begins(m, i)
  }

  predicate Started(m: Media)
  {
    m.buf != [] ==> m.first.Some? && m.dtsLast.Some?
  }

  function ReportOf(m: Media, i: Input): Report
    requires m.first.Some? && m.dtsLast.Some?
  {
    var last, first := m.dtsLast.value, m.first.value;
    Report(m.buf, first.pts, first.dts,
           (if Forced(m, i) || i.dts > last + 100 then last else i.dts) - first.dts)
  }

  /** The state after an input whose handler call, if any, succeeds. */
  function Accept(m: Media, i: Input): (r: Media)
    requires Started(m)
    ensures Started(r)
  {
    var m := if Begins(m, i) then m.(buf := [], first := Some(Stamp(i.pts, i.dts)), audioOnly := true) else m;
    m.(audioOnly := m.audioOnly && !i.isVideo, dtsLast := Some(i.dts), buf := m.buf + i.packets)
  }

  // ------------------------------------------------------------------- runs

  /** An input together with the handler's answer, should the input call it. */
  datatype Feed = Feed(input: Input, handlerOk: bool)

  /** A cutter with its history: whether the assertion has ended the program, the accepted inputs of
    * each flushed segment and of the buffer, the segments the handler took, and all accepted inputs. */
  datatype Log = Log(
    m: Media,
    ended: bool,
    segments: seq<seq<Input>>,
    current: seq<Input>,
    reports: seq<Report>,
    accepted: seq<Input>)

  predicate Accepts(m: Media, f: Feed)
  {
    !Aborts(m, f.input) && (Cuts(m, f.input) ==> f.handlerOk)
  }

  predicate Takes(l: Log, f: Feed)
  {
    !l.ended && Accepts(l.m, f)
  }

  /** An input that trips the assertion ends the program, and there are no further calls; one whose
    * handler call fails returns early and changes nothing. */
  function Next(l: Log, f: Feed): Log
    requires Started(l.m)
  {
    var i := f.input;
    if !Takes(l, f) then l.(ended := l.ended || Aborts(l.m, i))
    else if Cuts(l.m, i) then
      Log(Accept(l.m, i), false, l.segments + [l.current], [i], l.reports + [ReportOf(l.m, i)], l.accepted + [i])
    else
      Log(Accept(l.m, i), false, l.segments, if Begins(l.m, i) then [i] else l.current + [i], l.reports,
          l.accepted + [i])
  }

  function Run(duration: int, maxsize: nat, fs: seq<Feed>): (l: Log)
    ensures Started(l.m)
  {
    if fs == [] then Log(Create(duration, maxsize), false, [], [], [], [])
    else Next(Run(duration, maxsize, fs[..|fs| - 1]), fs[|fs| - 1])
  }

  function Packets(s: seq<Input>): seq<byte>
  {
    if s == [] then [] else Packets(s[..|s| - 1]) + s[|s| - 1].packets
  }

  function Data(rs: seq<Report>): seq<byte>
  {
    if rs == [] then [] else Data(rs[..|rs| - 1]) + rs[|rs| - 1].data
  }

  // ------------------------------------------------------ handler failure

  function RunFrom(l: Log, fs: seq<Feed>): (r: Log)
    requires Started(l.m)
    ensures Started(r.m)
    decreases |fs|
  {
    if fs == [] then l else Next(RunFrom(l, fs[..|fs| - 1]), fs[|fs| - 1])
  }

  lemma {:induction false} RunIsRunFrom(duration: int, maxsize: nat, fs: seq<Feed>)
    ensures Run(duration, maxsize, fs) == RunFrom(Run(duration, maxsize, []), fs)
  {
    if fs != [] {
      RunIsRunFrom(duration, maxsize, fs[..|fs| - 1]);
    }
  }

  /** The positions in fs of the inputs that go in. */
  function Taken(l: Log, fs: seq<Feed>): (at: seq<nat>)
    requires Started(l.m)
    ensures forall i :: 0 <= i < |at| ==> at[i] < |fs|
    decreases |fs|
  {
    if fs == [] then []
    else
      var init := fs[..|fs| - 1];
      Taken(l, init) + (if Takes(RunFrom(l, init), fs[|fs| - 1]) then [|init|] else [])
  }

  /** Input k of the run from l does not go in: the handler fails its cut, or the program has ended, with
    * it or before it. */
  predicate Lost(l: Log, fs: seq<Feed>, k: nat)
    requires Started(l.m) && k < |fs|
  {
    FailedCut(l, fs, k) || EndedBy(l, fs, k)
  }

  predicate EndedBy(l: Log, fs: seq<Feed>, k: nat)
    requires Started(l.m) && k < |fs|
  {
    RunFrom(l, fs[..k + 1]).ended
  }

  predicate FailedCut(l: Log, fs: seq<Feed>, k: nat)
    requires Started(l.m) && k < |fs|
  {
    Cuts(RunFrom(l, fs[..k]).m, fs[k].input) && !fs[k].handlerOk
  }

  predicate TripsAt(l: Log, fs: seq<Feed>, k: nat)
    requires Started(l.m) && k < |fs|
  {
    Aborts(RunFrom(l, fs[..k]).m, fs[k].input)
  }

  /** The program ends exactly when some input trips the assertion. */
  lemma {:induction false} EndsExactly(l: Log, fs: seq<Feed>)
    requires Started(l.m)
    ensures RunFrom(l, fs).ended <==> l.ended || exists k: nat :: k < |fs| && TripsAt(l, fs, k)
    decreases |fs|
  {
    if fs != [] {
      var n := |fs| - 1;
      EndsExactly(l, fs[..n]);
      forall k: nat | k < n ensures TripsAt(l, fs[..n], k) == TripsAt(l, fs, k) {
        assert fs[..n][..k] == fs[..k];
      }
      assert TripsAt(l, fs, n) <==> Aborts(RunFrom(l, fs[..n]).m, fs[n].input);
      if RunFrom(l, fs).ended && !RunFrom(l, fs[..n]).ended {
        assert TripsAt(l, fs, n);
      }
    }
  }

  /** An input trips the assertion if the build has assertions, segments have a duration, and it comes that
    * long or longer after the last input accepted. */
  lemma {:induction false} TripsExactly(duration: int, maxsize: nat, fs: seq<Feed>, i: Input)
    ensures var l := Run(duration, maxsize, fs);
            && l.m.duration == duration
            && (l.accepted == [] ==> l.m.dtsLast == None)
            && (l.accepted != [] ==> l.m.dtsLast == Some(l.accepted[|l.accepted| - 1].dts))
            && (Aborts(l.m, i) <==>
                  && ASSERTS && duration != 0 && l.accepted != []
                  && i.dts >= l.accepted[|l.accepted| - 1].dts + duration)
  {
    if fs != [] {
      TripsExactly(duration, maxsize, fs[..|fs| - 1], i);
    }
  }

  /** Without assertions, or with duration 0, it never ends. */
  lemma {:induction false} NeverEnds(duration: int, maxsize: nat, fs: seq<Feed>)
    requires !ASSERTS || duration == 0
    ensures !Run(duration, maxsize, fs).ended && Run(duration, maxsize, fs).m.duration == duration
  {
    if fs != [] {
      NeverEnds(duration, maxsize, fs[..|fs| - 1]);
    }
  }

  lemma EndedByExactly(l: Log, fs: seq<Feed>, k: nat)
    requires Started(l.m) && k < |fs|
    ensures EndedBy(l, fs, k) <==> l.ended || exists j: nat :: j <= k && TripsAt(l, fs, j)
  {
    var gs := fs[..k + 1];
    EndsExactly(l, gs);
    forall j: nat | j <= k ensures TripsAt(l, gs, j) == TripsAt(l, fs, j) {
      assert gs[..j] == fs[..j];
    }
  }

  lemma {:induction false} TakenLast(l: Log, fs: seq<Feed>)
    requires Started(l.m)
    ensures fs == [] ==> Taken(l, fs) == []
    ensures fs != [] ==>
              var n := |fs| - 1;
              Taken(l, fs) == if Lost(l, fs, n) then Taken(l, fs[..n]) else Taken(l, fs[..n]) + [n]
  {
    if fs != [] {
      assert fs[..|fs|] == fs;
      TakesExactly(RunFrom(l, fs[..|fs| - 1]), fs[|fs| - 1]);
      hide Next, Takes, Cuts;
    }
  }

  lemma TakesExactly(p: Log, f: Feed)
    requires Started(p.m)
    ensures Takes(p, f) <==> !Next(p, f).ended && !(Cuts(p.m, f.input) && !f.handlerOk)
  {
  }

  lemma LostEarlier(l: Log, fs: seq<Feed>, n: nat, k: nat)
    requires Started(l.m) && k < n <= |fs|
    ensures Lost(l, fs[..n], k) == Lost(l, fs, k)
  {
    assert fs[..n][..k] == fs[..k] && fs[..n][..k + 1] == fs[..k + 1];
  }

  lemma {:induction false} TakenAreNotLost(l: Log, fs: seq<Feed>)
    requires Started(l.m)
    ensures forall i, j :: 0 <= i < j < |Taken(l, fs)| ==> Taken(l, fs)[i] < Taken(l, fs)[j]
    ensures forall k: nat :: k < |fs| ==> (k in Taken(l, fs) <==> !Lost(l, fs, k))
    decreases |fs|
  {
    hide Lost, Taken, RunFrom, Started;
    TakenLast(l, fs);
    if fs != [] {
      var n := |fs| - 1;
      TakenAreNotLost(l, fs[..n]);
      forall k: nat | k < n ensures Lost(l, fs, k) == Lost(l, fs[..n], k) {
        LostEarlier(l, fs, n, k);
      }
    }
  }

  /** r.accepted is l's followed by the inputs of fs at the positions `at`. */
  ghost predicate Adds(l: Log, fs: seq<Feed>, at: seq<nat>, r: Log)
  {
    && |r.accepted| == |l.accepted| + |at| && l.accepted <= r.accepted
    && forall j :: 0 <= j < |at| ==> at[j] < |fs| && r.accepted[|l.accepted| + j] == fs[at[j]].input
  }

  lemma AddsSnoc(l: Log, fs: seq<Feed>, at: seq<nat>, p: Log, r: Log, f: Feed)
    requires Adds(l, fs, at, p) && r.accepted == p.accepted + [f.input]
    ensures Adds(l, fs + [f], at + [|fs|], r)
  {
  }

  lemma AddsMore(l: Log, fs: seq<Feed>, at: seq<nat>, p: Log, f: Feed)
    requires Adds(l, fs, at, p)
    ensures Adds(l, fs + [f], at, p)
  {
  }

  /** Over every run from every state: the inputs lost are exactly those whose own cut the handler failed
    * and, should the assertion end the program, the one that trips it and all behind it; all others are
    * accepted, each once and in order. */
  lemma {:induction false} LosesOnlyFailedCuts(l: Log, fs: seq<Feed>)
    requires Started(l.m)
    ensures Adds(l, fs, Taken(l, fs), RunFrom(l, fs))
    ensures forall i, j :: 0 <= i < j < |Taken(l, fs)| ==> Taken(l, fs)[i] < Taken(l, fs)[j]
    ensures forall k: nat :: k < |fs| ==> (k in Taken(l, fs) <==> !Lost(l, fs, k))
    ensures forall k: nat :: k < |fs| ==>
              (EndedBy(l, fs, k) <==> l.ended || exists j: nat :: j <= k && TripsAt(l, fs, j))
    decreases |fs|
  {
    TakenAreNotLost(l, fs);
    forall k: nat | k < |fs|
      ensures EndedBy(l, fs, k) <==> l.ended || exists j: nat :: j <= k && TripsAt(l, fs, j)
    {
      EndedByExactly(l, fs, k);
    }
    if fs != [] {
      var init, f := fs[..|fs| - 1], fs[|fs| - 1];
      LosesOnlyFailedCuts(l, init);
      var p := RunFrom(l, init);
      assert fs == init + [f];
      if Takes(p, f) {
        AddsSnoc(l, init, Taken(l, init), p, RunFrom(l, fs), f);
      } else {
        AddsMore(l, init, Taken(l, init), p, f);
        assert Taken(l, fs) == Taken(l, init);
      }
    }
  }

  lemma {:induction false} ReportsGrow(l: Log, fs: seq<Feed>)
    requires Started(l.m)
    ensures l.reports <= RunFrom(l, fs).reports
    ensures fs != [] ==> RunFrom(l, fs[..|fs| - 1]).reports <= RunFrom(l, fs).reports
    decreases |fs|
  {
    if fs != [] {
      ReportsGrow(l, fs[..|fs| - 1]);
    }
  }

  /** The packets of the inputs accepted since l. */
  function Since(l: Log, r: Log): seq<byte>
    requires l.accepted <= r.accepted
  {
    Packets(r.accepted[|l.accepted|..])
  }

  /** r's buffer is l's followed by the packets of the inputs accepted since, under l's first stamps. */
  ghost predicate Gathered(l: Log, r: Log)
  {
    l.accepted <= r.accepted && r.m.buf == l.m.buf + Since(l, r) && r.m.first == l.m.first
  }

  lemma GatherStep(l: Log, p: Log, f: Feed)
    requires Started(p.m) && l.m.buf != [] && Gathered(l, p) && Next(p, f).reports == p.reports
    ensures Gathered(l, Next(p, f))
  {
    if Takes(p, f) {
      assert Next(p, f).accepted[|l.accepted|..] == p.accepted[|l.accepted|..] + [f.input];
    }
  }

  /** Until a cut succeeds, however many fail, the buffer only gathers. */
  lemma {:induction false} BufferGathers(l: Log, fs: seq<Feed>)
    requires Started(l.m) && l.m.buf != [] && RunFrom(l, fs).reports == l.reports
    ensures Gathered(l, RunFrom(l, fs))
    decreases |fs|
  {
    if fs != [] {
      var init, f := fs[..|fs| - 1], fs[|fs| - 1];
      ReportsGrow(l, init);
      ReportsGrow(l, fs);
      BufferGathers(l, init);
      GatherStep(l, RunFrom(l, init), f);
    }
  }

  /** Handler failure keeps data: when the handler fails at input i, and after any further inputs fs,
    * whatever cuts fail among them, the next cut succeeds at f, then the report taken there holds the
    * buffer that failed followed by the packets of exactly the inputs accepted since, under the
    * segment's own first stamps; i itself is not among the accepted. */
  lemma {:induction false} FailureKeepsSegment(l: Log, i: Input, fs: seq<Feed>, f: Feed)
    requires Started(l.m) && Cuts(l.m, i)
    requires var p := RunFrom(Next(l, Feed(i, false)), fs);
             p.reports == l.reports && Cuts(p.m, f.input) && Takes(p, f)
    ensures var p := RunFrom(Next(l, Feed(i, false)), fs);
            var reports := Next(p, f).reports;
            && Next(l, Feed(i, false)).accepted == l.accepted
            && l.accepted <= p.accepted
            && |reports| == |l.reports| + 1 && reports[..|l.reports|] == l.reports
            && reports[|l.reports|].data == l.m.buf + Since(l, p)
            && l.m.first == Some(Stamp(reports[|l.reports|].pts, reports[|l.reports|].dts))
  {
    BufferGathers(Next(l, Feed(i, false)), fs);
  }

  // ------------------------------------------------------------ partition

  ghost predicate Partitioned(l: Log)
  {
    && Started(l.m)
    && Data(l.reports) + l.m.buf == Packets(l.accepted)
    && |l.reports| == |l.segments|
    && l.m.buf == Packets(l.current)
    && (forall j :: 0 <= j < |l.segments| ==> l.reports[j].data == Packets(l.segments[j]))
  }

  lemma CutPartitions(l: Log, i: Input)
    requires Partitioned(l) && Takes(l, Feed(i, true)) && Cuts(l.m, i)
    ensures Partitioned(Next(l, Feed(i, true)))
  {
  }

  lemma GrowPartitions(l: Log, i: Input)
    requires Partitioned(l) && Takes(l, Feed(i, true)) && !Cuts(l.m, i)
    ensures Partitioned(Next(l, Feed(i, true)))
  {
  }

  lemma NextPartitions(l: Log, f: Feed)
    requires Partitioned(l)
    ensures Partitioned(Next(l, f))
  {
    if Takes(l, f) {
      if Cuts(l.m, f.input) {
        CutPartitions(l, f.input);
      } else {
        GrowPartitions(l, f.input);
      }
    }
  }

  /** Segmentation is a partition: whatever the times, the flags and the handler's answers, the
    * segments taken so far and then the buffer are all the packets of the accepted frames, in
    * order, each segment being the packets of its own frames. */
  lemma {:induction false} RunPartitions(duration: int, maxsize: nat, fs: seq<Feed>)
    ensures Partitioned(Run(duration, maxsize, fs))
  {
    if fs != [] {
      RunPartitions(duration, maxsize, fs[..|fs| - 1]);
      NextPartitions(Run(duration, maxsize, fs[..|fs| - 1]), fs[|fs| - 1]);
    }
  }

  // ---------------------------------------------- which inputs make a cut

  /** Input i is due to end the segment s: a flush, a rewind, a keyframe or the full size once the duration
    * is up, or the duration alone while the segment has no video. */
  ghost predicate Ends(duration: int, maxsize: nat, s: seq<Input>, i: Input)
    requires s != []
  {
    var elapsed := i.dts - s[0].dts >= duration;
    || i.empty
    || i.dts + duration < s[|s| - 1].dts
    || ((elapsed || duration == 0) && (i.key || |Packets(s)| >= maxsize))
    || (elapsed && forall k :: 0 <= k < |s| ==> !s[k].isVideo)
  }

  /** What the handler is to be told of segment s, ended by i: its packets and first stamps; it lasts until
    * i, or until its own last input when that is far off or i carries no time to go by. */
  ghost predicate Tells(duration: int, s: seq<Input>, i: Input, r: Report)
    requires s != []
  {
    var first, last := s[0], s[|s| - 1];
    var apart := i.empty || i.dts + duration < last.dts || i.dts > last.dts + 100;
    && r.data == Packets(s) && r.pts == first.pts && r.dts == first.dts
    && r.duration == (if apart then last.dts else i.dts) - first.dts
  }

  /** The cutter's registers follow from the inputs in the buffer. */
  ghost predicate Follows(l: Log)
  {
    && Started(l.m) && l.m.buf == Packets(l.current) && (l.m.buf == [] <==> l.current == [])
    && (l.current == [] ==> l.m.first.None? && l.m.dtsLast.None? && !l.m.audioOnly)
    && (l.current != [] ==>
          && l.m.first == Some(Stamp(l.current[0].pts, l.current[0].dts))
          && l.m.dtsLast == Some(l.current[|l.current| - 1].dts)
          && (l.m.audioOnly <==> forall k :: 0 <= k < |l.current| ==> !l.current[k].isVideo))
  }

  lemma PacketsSnoc(s: seq<Input>, i: Input)
    ensures Packets(s + [i]) == Packets(s) + i.packets
  {
  }

  lemma NextFollows(l: Log, f: Feed)
    requires Follows(l) && f.input.packets != []
    ensures Follows(Next(l, f))
    ensures Next(l, f).m.duration == l.m.duration && Next(l, f).m.maxsize == l.m.maxsize
  {
    if Takes(l, f) {
      AcceptFollows(l, f.input);
    }
  }

  lemma AcceptFollows(l: Log, i: Input)
    requires Follows(l) && i.packets != []
    ensures var r, s := Accept(l.m, i), if Begins(l.m, i) then [i] else l.current + [i];
            Follows(Log(r, false, [], s, [], [])) && r.duration == l.m.duration && r.maxsize == l.m.maxsize
  {
    PacketsSnoc(l.current, i);
    PacketsSnoc([], i);
    assert [] + [i] == [i];
    hide Packets, Due, Forced;
  }

  /** The cuts, exactly: over every run of inputs with packets, video, audio or flushes at any times and
    * whatever the handler answers, the next input makes a cut if and only if something is in the buffer
    * and the input ends the segment there; and the handler is told what it should. */
  lemma {:induction false} CutsExactly(duration: int, maxsize: nat, fs: seq<Feed>, i: Input)
    requires forall k :: 0 <= k < |fs| ==> fs[k].input.packets != []
    ensures var l := Run(duration, maxsize, fs);
            && Follows(l) && l.m.duration == duration && l.m.maxsize == maxsize
            && (Cuts(l.m, i) <==> l.current != [] && Ends(duration, maxsize, l.current, i))
            && (Cuts(l.m, i) ==> Tells(duration, l.current, i, ReportOf(l.m, i)))
  {
    if fs != [] {
      var init := fs[..|fs| - 1];
      CutsExactly(duration, maxsize, init, i);
      NextFollows(Run(duration, maxsize, init), fs[|fs| - 1]);
    }
    CutFollows(Run(duration, maxsize, fs), i);
    hide *;
  }

  lemma CutFollows(l: Log, i: Input)
    requires Follows(l)
    ensures Cuts(l.m, i) <==> l.current != [] && Ends(l.m.duration, l.m.maxsize, l.current, i)
    ensures Cuts(l.m, i) ==> Tells(l.m.duration, l.current, i, ReportOf(l.m, i))
  {
  }

  // ------------------------------------------------- where segments start

  /** Non-empty video frames, each of which the muxer turns into at least one packet. */
  predicate Video(i: Input)
  {
    i.isVideo && !i.empty && i.packets != []
  }

  ghost predicate VideoFeeds(fs: seq<Feed>)
  {
    && (forall k :: 0 <= k < |fs| ==> Video(fs[k].input))
    && (forall j, k :: 0 <= j < k < |fs| ==> fs[j].input.dts <= fs[k].input.dts)
  }

  /** A cut falls due at frame k of s. */
  predicate DueAt(duration: int, maxsize: nat, s: seq<Input>, k: nat)
    requires k < |s|
  {
    && (duration == 0 || s[k].dts - s[0].dts >= duration)
    && (s[k].key || |Packets(s[..k])| >= maxsize)
  }

  /** No cut was due inside the segment. */
  ghost predicate Uncut(duration: int, maxsize: nat, s: seq<Input>)
  {
    s != [] && forall k :: 1 <= k < |s| ==> !DueAt(duration, maxsize, s, k)
  }

  /** Segment s starts with a keyframe or because the one before it reached the size cap. */
  predicate StartsWell(maxsize: nat, before: seq<Input>, s: seq<Input>)
  {
    s != [] && (s[0].key || |Packets(before)| >= maxsize)
  }

  function Pieces(l: Log): seq<seq<Input>>
  {
    l.segments + (if l.current == [] then [] else [l.current])
  }

  ghost predicate PiecesOk(duration: int, maxsize: nat, p: seq<seq<Input>>)
  {
    && (forall j :: 0 <= j < |p| ==> Uncut(duration, maxsize, p[j]))
    && (forall j, k :: 0 <= j && k == j + 1 && k < |p| ==> StartsWell(maxsize, p[j], p[k]))
  }

  /** How the cutter's registers follow from the frames in the buffer. */
  ghost predicate Registers(l: Log)
  {
    && !l.m.audioOnly && Partitioned(l)
    && (l.m.buf == [] <==> l.current == [])
    && (l.current == [] ==> l.m.first.None? && l.m.dtsLast.None? && l.segments == [] && l.accepted == [])
    && (l.current != [] ==>
          && l.m.first == Some(Stamp(l.current[0].pts, l.current[0].dts))
          && l.m.dtsLast == Some(l.current[|l.current| - 1].dts)
          && l.current[0].dts <= l.current[|l.current| - 1].dts)
    && l.accepted == Flatten(Pieces(l))
  }

  lemma NextKeepsRegisters(l: Log, f: Feed)
    requires Registers(l) && Video(f.input)
    requires l.m.dtsLast.Some? ==> l.m.dtsLast.value <= f.input.dts
    requires l.m.duration >= 0
    ensures Registers(Next(l, f))
  {
    NextPartitions(l, f);
    if Takes(l, f) {
      if Cuts(l.m, f.input) {
        CutKeepsRegisters(l, f);
      } else {
        GrowKeepsRegisters(l, f);
      }
    }
  }

  lemma CutKeepsRegisters(l: Log, f: Feed)
    requires Registers(l) && Video(f.input) && Takes(l, f) && Cuts(l.m, f.input)
    requires Partitioned(Next(l, f))
    ensures Registers(Next(l, f))
  {
    hide Partitioned;
    FlattenSnoc(l.segments + [l.current], [f.input]);
  }

  lemma FlattenGrows(p: seq<seq<Input>>, s: seq<Input>, i: Input)
    ensures Flatten(p + [s + [i]]) == Flatten(p + (if s == [] then [] else [s])) + [i]
  {
    FlattenSnoc(p, s);
    FlattenSnoc(p, s + [i]);
    assert p + [] == p;
  }

  lemma GrowKeepsRegisters(l: Log, f: Feed)
    requires Registers(l) && Video(f.input) && Takes(l, f) && !Cuts(l.m, f.input)
    requires l.m.dtsLast.Some? ==> l.m.dtsLast.value <= f.input.dts
    requires Partitioned(Next(l, f)) && l.m.duration >= 0
    ensures Registers(Next(l, f))
  {
    hide Partitioned, Flatten;
    var i := f.input;
    FlattenGrows(l.segments, l.current, i);
    assert l.current == [] ==> l.current + [i] == [i];
  }

  lemma UncutGrows(duration: int, maxsize: nat, s: seq<Input>, i: Input)
    requires s == [] || (Uncut(duration, maxsize, s) && !DueAt(duration, maxsize, s + [i], |s|))
    ensures Uncut(duration, maxsize, s + [i])
  {
    var t := s + [i];
    forall k | 1 <= k < |t| ensures !DueAt(duration, maxsize, t, k) {
      if k < |s| {
        assert t[..k] == s[..k];
        assert !DueAt(duration, maxsize, s, k);
      }
    }
  }

  lemma NextKeepsPieces(l: Log, f: Feed)
    requires Registers(l) && Video(f.input) && PiecesOk(l.m.duration, l.m.maxsize, Pieces(l))
    requires l.m.dtsLast.Some? ==> l.m.dtsLast.value <= f.input.dts
    requires l.m.duration >= 0
    ensures PiecesOk(l.m.duration, l.m.maxsize, Pieces(Next(l, f)))
  {
    var i, r := f.input, Next(l, f);
    if Takes(l, f) {
      var p, q := Pieces(l), Pieces(r);
      if Cuts(l.m, i) {
        assert q == p + [[i]];
        assert StartsWell(l.m.maxsize, l.current, [i]);
        PiecesSnoc(l.m.duration, l.m.maxsize, p, [i]);
      } else {
        assert l.current == [] ==> l.current + [i] == [i];
        assert q == l.segments + [l.current + [i]];
        assert (l.current + [i])[..|l.current|] == l.current;
        if l.current != [] {
          assert p[|p| - 1] == l.current;
        }
        UncutGrows(l.m.duration, l.m.maxsize, l.current, i);
        PiecesFront(l.m.duration, l.m.maxsize, l.segments, l.current, i);
        PiecesSnoc(l.m.duration, l.m.maxsize, l.segments, l.current + [i]);
      }
    }
  }

  lemma PiecesSnoc(duration: int, maxsize: nat, p: seq<seq<Input>>, s: seq<Input>)
    requires PiecesOk(duration, maxsize, p) && Uncut(duration, maxsize, s)
    requires p != [] ==> StartsWell(maxsize, p[|p| - 1], s)
    ensures PiecesOk(duration, maxsize, p + [s])
  {
  }

  lemma PiecesFront(duration: int, maxsize: nat, p: seq<seq<Input>>, s: seq<Input>, i: Input)
    requires PiecesOk(duration, maxsize, p + (if s == [] then [] else [s]))
    requires s == [] ==> p == []
    ensures PiecesOk(duration, maxsize, p)
    ensures p != [] ==> StartsWell(maxsize, p[|p| - 1], s + [i])
  {
    if s != [] {
      var q := p + [s];
      forall j | 0 <= j < |p| ensures Uncut(duration, maxsize, p[j]) {
        assert q[j] == p[j];
      }
      forall j, k | 0 <= j && k == j + 1 && k < |p| ensures StartsWell(maxsize, p[j], p[k]) {
        assert StartsWell(maxsize, q[j], q[k]);
      }
      if p != [] {
        assert StartsWell(maxsize, q[|p| - 1], q[|p|]);
      }
    }
  }

  ghost predicate VideoInv(l: Log, duration: int, maxsize: nat)
  {
    && l.m.duration == duration && l.m.maxsize == maxsize
    && Registers(l) && PiecesOk(duration, maxsize, Pieces(l))
  }

  lemma NextKeepsVideoInv(l: Log, f: Feed)
    requires VideoInv(l, l.m.duration, l.m.maxsize) && Video(f.input) && l.m.duration >= 0
    requires l.m.dtsLast.Some? ==> l.m.dtsLast.value <= f.input.dts
    ensures VideoInv(Next(l, f), l.m.duration, l.m.maxsize)
    ensures Next(l, f).m.dtsLast.Some? ==> Next(l, f).m.dtsLast.value <= f.input.dts
  {
    NextKeepsRegisters(l, f);
    NextKeepsPieces(l, f);
    hide Registers, PiecesOk, Pieces, Aborts, Due, Forced;
  }

  /** Over every run of video frames with non-decreasing times, whatever the handler answers:
    * each segment but the first starts with a keyframe or follows one that reached the size cap,
    * and no cut was due inside any of them. */
  lemma {:induction false} SegmentsCutWhereDue(duration: int, maxsize: nat, fs: seq<Feed>)
    requires VideoFeeds(fs) && duration >= 0
    ensures var l := Run(duration, maxsize, fs);
            && VideoInv(l, duration, maxsize)
            && (l.m.dtsLast.Some? ==> fs != [] && l.m.dtsLast.value <= fs[|fs| - 1].input.dts)
  {
    if fs != [] {
      var init := fs[..|fs| - 1];
      SegmentsCutWhereDue(duration, maxsize, init);
      var l, f := Run(duration, maxsize, init), fs[|fs| - 1];
      if init != [] {
        assert init[|init| - 1].input.dts <= f.input.dts;
      }
      NextKeepsVideoInv(l, f);
      hide Next, Registers, PiecesOk, Pieces;
    }
  }

  /** With the shipped duration 0: a keyframe appears only at the start of a segment, and a segment
    * without its last frame is smaller than the cap. */
  lemma {:induction false} ZeroDurationSegments(maxsize: nat, fs: seq<Feed>, j: nat)
    requires VideoFeeds(fs) && j < |Pieces(Run(0, maxsize, fs))| && maxsize > 0
    ensures var s := Pieces(Run(0, maxsize, fs))[j];
            && s != []
            && (forall k :: 1 <= k < |s| ==> !s[k].key)
            && |Packets(s[..|s| - 1])| < maxsize
  {
    SegmentsCutWhereDue(0, maxsize, fs);
    var s := Pieces(Run(0, maxsize, fs))[j];
    assert Uncut(0, maxsize, s);
    forall k | 1 <= k < |s| ensures !s[k].key {
      assert !DueAt(0, maxsize, s, k);
    }
    if |s| > 1 {
      assert !DueAt(0, maxsize, s, |s| - 1);
    } else {
      assert s[..|s| - 1] == [];
    }
  }

  // --------------------------------------------------- reported durations

  function Total(rs: seq<Report>): int
  {
    if rs == [] then 0 else Total(rs[..|rs| - 1]) + rs[|rs| - 1].duration
  }

  /** A gap over 100 ms between a segment's last frame and the frame that cuts it. */
  function Gap(before: seq<Input>, s: seq<Input>): (g: int)
    requires before != [] && s != []
    ensures g == 0 || g > 100
  {
    var a, b := before[|before| - 1].dts, s[0].dts;
    if b > a + 100 then b - a else 0
  }

  ghost predicate NonEmpty(p: seq<seq<Input>>)
  {
    forall j :: 0 <= j < |p| ==> p[j] != []
  }

  /** The gaps over 100 ms that fall on a cut. */
  function CutGaps(p: seq<seq<Input>>): int
    requires NonEmpty(p)
  {
    if |p| < 2 then 0 else CutGaps(p[..|p| - 1]) + Gap(p[|p| - 2], p[|p| - 1])
  }

  lemma {:induction false} CutGapsSnoc(p: seq<seq<Input>>, s: seq<Input>)
    requires NonEmpty(p) && s != []
    ensures NonEmpty(p + [s])
    ensures CutGaps(p + [s]) == CutGaps(p) + (if p == [] then 0 else Gap(p[|p| - 1], s))
  {
  }

  /** The report carries the first stamps of its segment and a duration that is not negative. */
  ghost predicate ReportOk(r: Report, s: seq<Input>)
  {
    s != [] && r.pts == s[0].pts && r.dts == s[0].dts && r.duration >= 0
  }

  ghost predicate ReportsOk(l: Log)
  {
    |l.reports| == |l.segments| && forall j :: 0 <= j < |l.reports| ==> ReportOk(l.reports[j], l.segments[j])
  }

  ghost predicate Telescoped(l: Log)
  {
    && NonEmpty(Pieces(l)) && ReportsOk(l)
    && (l.current == [] ==> Total(l.reports) == 0)
    && (l.current != [] ==>
          Total(l.reports) == l.current[0].dts - Pieces(l)[0][0].dts - CutGaps(Pieces(l)))
  }

  lemma CutTelescopes(l: Log, i: Input)
    requires Registers(l) && Telescoped(l) && Video(i) && l.m.duration >= 0
    requires l.m.dtsLast.Some? ==> l.m.dtsLast.value <= i.dts
    requires Takes(l, Feed(i, true)) && Cuts(l.m, i)
    ensures Telescoped(Next(l, Feed(i, true)))
  {
    var p, r := Pieces(l), Next(l, Feed(i, true));
    assert Pieces(r) == p + [[i]] && p[|p| - 1] == l.current;
    CutGapsSnoc(p, [i]);
    assert r.reports[..|l.reports|] == l.reports;
  }

  /** Growing the last piece changes no gap on a cut. */
  lemma {:induction false} GapsOfGrownPiece(p: seq<seq<Input>>, s: seq<Input>, i: Input)
    requires s != [] && NonEmpty(p + [s])
    ensures NonEmpty(p) && NonEmpty(p + [s + [i]])
    ensures CutGaps(p + [s + [i]]) == CutGaps(p + [s])
    ensures (p + [s + [i]])[0][0] == (p + [s])[0][0]
  {
  }

  lemma GrowTelescopes(l: Log, i: Input)
    requires Registers(l) && Telescoped(l) && Video(i)
    requires Takes(l, Feed(i, true)) && !Cuts(l.m, i)
    ensures Telescoped(Next(l, Feed(i, true)))
  {
    var r := Next(l, Feed(i, true));
    if l.current == [] {
      assert Pieces(r) == [[i]];
    } else {
      assert Pieces(l) == l.segments + [l.current];
      assert Pieces(r) == l.segments + [l.current + [i]];
      GapsOfGrownPiece(l.segments, l.current, i);
    }
  }

  lemma NextTelescopes(l: Log, f: Feed)
    requires Registers(l) && Telescoped(l) && Video(f.input) && l.m.duration >= 0
    requires l.m.dtsLast.Some? ==> l.m.dtsLast.value <= f.input.dts
    ensures Telescoped(Next(l, f))
  {
    if Takes(l, f) {
      if Cuts(l.m, f.input) {
        CutTelescopes(l, f.input);
      } else {
        GrowTelescopes(l, f.input);
      }
    }
  }

  lemma {:induction false} RunTelescopes(duration: int, maxsize: nat, fs: seq<Feed>)
    requires VideoFeeds(fs) && duration >= 0
    ensures Telescoped(Run(duration, maxsize, fs))
  {
    if fs != [] {
      var init := fs[..|fs| - 1];
      RunTelescopes(duration, maxsize, init);
      SegmentsCutWhereDue(duration, maxsize, init);
      if init != [] {
        assert init[|init| - 1].input.dts <= fs[|fs| - 1].input.dts;
      }
      NextTelescopes(Run(duration, maxsize, init), fs[|fs| - 1]);
    }
  }

  /** The explicit flush: no data, time 0, whatever the muxer makes of it. */
  predicate IsFlush(i: Input)
  {
    i.isVideo && i.empty && !i.key && i.pts == 0 && i.dts == 0
  }

  /** Reported durations telescope: over a stream ending in the flush they are non-negative and add
    * up to the last accepted time minus the first, less the gaps over 100 ms that fall on a cut. */
  lemma {:induction false} DurationsTelescope(duration: int, maxsize: nat, fs: seq<Feed>, flush: Input)
    requires VideoFeeds(fs) && duration >= 0 && IsFlush(flush)
    requires Takes(Run(duration, maxsize, fs), Feed(flush, true))
    requires Run(duration, maxsize, fs).accepted != []
    ensures var l := Run(duration, maxsize, fs);
            var r := Next(l, Feed(flush, true));
            && NonEmpty(Pieces(l)) && r.segments == Pieces(l) && r.m.buf == flush.packets
            && ReportsOk(r)
            && Total(r.reports) == l.accepted[|l.accepted| - 1].dts - l.accepted[0].dts - CutGaps(Pieces(l))
  {
    var l := Run(duration, maxsize, fs);
    var r := Next(l, Feed(flush, true));
    SegmentsCutWhereDue(duration, maxsize, fs);
    RunTelescopes(duration, maxsize, fs);
    assert r.reports[..|l.reports|] == l.reports;
    FlattenSnoc(l.segments, l.current);
    FlattenStarts(Pieces(l));
  }

  lemma {:induction false} FlattenStarts(p: seq<seq<Input>>)
    requires NonEmpty(p) && p != []
    ensures Flatten(p) != [] && Flatten(p)[0] == p[0][0]
  {
    if |p| > 1 {
      FlattenStarts(p[..|p| - 1]);
    } else {
      assert p[..0] == [];
    }
  }

  // -------------------------------------------------------- accepted inputs

  /** With non-decreasing times and duration 0 or more, only a flush is forced. */
  lemma {:induction false} NeverRewinds(duration: int, maxsize: nat, fs: seq<Feed>, f: Feed)
    requires VideoFeeds(fs + [f]) && duration >= 0
    ensures !Forced(Run(duration, maxsize, fs).m, f.input)
  {
    var all := fs + [f];
    assert VideoFeeds(fs) by {
      assert forall k :: 0 <= k < |fs| ==> all[k] == fs[k];
    }
    SegmentsCutWhereDue(duration, maxsize, fs);
    assert all[|fs|] == f;
    if fs != [] {
      assert all[|fs| - 1].input.dts <= all[|fs|].input.dts;
    }
  }

  /** The first input has nothing to cut, so it is always accepted. */
  lemma {:induction false} FirstIsAccepted(duration: int, maxsize: nat, fs: seq<Feed>)
    requires fs != []
    ensures Run(duration, maxsize, fs).accepted != []
    ensures Run(duration, maxsize, fs).accepted[0] == fs[0].input
  {
    if |fs| > 1 {
      FirstIsAccepted(duration, maxsize, fs[..|fs| - 1]);
    } else {
      assert fs[..0] == [];
    }
  }

  lemma ZeroDurationAccepts(l: Log, f: Feed)
    requires Started(l.m) && l.m.duration == 0 && !l.ended && f.handlerOk
    ensures Next(l, f).m.duration == 0 && !Next(l, f).ended && Next(l, f).accepted == l.accepted + [f.input]
  {
  }

  /** With duration 0 and a handler that succeeds, every input is accepted. */
  lemma {:induction false} AllAccepted(maxsize: nat, fs: seq<Feed>)
    requires forall k :: 0 <= k < |fs| ==> fs[k].handlerOk
    ensures var l := Run(0, maxsize, fs);
            && l.m.duration == 0 && !l.ended
            && |l.accepted| == |fs|
            && forall k :: 0 <= k < |fs| ==> l.accepted[k] == fs[k].input
  {
    hide Next;
    if fs != [] {
      AllAccepted(maxsize, fs[..|fs| - 1]);
      ZeroDurationAccepts(Run(0, maxsize, fs[..|fs| - 1]), fs[|fs| - 1]);
    }
  }

  /** So the first piece starts with the first input. */
  lemma {:induction false} FirstPiece(duration: int, maxsize: nat, fs: seq<Feed>)
    requires VideoFeeds(fs) && duration >= 0 && fs != []
    ensures var pieces := Pieces(Run(duration, maxsize, fs));
            pieces != [] && pieces[0] != [] && pieces[0][0] == fs[0].input
  {
    SegmentsCutWhereDue(duration, maxsize, fs);
    FirstIsAccepted(duration, maxsize, fs);
    var pieces := Pieces(Run(duration, maxsize, fs));
    forall j | 0 <= j < |pieces| ensures pieces[j] != [] {
      assert Uncut(duration, maxsize, pieces[j]);
    }
    FlattenStarts(pieces);
  }
}
