/** The cutter and the segment handler together: what the card holds of the frames that went in.  The
  * cutter's buffer is what the handler is given, and the handler's failures are what the cutter sees. */
module Card {
  import opened Base
  import HM = HlsMedia
  import opened Disk
  import Pub = Publisher

  /** One call of hls_media_input, and how the handler's two writes go should it be called. */
  datatype Event = Event(input: HM.Input, tsFault: Pub.Fault, indexFault: Pub.Fault)
  {
    predicate Succeeds() { tsFault == Pub.NoFault && indexFault == Pub.NoFault }
  }

  /** `calls` are the handler calls made, `ends` how many frames each call's segment and those before it
    * reach to in the accepted frames. */
  datatype Session = Session(log: HM.Log, calls: seq<Pub.Call>, ends: seq<nat>)

  predicate CallsHandler(l: HM.Log, i: HM.Input)
  {
    !l.ended && !HM.Aborts(l.m, i) && HM.Cuts(l.m, i)
  }

  function Next(s: Session, e: Event): (r: Session)
    requires HM.Started(s.log.m)
    ensures HM.Started(r.log.m)
  {
    var r := s.(log := HM.Next(s.log, HM.Feed(e.input, e.Succeeds())));
    if !CallsHandler(s.log, e.input) then r
    else r.(calls := s.calls + [Pub.Call(s.log.m.buf, e.tsFault, e.indexFault)],
            ends := s.ends + [|s.log.accepted|])
  }

  function Run(duration: int, maxsize: nat, es: seq<Event>): (s: Session)
    ensures HM.Started(s.log.m)
  {
    if es == [] then Session(HM.Run(duration, maxsize, []), [], [])
    else Next(Run(duration, maxsize, es[..|es| - 1]), es[|es| - 1])
  }

  /** The cutter's view of the events: each input with the answer its handler call gets. */
  function Answers(es: seq<Event>): (r: seq<HM.Feed>)
    ensures |r| == |es|
  {
    seq(|es|, k requires 0 <= k < |es| => HM.Feed(es[k].input, es[k].Succeeds()))
  }

  lemma {:induction false} LogIsRun(duration: int, maxsize: nat, es: seq<Event>)
    ensures Run(duration, maxsize, es).log == HM.Run(duration, maxsize, Answers(es))
  {
    if es != [] {
      LogIsRun(duration, maxsize, es[..|es| - 1]);
      assert Answers(es)[..|es| - 1] == Answers(es[..|es| - 1]);
    }
  }

  // ------------------------------------------------------------ what calls hold

  /** The segments of all calls, one after the other. */
  function Joined(calls: seq<Pub.Call>): seq<byte>
  {
    if calls == [] then [] else Joined(calls[..|calls| - 1]) + calls[|calls| - 1].data
  }

  /** The segments of the calls that returned 0. */
  function Stored(calls: seq<Pub.Call>): seq<byte>
  {
    if calls == [] then []
    else
      var call := calls[|calls| - 1];
      Stored(calls[..|calls| - 1]) + (if Pub.Succeeds(call) then call.data else [])
  }

  ghost predicate NoneEmpty(calls: seq<Pub.Call>)
  {
    forall i :: 0 <= i < |calls| ==> calls[i].data != []
  }

  ghost predicate AllSucceed(calls: seq<Pub.Call>)
  {
    forall i :: 0 <= i < |calls| ==> Pub.Succeeds(calls[i])
  }

  lemma {:induction false} JoinedIsStored(calls: seq<Pub.Call>)
    requires NoneEmpty(calls)
    ensures if AllSucceed(calls) then Joined(calls) == Stored(calls) else |Joined(calls)| > |Stored(calls)|
  {
    if calls != [] {
      var init := calls[..|calls| - 1];
      JoinedIsStored(init);
      assert calls == init + [calls[|calls| - 1]];
      assert AllSucceed(calls) <==> AllSucceed(init) && Pub.Succeeds(calls[|calls| - 1]);
    }
  }

  /** Each call was given everything accepted that no earlier call had stored. */
  ghost predicate CallOk(accepted: seq<HM.Input>, calls: seq<Pub.Call>, ends: seq<nat>, i: nat)
    requires i < |calls| == |ends|
  {
    && ends[i] <= |accepted| && calls[i].data != []
    && HM.Packets(accepted[..ends[i]]) == Stored(calls[..i]) + calls[i].data
  }

  ghost predicate CallsOk(accepted: seq<HM.Input>, calls: seq<Pub.Call>, ends: seq<nat>)
  {
    && |calls| == |ends|
    && (forall i :: 0 <= i < |calls| ==> CallOk(accepted, calls, ends, i))
    && (forall i :: 0 <= i < |ends| ==> ends[i] <= |accepted|)
    && (forall i, j :: 0 <= i < j < |ends| ==> ends[i] <= ends[j])
  }

  ghost predicate SessionOk(s: Session)
  {
    HM.Partitioned(s.log) && HM.Data(s.log.reports) == Stored(s.calls) && CallsOk(s.log.accepted, s.calls, s.ends)
  }

  lemma CallsOkLast(accepted: seq<HM.Input>, more: seq<HM.Input>, calls: seq<Pub.Call>, ends: seq<nat>)
    requires CallsOk(accepted, calls, ends) && accepted <= more
    ensures CallsOk(more, calls, ends)
  {
    forall i | 0 <= i < |calls| ensures CallOk(more, calls, ends, i) {
      assert CallOk(accepted, calls, ends, i);
      assert more[..ends[i]] == accepted[..ends[i]];
    }
  }

  lemma CallsOkSnoc(accepted: seq<HM.Input>, calls: seq<Pub.Call>, ends: seq<nat>, call: Pub.Call)
    requires CallsOk(accepted, calls, ends) && call.data != []
    requires HM.Packets(accepted) == Stored(calls) + call.data
    ensures CallsOk(accepted, calls + [call], ends + [|accepted|])
  {
    forall i | 0 <= i <= |calls| ensures CallOk(accepted, calls + [call], ends + [|accepted|], i) {
      assert (calls + [call])[..i] == calls[..i];
      if i < |calls| {
        assert CallOk(accepted, calls, ends, i);
      } else {
        assert accepted[..|accepted|] == accepted && calls[..i] == calls;
      }
    }
  }

  /** What an event does to the cutter's history and to the calls. */
  lemma EventAdds(s: Session, e: Event)
    requires SessionOk(s)
    ensures var r, call := Next(s, e), Pub.Call(s.log.m.buf, e.tsFault, e.indexFault);
            && s.log.accepted <= r.log.accepted && HM.Partitioned(r.log)
            && (if CallsHandler(s.log, e.input)
                then r.calls == s.calls + [call] && r.ends == s.ends + [|s.log.accepted|] && call.data != []
                else r.calls == s.calls && r.ends == s.ends)
            && HM.Data(r.log.reports) == HM.Data(s.log.reports)
                    + (if CallsHandler(s.log, e.input) && Pub.Succeeds(call) then call.data else [])
  {
    HM.NextPartitions(s.log, HM.Feed(e.input, e.Succeeds()));
  }

  lemma StoredSnoc(calls: seq<Pub.Call>, call: Pub.Call)
    ensures Stored(calls + [call]) == Stored(calls) + (if Pub.Succeeds(call) then call.data else [])
  {
  }

  lemma NextKeepsSession(s: Session, e: Event)
    requires SessionOk(s)
    ensures SessionOk(Next(s, e))
  {
    var r, call := Next(s, e), Pub.Call(s.log.m.buf, e.tsFault, e.indexFault);
    EventAdds(s, e);
    assert HM.Packets(s.log.accepted) == Stored(s.calls) + s.log.m.buf;
    hide Next, CallsHandler, HM.Partitioned, HM.Packets, HM.Data, Stored, CallsOk;
    if CallsHandler(s.log, e.input) {
      StoredSnoc(s.calls, call);
      CallsOkSnoc(s.log.accepted, s.calls, s.ends, call);
    }
    CallsOkLast(s.log.accepted, r.log.accepted, r.calls, r.ends);
  }

  lemma {:induction false} RunKeepsSession(duration: int, maxsize: nat, es: seq<Event>)
    ensures SessionOk(Run(duration, maxsize, es))
  {
    if es != [] {
      RunKeepsSession(duration, maxsize, es[..|es| - 1]);
      NextKeepsSession(Run(duration, maxsize, es[..|es| - 1]), es[|es| - 1]);
    }
  }

  /** The first n segments are exactly the frames accepted by the n-th call, each once, if and only if
    * every call before that one returned 0. */
  lemma SegmentsAreAccepted(s: Session, n: nat)
    requires SessionOk(s) && 1 <= n <= |s.calls|
    ensures s.ends[n - 1] <= |s.log.accepted|
    ensures Joined(s.calls[..n]) == HM.Packets(s.log.accepted[..s.ends[n - 1]])
       <==> AllSucceed(s.calls[..n - 1])
  {
    forall i | 0 <= i < n ensures s.calls[i].data != [] {
      assert CallOk(s.log.accepted, s.calls, s.ends, i);
    }
    assert CallOk(s.log.accepted, s.calls, s.ends, n - 1);
    assert s.calls[..n][..n - 1] == s.calls[..n - 1];
    JoinedIsStored(s.calls[..n - 1]);
  }

  /** After a call that failed, the next one is given the same packets again, and more. */
  lemma FailedSegmentComesAgain(s: Session, i: nat)
    requires SessionOk(s) && i + 1 < |s.calls| && !Pub.Succeeds(s.calls[i])
    ensures s.calls[i].data <= s.calls[i + 1].data
  {
    assert CallOk(s.log.accepted, s.calls, s.ends, i) && CallOk(s.log.accepted, s.calls, s.ends, i + 1);
    assert s.calls[..i + 1][..i] == s.calls[..i];
    PacketsPrefix(s.log.accepted, s.ends[i], s.ends[i + 1]);
    assert Stored(s.calls[..i + 1]) == Stored(s.calls[..i]);
    var a, x, y := Stored(s.calls[..i]), s.calls[i].data, s.calls[i + 1].data;
    assert a + x <= a + y;
    assert (a + x)[|a|..] == x && (a + y)[|a|..] == y;
  }

  lemma {:induction false} PacketsPrefix(s: seq<HM.Input>, a: nat, b: nat)
    requires a <= b <= |s|
    ensures HM.Packets(s[..a]) <= HM.Packets(s[..b])
  {
    if a < b {
      PacketsPrefix(s, a, b - 1);
      assert s[..b][..b - 1] == s[..b - 1];
    }
  }

  // --------------------------------------------------------------- the card

  ghost predicate HasSegments(img: Image, n: nat)
  {
    forall i :: 0 <= i < n ==> Ts(i) in img && img[Ts(i)].Segment?
  }

  /** The first n segments found on the card, played one after the other. */
  function Playback(img: Image, n: nat): seq<byte>
    requires HasSegments(img, n)
  {
    if n == 0 then [] else Playback(img, n - 1) + img[Ts(n - 1)].data
  }

  lemma {:induction false} PlaybackIsJoined(img: Image, calls: seq<Pub.Call>, n: nat)
    requires n <= |calls| && forall i :: 0 <= i < n ==> Ts(i) in img && img[Ts(i)] == Segment(calls[i].data)
    ensures Playback(img, n) == Joined(calls[..n])
  {
    if n > 0 {
      PlaybackIsJoined(img, calls, n - 1);
      assert calls[..n][..n - 1] == calls[..n - 1];
    }
  }

  /** A playlist found on the card plays exactly the frames accepted when its last segment was handed
    * over: none missing, none twice, in order. */
  ghost predicate PlaysAccepted(img: Image, s: Session)
    requires SessionOk(s)
  {
    Index in img ==>
      && img[Index].Playlist? && img[Index].count <= |s.calls|
      && var n := img[Index].count;
      && HasSegments(img, n)
      && (n > 0 ==>
            && s.ends[n - 1] <= |s.log.accepted|
            && Playback(img, n) == HM.Packets(s.log.accepted[..s.ends[n - 1]]))
  }

  ghost predicate AlwaysPlaysAccepted(s: Session)
    requires SessionOk(s)
  {
    forall k, img :: 0 <= k < |Pub.Trace(s.calls)| && MayLeave(Pub.Trace(s.calls)[k], img) ==> PlaysAccepted(img, s)
  }

  /** Every call before the last one whose playlist was put in place returned 0. */
  ghost predicate CleanUpToLast(calls: seq<Pub.Call>)
  {
    forall j :: 0 <= j && j + 1 < Pub.Listed(calls) ==> Pub.Succeeds(calls[j])
  }

  lemma {:induction false} ListedCoversRenames(calls: seq<Pub.Call>, j: nat)
    requires j < |calls| && calls[j].IndexRenamed()
    ensures j < Pub.Listed(calls)
  {
    if j < |calls| - 1 && !calls[|calls| - 1].IndexRenamed() {
      ListedCoversRenames(calls[..|calls| - 1], j);
    }
  }

  lemma {:induction false} ListedIsRenamed(calls: seq<Pub.Call>)
    requires Pub.Listed(calls) > 0
    ensures calls[Pub.Listed(calls) - 1].IndexRenamed() && Pub.Listed(calls[..Pub.Listed(calls)]) == Pub.Listed(calls)
  {
    var init := calls[..|calls| - 1];
    if calls[|calls| - 1].IndexRenamed() {
      assert calls[..|calls|] == calls;
    } else {
      ListedIsRenamed(init);
      assert init[..Pub.Listed(init)] == calls[..Pub.Listed(init)];
    }
  }

  lemma CleanIsSound(calls: seq<Pub.Call>)
    requires CleanUpToLast(calls)
    ensures Pub.Sound(calls)
  {
    forall i, j | 0 <= i < j < |calls| && calls[j].IndexRenamed() ensures calls[i].TsRenamed() {
      ListedCoversRenames(calls, j);
      assert i + 1 < Pub.Listed(calls);
    }
  }

  /** What a crash leaves listed are the first calls' segments, all of them before the last one listed by
    * calls that returned 0. */
  lemma CleanCard(calls: seq<Pub.Call>, k: nat, img: Image)
    requires CleanUpToLast(calls)
    requires k < |Pub.Trace(calls)| && MayLeave(Pub.Trace(calls)[k], img)
    ensures Playable(img, Pub.Segments(calls))
    ensures Index in img ==>
              && img[Index].Playlist? && img[Index].count <= |calls|
              && (img[Index].count > 0 ==> AllSucceed(calls[..img[Index].count - 1]))
  {
    CleanIsSound(calls);
    Pub.SoundImage(calls, k, img);
    hide *;
    if Index in img {
      PlayableIsPlaylist(img, Pub.Segments(calls));
      CleanPrefix(calls, img[Index].count);
    }
  }

  lemma CleanPlays(s: Session, k: nat, img: Image)
    requires SessionOk(s) && CleanUpToLast(s.calls)
    requires k < |Pub.Trace(s.calls)| && MayLeave(Pub.Trace(s.calls)[k], img)
    ensures PlaysAccepted(img, s)
  {
    CleanCard(s.calls, k, img);
    ListedPlays(s, img);
  }

  lemma PlayableIsPlaylist(img: Image, segments: seq<seq<byte>>)
    requires Playable(img, segments) && Index in img
    ensures img[Index].Playlist?
  {
  }

  lemma {:induction false} CleanPrefix(calls: seq<Pub.Call>, n: nat)
    requires CleanUpToLast(calls) && n <= Pub.Listed(calls)
    ensures n == 0 || AllSucceed(calls[..n - 1])
  {
    if n > 0 {
      forall j | 0 <= j < n - 1 ensures Pub.Succeeds(calls[j]) {
        assert j + 1 < Pub.Listed(calls);
      }
    }
  }

  lemma ListedPlays(s: Session, img: Image)
    requires SessionOk(s) && Playable(img, Pub.Segments(s.calls))
    requires Index in img ==> img[Index].count == 0 || AllSucceed(s.calls[..img[Index].count - 1])
    ensures PlaysAccepted(img, s)
  {
    if Index in img {
      var n := img[Index].count;
      forall i | 0 <= i < n ensures Ts(i) in img && img[Ts(i)] == Segment(s.calls[i].data) {
        assert Pub.Segments(s.calls)[i] == s.calls[i].data;
      }
      PlaybackIsJoined(img, s.calls, n);
      if n > 0 {
        SegmentsAreAccepted(s, n);
      }
    }
  }

  lemma RepeatShows(s: Session, j: nat, n: nat, img: Image)
    requires SessionOk(s) && j + 1 < n <= |s.calls| && !Pub.Succeeds(s.calls[j])
    requires Index in img && img[Index] == Playlist(n)
    requires forall i :: 0 <= i < n ==> Ts(i) in img && img[Ts(i)] == Segment(s.calls[i].data)
    ensures !PlaysAccepted(img, s)
  {
    PlaybackIsJoined(img, s.calls, n);
    SegmentsAreAccepted(s, n);
    assert !Pub.Succeeds(s.calls[..n - 1][j]);
  }

  /** A call failed, and a later playlist is in place: what is on the card then does not play as it
    * should. */
  lemma FailureShows(s: Session, j: nat) returns (k: nat, img: Image)
    requires SessionOk(s) && j + 1 < Pub.Listed(s.calls) && !Pub.Succeeds(s.calls[j])
    ensures k < |Pub.Trace(s.calls)| && MayLeave(Pub.Trace(s.calls)[k], img)
    ensures !PlaysAccepted(img, s)
  {
    hide Pub.Trace, Pub.Coherent, MayLeave;
    var n := Pub.Listed(s.calls);
    var p := s.calls[..n];
    ListedIsRenamed(s.calls);
    Pub.TraceVisible(p);
    Pub.TracePrefix(s.calls, n);
    var fs := Pub.After(p);
    k := |Pub.Trace(p)| - 1;
    assert Pub.Trace(s.calls)[k] == fs;
    img := Pub.CardMayStay(fs);
    assert Durable(fs, Current(fs, Index), Playlist(n));
    assert Index in img && img[Index] == Playlist(n);
    if forall i :: 0 <= i < n ==> p[i].TsRenamed() {
      forall i | 0 <= i < n ensures Ts(i) in img && img[Ts(i)] == Segment(s.calls[i].data) {
        assert p[i] == s.calls[i] && Durable(fs, Current(fs, Ts(i)), Segment(p[i].data));
      }
      RepeatShows(s, j, n, img);
    } else {
      var i :| 0 <= i < n && !p[i].TsRenamed();
      assert Current(fs, Ts(i)) == None;
      assert Ts(i) !in img;
    }
  }

  /** The recording on the card, exactly: over every run of inputs and every pattern of failing writes,
    * a crash at any step leaves a playlist that plays precisely the frames accepted when its last
    * segment was handed over, if and only if every handler call before the last one listed returned 0.
    * After any other call the cutter hands the same frames over again under the next index, so they are
    * listed twice or their first listing has no file. */
  lemma {:induction false} CardPlaysExactly(duration: int, maxsize: nat, es: seq<Event>)
    ensures var s := Run(duration, maxsize, es);
            && SessionOk(s)
            && (AlwaysPlaysAccepted(s) <==> CleanUpToLast(s.calls))
  {
    RunKeepsSession(duration, maxsize, es);
    var s := Run(duration, maxsize, es);
    if CleanUpToLast(s.calls) {
      forall k, img | 0 <= k < |Pub.Trace(s.calls)| && MayLeave(Pub.Trace(s.calls)[k], img)
        ensures PlaysAccepted(img, s)
      {
        CleanPlays(s, k, img);
      }
    } else {
      var j :| 0 <= j && j + 1 < Pub.Listed(s.calls) && !Pub.Succeeds(s.calls[j]);
      var k, img := FailureShows(s, j);
    }
  }

  // ------------------------------------------------------- until a call fails

  /** As long as every call returns 0 the calls are the cutter's reports, one for one. */
  lemma {:induction false} CallsAreReports(duration: int, maxsize: nat, es: seq<Event>)
    requires AllSucceed(Run(duration, maxsize, es).calls)
    ensures var s := Run(duration, maxsize, es);
            && |s.calls| == |s.log.reports| == |s.log.segments|
            && forall j :: 0 <= j < |s.calls| ==> s.calls[j].data == s.log.reports[j].data
  {
    if es != [] {
      var s, e := Run(duration, maxsize, es[..|es| - 1]), es[|es| - 1];
      CallsGrow(s, e);
      CallsAreReports(duration, maxsize, es[..|es| - 1]);
      if CallsHandler(s.log, e.input) {
        assert Pub.Succeeds(Next(s, e).calls[|s.calls|]);
      }
    }
  }

  lemma CallsGrow(s: Session, e: Event)
    requires HM.Started(s.log.m)
    ensures var r := Next(s, e);
            if CallsHandler(s.log, e.input)
            then r.calls == s.calls + [Pub.Call(s.log.m.buf, e.tsFault, e.indexFault)]
            else r.calls == s.calls
    ensures AllSucceed(Next(s, e).calls) ==> AllSucceed(s.calls)
  {
    var r := Next(s, e);
    if AllSucceed(r.calls) {
      forall i | 0 <= i < |s.calls| ensures Pub.Succeeds(s.calls[i]) {
        assert r.calls[i] == s.calls[i];
      }
    }
  }

  /** And with duration 0 every input goes in. */
  lemma {:induction false} NothingIsLost(maxsize: nat, es: seq<Event>)
    requires AllSucceed(Run(0, maxsize, es).calls)
    ensures var l := Run(0, maxsize, es).log;
            && l.m.duration == 0 && !l.ended && |l.accepted| == |es|
            && forall k :: 0 <= k < |es| ==> l.accepted[k] == es[k].input
  {
    if es != [] {
      var s, e := Run(0, maxsize, es[..|es| - 1]), es[|es| - 1];
      CallsGrow(s, e);
      NothingIsLost(maxsize, es[..|es| - 1]);
      assert HM.Takes(s.log, HM.Feed(e.input, e.Succeeds())) by {
        if CallsHandler(s.log, e.input) {
          assert Pub.Succeeds(Next(s, e).calls[|s.calls|]);
        }
      }
      hide CallsHandler, HM.Accept, HM.Begins, HM.Cuts, HM.Aborts, HM.ReportOf, HM.Accepts;
    }
  }

  /** The event at which call i is made. */
  lemma {:induction false} EventOfCall(duration: int, maxsize: nat, es: seq<Event>, i: nat) returns (m: nat)
    requires i < |Run(duration, maxsize, es).calls|
    ensures m < |es|
    ensures var s, t := Run(duration, maxsize, es), Run(duration, maxsize, es[..m]);
            && t.calls == s.calls[..i] && s.calls[i].data == t.log.m.buf && CallsHandler(t.log, es[m].input)
  {
    var init := es[..|es| - 1];
    var before := Run(duration, maxsize, init);
    CallsGrow(before, es[|es| - 1]);
    hide Next, CallsHandler;
    if i < |before.calls| {
      m := EventOfCall(duration, maxsize, init, i);
      assert init[..m] == es[..m];
    } else {
      m := |es| - 1;
    }
  }

  // --------------------------------------------------------- without I/O errors

  ghost predicate Faultless(es: seq<Event>)
  {
    forall k :: 0 <= k < |es| ==> es[k].Succeeds()
  }

  lemma {:induction false} FaultlessCalls(duration: int, maxsize: nat, es: seq<Event>)
    requires Faultless(es)
    ensures AllSucceed(Run(duration, maxsize, es).calls)
  {
    if es != [] {
      FaultlessCalls(duration, maxsize, es[..|es| - 1]);
    }
  }

  /** Without I/O errors, after n handler calls a crash at any later step leaves a playlist that lists at
    * least n segments, each the packets of its own segment of the cutter. */
  lemma {:induction false} FaultlessCard(duration: int, maxsize: nat, es: seq<Event>, n: nat, k: nat, img: Image)
    requires Faultless(es) && n <= |Run(duration, maxsize, es).calls|
    requires var t := Pub.Trace(Run(duration, maxsize, es).calls);
             |Pub.Trace(Run(duration, maxsize, es).calls[..n])| - 1 <= k < |t| && MayLeave(t[k], img)
    ensures n > 0 ==> Index in img
    ensures Index in img ==>
              var s := Run(duration, maxsize, es);
              && img[Index].Playlist? && n <= img[Index].count <= |s.log.segments|
              && forall j :: 0 <= j < img[Index].count ==>
                   Ts(j) in img && img[Ts(j)] == Segment(HM.Packets(s.log.segments[j]))
  {
    var s := Run(duration, maxsize, es);
    FaultlessCalls(duration, maxsize, es);
    CallsAreReports(duration, maxsize, es);
    RunKeepsSession(duration, maxsize, es);
    hide Run;
    Pub.NoErrorsNoLoss(s.calls, n, k, img);
    hide Pub.Trace, MayLeave;
    if Index in img {
      forall j | 0 <= j < img[Index].count
        ensures Ts(j) in img && img[Ts(j)] == Segment(HM.Packets(s.log.segments[j]))
      {
        assert Pub.Segments(s.calls)[j] == s.calls[j].data;
      }
    }
  }
}
