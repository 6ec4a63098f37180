/** From the capture thread to the inputs of the HLS instances: the queue of module FrameQueue
  * followed by the writer's day rollover and keyframe gate. */
module Pipeline {
  import opened Base
  import opened FrameQueue

  /** `instances` holds the ids given to each HLS instance, the open one last; `skipped` the ids
    * the gate turned away. */
  datatype Pipe = Pipe(q: Queue, instances: seq<seq<nat>>, seen: bool, skipped: seq<nat>)
  {
    function Open(): seq<nat>
      requires instances != []
    {
      instances[|instances| - 1]
    }
  }

  datatype Event = Offer(f: Frame) | Take(rollover: bool) | Shut

  function Start(capacity: nat): Pipe
  {
    Pipe(Init(capacity), [[]], false, [])
  }

  function Append(instances: seq<seq<nat>>, id: nat): seq<seq<nat>>
    requires instances != []
  {
    instances[..|instances| - 1] + [instances[|instances| - 1] + [id]]
  }

  /** The writer takes frame id: a changed day opens a new instance, and each instance waits for
    * its first keyframe. */
  function Ingest(p: Pipe, id: nat, rollover: bool): (r: Pipe)
    requires p.instances != []
    ensures r.instances != [] && r.q == p.q
  {
    var p := if rollover then p.(instances := p.instances + [[]], seen := false) else p;
    if !p.seen && !p.q.Key(id) then
      p.(skipped := p.skipped + [id])
    else
      p.(seen := true, instances := Append(p.instances, id))
  }

  function Next(p: Pipe, e: Event): (r: Pipe)
    requires p.instances != []
    ensures r.instances != []
  {
    match e
    case Offer(f) => p.(q := Push(p.q, f))
    case Shut => p.(q := Close(p.q))
    case Take(rollover) =>
      if p.q.queued == [] then p else Ingest(p.(q := Pop(p.q)), p.q.queued[0], rollover)
  }

  function RunPipe(capacity: nat, events: seq<Event>): (p: Pipe)
    ensures p.instances != []
  {
    if events == [] then Start(capacity)
    else Next(RunPipe(capacity, events[..|events| - 1]), events[|events| - 1])
  }

  function QueueActions(events: seq<Event>): seq<Action>
  {
    if events == [] then []
    else
      QueueActions(events[..|events| - 1])
      + [match events[|events| - 1]
         case Offer(f) => DoPush(f)
         case Take(_) => DoPop
         case Shut => DoClose]
  }

  lemma {:induction false} PipeRunsQueue(capacity: nat, events: seq<Event>)
    ensures RunPipe(capacity, events).q == Run(capacity, QueueActions(events))
  {
    if events != [] {
      var before := events[..|events| - 1];
      PipeRunsQueue(capacity, before);
      var acts := QueueActions(events);
      assert acts[..|acts| - 1] == QueueActions(before);
    }
  }

  /** One instance's input: it starts with a keyframe and is a chain of the stream law. */
  ghost predicate InstanceOk(q: Queue, s: seq<nat>)
  {
    && (s != [] ==> q.Key(s[0]))
    && Increasing(s, |q.offered|)
    && Chain(q.offered, q.orphans, s)
  }

  ghost predicate PipeOk(p: Pipe)
  {
    && p.instances != []
    && (forall i :: 0 <= i < |p.instances| ==> InstanceOk(p.q, p.instances[i]))
    && (p.seen <==> p.Open() != [])
    && (p.seen ==> p.q.popped != []
                   && p.Open()[|p.Open()| - 1] == p.q.popped[|p.q.popped| - 1])
  }

  lemma OfferKeepsInstance(q: Queue, f: Frame, s: seq<nat>)
    requires q.capacity >= 1 && Conserved(q) && StreamOk(q) && InstanceOk(q, s)
    ensures InstanceOk(Push(q, f), s)
  {
  }

  /** The popped id continues the open instance, or starts one. */
  lemma TakeExtendsOpen(q: Queue, open: seq<nat>)
    requires q.queued != [] && Conserved(q) && StreamOk(q) && InstanceOk(q, open)
    requires open != [] ==> q.popped != [] && open[|open| - 1] == q.popped[|q.popped| - 1]
    requires open == [] ==> q.Key(q.queued[0])
    ensures InstanceOk(q, open + [q.queued[0]])
  {
    var i := |q.popped|;
    var id := q.queued[0];
    assert q.Stream()[i] == id;
    if open != [] {
      assert q.Stream()[i - 1] == open[|open| - 1];
      assert Follows(q.offered, q.orphans, q.Stream()[i - 1], q.Stream()[i]);
    }
    ChainSnoc(q.offered, q.orphans, open, id);
  }

  lemma IngestKeepsPipe(p: Pipe, rollover: bool)
    requires PipeOk(p) && Conserved(p.q) && StreamOk(p.q) && p.q.queued != []
    ensures PipeOk(Next(p, Take(rollover)))
  {
    var id := p.q.queued[0];
    var r := Next(p, Take(rollover));
    var q := r.q;
    var open := if rollover then [] else p.Open();
    if p.q.Key(id) || open != [] {
      TakeExtendsOpen(p.q, open);
      assert r.Open() == open + [id];
    } else {
      assert r.Open() == [];
    }
    forall j | 0 <= j < |r.instances| ensures InstanceOk(q, r.instances[j]) {
      if j < |r.instances| - 1 {
        assert InstanceOk(p.q, p.instances[j]);
      }
    }
  }

  lemma StepKeepsPipe(p: Pipe, e: Event)
    requires p.q.capacity >= 1 && PipeOk(p) && Conserved(p.q) && StreamOk(p.q)
    ensures PipeOk(Next(p, e))
  {
    match e
    case Offer(f) =>
      forall i | 0 <= i < |p.instances| ensures InstanceOk(Push(p.q, f), p.instances[i]) {
        OfferKeepsInstance(p.q, f, p.instances[i]);
      }
      if Accepts(p.q, f) {
        PushShape(p.q, f);
      }
    case Take(rollover) =>
      if p.q.queued != [] {
        IngestKeepsPipe(p, rollover);
      }
    case Shut =>
      assert forall i :: 0 <= i < |p.instances| ==> InstanceOk(p.q, p.instances[i]);
  }

  lemma {:induction false} PipeQueueOk(capacity: nat, events: seq<Event>)
    requires capacity >= 1
    ensures var q := RunPipe(capacity, events).q;
            q.capacity == capacity && Conserved(q) && StreamOk(q)
  {
    PipeRunsQueue(capacity, events);
    RunConserves(capacity, QueueActions(events));
    RunStreamLaw(capacity, QueueActions(events));
  }

  /** Over every interleaving of offers, pops, rollovers and the close: each instance's input
    * starts with a keyframe and follows the stream law. */
  lemma {:induction false} InstancesFollowStreamLaw(capacity: nat, events: seq<Event>)
    requires capacity >= 1
    ensures PipeOk(RunPipe(capacity, events))
  {
    if events != [] {
      var before := events[..|events| - 1];
      InstancesFollowStreamLaw(capacity, before);
      PipeQueueOk(capacity, before);
      StepKeepsPipe(RunPipe(capacity, before), events[|events| - 1]);
    }
  }

  // -------------------------------------------------- GOP prefixes

  lemma {:induction false} AppendFlattens(instances: seq<seq<nat>>, id: nat)
    requires instances != []
    ensures Flatten(Append(instances, id)) == Flatten(instances) + [id]
  {
    FlattenAppend(instances, id);
  }

  /** A keyframe and the frames offered directly after it, none of them key. */
  ghost predicate GopPrefix(offered: seq<Frame>, g: seq<nat>)
  {
    && g != []
    && IsKey(offered, g[0])
    && forall i :: 1 <= i < |g| ==> g[i] == g[0] + i && !IsKey(offered, g[i])
  }

  /** Cuts s before each keyframe. */
  function Gops(offered: seq<Frame>, s: seq<nat>): seq<seq<nat>>
  {
    if s == [] then []
    else
      var g := Gops(offered, s[..|s| - 1]);
      if g == [] || IsKey(offered, s[|s| - 1]) then g + [[s[|s| - 1]]] else Append(g, s[|s| - 1])
  }

  ghost predicate AllGopPrefixes(offered: seq<Frame>, g: seq<seq<nat>>)
  {
    forall i :: 0 <= i < |g| ==> GopPrefix(offered, g[i])
  }

  lemma GopGrows(offered: seq<Frame>, g: seq<nat>, x: nat)
    requires GopPrefix(offered, g) && !IsKey(offered, x) && x == g[|g| - 1] + 1
    ensures GopPrefix(offered, g + [x])
  {
  }

  lemma {:induction false} AppendToGops(offered: seq<Frame>, g: seq<seq<nat>>, x: nat)
    requires AllGopPrefixes(offered, g) && g != [] && !IsKey(offered, x)
    requires Flatten(g) != [] && x == Flatten(g)[|Flatten(g)| - 1] + 1
    ensures AllGopPrefixes(offered, Append(g, x))
  {
    var n := |g| - 1;
    var last := g[n];
    assert GopPrefix(offered, last);
    assert last[|last| - 1] == x - 1;
    GopGrows(offered, last, x);
    hide GopPrefix;
    var h := Append(g, x);
    forall i | 0 <= i < |h| ensures GopPrefix(offered, h[i]) {
      if i < n {
        assert h[i] == g[i];
      }
    }
  }

  lemma InstancePrefix(q: Queue, s: seq<nat>)
    requires InstanceOk(q, s) && s != []
    ensures InstanceOk(q, s[..|s| - 1])
  {
  }

  lemma NewGop(offered: seq<Frame>, g: seq<seq<nat>>, x: nat)
    requires AllGopPrefixes(offered, g) && IsKey(offered, x)
    ensures AllGopPrefixes(offered, g + [[x]])
  {
  }

  lemma {:induction false} ChainIsGops(q: Queue, s: seq<nat>)
    requires InstanceOk(q, s) && q.orphans == {}
    ensures Flatten(Gops(q.offered, s)) == s
    ensures AllGopPrefixes(q.offered, Gops(q.offered, s))
  {
    if s != [] {
      var t, x := s[..|s| - 1], s[|s| - 1];
      InstancePrefix(q, s);
      ChainIsGops(q, t);
      var g := Gops(q.offered, t);
      assert s == t + [x];
      if q.Key(x) {
        NewGop(q.offered, g, x);
        FlattenSnoc(g, [x]);
      } else {
        assert t != [] && g != [];
        assert Follows(q.offered, q.orphans, s[|t| - 1], s[|t|]);
        AppendToGops(q.offered, g, x);
        AppendFlattens(g, x);
      }
    }
  }

  /** When every `capacity` consecutive offered frames contain a keyframe, then in every
    * interleaving each HLS instance's input is a concatenation of GOP prefixes. */
  lemma {:induction false} DenseRecordsGopPrefixes(capacity: nat, events: seq<Event>, i: nat)
    requires capacity >= 1 && i < |RunPipe(capacity, events).instances|
    requires Dense(RunPipe(capacity, events).q.offered, capacity)
    ensures var p := RunPipe(capacity, events);
            var gops := Gops(p.q.offered, p.instances[i]);
            && Flatten(gops) == p.instances[i]
            && AllGopPrefixes(p.q.offered, gops)
  {
    var p := RunPipe(capacity, events);
    InstancesFollowStreamLaw(capacity, events);
    PipeRunsQueue(capacity, events);
    DenseRunHasNoOrphan(capacity, QueueActions(events));
    ChainIsGops(p.q, p.instances[i]);
  }

  // --------------------------------------------------------- gate losses

  /** Every popped frame is in one instance or was turned away, and only non-key frames are. */
  ghost predicate GateOk(p: Pipe)
  {
    && multiset(p.q.popped) == multiset(Flatten(p.instances)) + multiset(p.skipped)
    && NonKeys(p.q.offered, p.skipped)
  }

  ghost predicate NonKeys(offered: seq<Frame>, s: seq<nat>)
  {
    forall i :: 0 <= i < |s| ==> s[i] < |offered| && !IsKey(offered, s[i])
  }

  lemma IngestPlacesFrame(p: Pipe, id: nat, rollover: bool)
    requires p.instances != []
    ensures var r := Ingest(p, id, rollover);
            multiset(Flatten(r.instances)) + multiset(r.skipped)
            == multiset(Flatten(p.instances)) + multiset(p.skipped) + multiset{id}
  {
  }

  lemma IngestSkipsNonKeys(p: Pipe, id: nat, rollover: bool)
    requires p.instances != [] && NonKeys(p.q.offered, p.skipped) && id < |p.q.offered|
    ensures NonKeys(p.q.offered, Ingest(p, id, rollover).skipped)
  {
  }

  lemma TakeKeepsGate(p: Pipe, rollover: bool)
    requires GateOk(p) && p.instances != [] && p.q.queued != []
    requires Increasing(p.q.Stream(), |p.q.offered|)
    ensures GateOk(Next(p, Take(rollover)))
  {
    var id := p.q.queued[0];
    assert p.q.Stream()[|p.q.popped|] == id;
    var p1 := p.(q := Pop(p.q));
    IngestSkipsNonKeys(p1, id, rollover);
    IngestPlacesFrame(p1, id, rollover);
    assert multiset(p1.q.popped) == multiset(p.q.popped) + multiset{id};
  }

  lemma StepKeepsGate(p: Pipe, e: Event)
    requires GateOk(p) && p.instances != [] && Conserved(p.q)
    ensures GateOk(Next(p, e))
  {
    match e
    case Offer(f) =>
      if Accepts(p.q, f) {
        PushShape(p.q, f);
      }
    case Take(rollover) =>
      if p.q.queued != [] {
        TakeKeepsGate(p, rollover);
      }
    case Shut =>
  }

  /** The writer loses no popped frame except the non-key ones its gate turned away. */
  lemma {:induction false} GateSkipsOnlyNonKeys(capacity: nat, events: seq<Event>)
    requires capacity >= 1
    ensures GateOk(RunPipe(capacity, events))
  {
    if events == [] {
      FlattenSnoc<nat>([], []);
      var none: seq<seq<nat>> := [];
      assert none + [[]] == [[]];
    } else {
      var before := events[..|events| - 1];
      GateSkipsOnlyNonKeys(capacity, before);
      PipeQueueOk(capacity, before);
      StepKeepsGate(RunPipe(capacity, before), events[|events| - 1]);
    }
  }

  // ------------------------------------------------- which frames the gate passes

  /** The pipe after the first k events. */
  function After(capacity: nat, events: seq<Event>, k: nat): (p: Pipe)
    requires k <= |events|
    ensures p.instances != []
  {
    RunPipe(capacity, events[..k])
  }

  /** At event k the writer takes a frame. */
  predicate Takes(capacity: nat, events: seq<Event>, k: nat)
    requires k < |events|
  {
    events[k].Take? && After(capacity, events, k).q.queued != []
  }

  predicate TakesKey(capacity: nat, events: seq<Event>, k: nat)
    requires k < |events|
  {
    Takes(capacity, events, k) && After(capacity, events, k).q.Key(After(capacity, events, k).q.queued[0])
  }

  /** Among the frames taken before event k is a keyframe, with no rollover after it. */
  ghost predicate KeySince(capacity: nat, events: seq<Event>, k: nat)
    requires k <= |events|
  {
    exists j: nat :: j < k && TakesKey(capacity, events, j)
                     && forall m: nat :: j < m < k && Takes(capacity, events, m) ==> !events[m].rollover
  }

  lemma AfterStep(capacity: nat, events: seq<Event>, k: nat)
    requires k < |events|
    ensures After(capacity, events, k + 1) == Next(After(capacity, events, k), events[k])
  {
    assert events[..k + 1][..k] == events[..k];
  }

  lemma KeySinceStep(capacity: nat, events: seq<Event>, k: nat)
    requires k < |events|
    ensures KeySince(capacity, events, k + 1)
       <==> || TakesKey(capacity, events, k)
            || (KeySince(capacity, events, k) && !(Takes(capacity, events, k) && events[k].rollover))
  {
    hide TakesKey;
    if KeySince(capacity, events, k) && !(Takes(capacity, events, k) && events[k].rollover) {
      var j: nat :| j < k && TakesKey(capacity, events, j)
                    && forall m: nat :: j < m < k && Takes(capacity, events, m) ==> !events[m].rollover;
      assert forall m: nat :: j < m < k + 1 && Takes(capacity, events, m) ==> !events[m].rollover;
    }
  }

  lemma {:induction false} SeenFollows(capacity: nat, events: seq<Event>, k: nat)
    requires k <= |events|
    ensures After(capacity, events, k).seen <==> KeySince(capacity, events, k)
  {
    if k > 0 {
      SeenFollows(capacity, events, k - 1);
      AfterStep(capacity, events, k - 1);
      KeySinceStep(capacity, events, k - 1);
    }
  }

  /** The gate, exactly: in every run a frame that the writer takes goes to the end of the open instance, a
    * new one after a rollover, if and only if it or one taken since the last rollover is a keyframe;
    * otherwise it is skipped.  Nothing else changes the instances. */
  lemma GateExactly(capacity: nat, events: seq<Event>, k: nat)
    requires k < |events|
    ensures var p, r := After(capacity, events, k), After(capacity, events, k + 1);
            if !Takes(capacity, events, k) then r.instances == p.instances && r.skipped == p.skipped
            else
              var base := if events[k].rollover then p.instances + [[]] else p.instances;
              if KeySince(capacity, events, k + 1)
              then r.instances == Append(base, p.q.queued[0]) && r.skipped == p.skipped
              else r.instances == base && r.skipped == p.skipped + [p.q.queued[0]]
  {
    AfterStep(capacity, events, k);
    SeenFollows(capacity, events, k + 1);
    SeenFollows(capacity, events, k);
    KeySinceStep(capacity, events, k);
  }
}
