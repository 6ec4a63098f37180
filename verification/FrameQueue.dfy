/** The bounded queue between the capture thread and the writer, seen as a value.
  *
  * Every copy the queue makes of an offered frame gets an id, its position in
  * `offered`.  The other sequences record where each copy went.  Class
  * `FrameQueueRing.FrameQueue` implements these steps on a ring buffer. */
module FrameQueue {
  import opened Base
  import opened Arithmetic

  datatype Frame = Frame(bytes: seq<byte>, isKey: bool, ptsUs: int)

  datatype Queue = Queue(
    capacity: nat,
    offered: seq<Frame>,  // every frame copied by a push, oldest first
    popped: seq<nat>,     // ids handed to a popper
    queued: seq<nat>,     // ids waiting in the ring
    dropped: seq<nat>,    // ids freed by eviction or by the dropping mode
    refused: seq<nat>,    // ids freed because the queue was closed
    dropping: bool,
    closed: bool,
    overflows: nat,       // pushes that found the ring full
    orphans: set<nat>)    // non-key frames whose own push evicted the whole ring
  {
    /** What the writer has seen and will see if nothing more is offered. */
    function Stream(): seq<nat> { popped + queued }

    predicate Key(id: nat) { IsKey(offered, id) }
  }

  predicate IsKey(offered: seq<Frame>, id: nat)
  {
    id < |offered| && offered[id].isKey
  }

  function Init(capacity: nat): Queue
  {
    Queue(capacity, [], [], [], [], [], false, false, 0, {})
  }

  // ---------------------------------------------------------------- steps

  /** How many frames an eviction takes from the head: at least one, then up to
    * the next keyframe or to the end. */
  function EvictCount(q: Queue, k: nat := 1): (r: nat)
    requires k <= |q.queued|
    ensures k <= r <= |q.queued|
    ensures r < |q.queued| ==> q.Key(q.queued[r])
    ensures forall i :: k <= i < r ==> !q.Key(q.queued[i])
    decreases |q.queued| - k
  {
    if k == |q.queued| || q.Key(q.queued[k]) then k else EvictCount(q, k + 1)
  }

  predicate Full(q: Queue)
  {
    |q.queued| == q.capacity && q.capacity > 0
  }

  function Push(q: Queue, f: Frame): Queue
  {
    var id := |q.offered|;
    var q := q.(offered := q.offered + [f]);
    if q.closed then
      q.(refused := q.refused + [id])
    else if q.dropping && !f.isKey then
      q.(dropped := q.dropped + [id])
    else if Full(q) then
      var k := EvictCount(q);
      q.(queued := q.queued[k..] + [id],
         dropped := q.dropped + q.queued[..k],
         dropping := true,
         overflows := q.overflows + 1,
         orphans := if k == |q.queued| && !f.isKey then q.orphans + {id} else q.orphans)
    else
      q.(queued := q.queued + [id], dropping := false)
  }

  function Pop(q: Queue): Queue
  {
    if q.queued == [] then q else
    q.(popped := q.popped + [q.queued[0]], queued := q.queued[1..])
  }

  function Close(q: Queue): Queue { q.(closed := true) }

  datatype Action = DoPush(f: Frame) | DoPop | DoClose

  function Apply(q: Queue, a: Action): Queue
  {
    match a
    case DoPush(f) => Push(q, f)
    case DoPop => Pop(q)
    case DoClose => Close(q)
  }

  /** The state after any interleaving of whole pushes, pops and closes. */
  function Run(capacity: nat, acts: seq<Action>): Queue
  {
    if acts == [] then Init(capacity) else Apply(Run(capacity, acts[..|acts| - 1]), acts[|acts| - 1])
  }

  // --------------------------------------------------------- conservation

  function Ids(n: nat): (r: seq<nat>)
    ensures |r| == n && forall i :: 0 <= i < n ==> r[i] == i
  {
    seq(n, i => i)
  }

  /** Strictly increasing and below `bound`. */
  ghost predicate Increasing(s: seq<nat>, bound: nat)
  {
    && (forall i, j :: 0 <= i < j < |s| ==> s[i] < s[j])
    && (forall i :: 0 <= i < |s| ==> s[i] < bound)
  }

  ghost predicate Partitioned(q: Queue)
  {
    multiset(q.popped) + multiset(q.queued) + multiset(q.dropped) + multiset(q.refused)
    == multiset(Ids(|q.offered|))
  }

  /** Every copy made is in exactly one place, the stream keeps the offered order, and the ring
    * is never over-full. */
  ghost predicate Conserved(q: Queue)
  {
    && Partitioned(q)
    && Increasing(q.Stream(), |q.offered|)
    && |q.queued| <= q.capacity
    && (!q.closed ==> q.refused == [])
  }

  /** How many frames the push of f evicts. */
  function Evicted(q: Queue, f: Frame): (k: nat)
    ensures k <= |q.queued|
  {
    if Full(q) then EvictCount(q) else 0
  }

  predicate Accepts(q: Queue, f: Frame)
  {
    !q.closed && (f.isKey || !q.dropping)
  }

  /** f is accepted, is not key, and its push evicts the whole ring. */
  predicate Orphaned(q: Queue, f: Frame)
  {
    Accepts(q, f) && !f.isKey && Full(q) && Evicted(q, f) == |q.queued|
  }

  lemma {:induction false} EvictCountStable(q: Queue, r: Queue, k: nat)
    requires k <= |q.queued|
    requires q.queued == r.queued && q.offered <= r.offered
    requires forall i :: 0 <= i < |q.queued| ==> q.queued[i] < |q.offered|
    ensures EvictCount(q, k) == EvictCount(r, k)
    decreases |q.queued| - k
  {
  }

  lemma PushShape(q: Queue, f: Frame)
    requires Accepts(q, f) && Increasing(q.Stream(), |q.offered|)
    ensures var k := Evicted(q, f);
            var r := Push(q, f);
            && r.queued == q.queued[k..] + [|q.offered|]
            && r.dropped == q.dropped + q.queued[..k]
            && r.popped == q.popped && r.refused == q.refused && r.closed == q.closed
            && r.dropping == Full(q)
            && r.orphans == q.orphans + (if Orphaned(q, f) then {|q.offered|} else {})
            && r.overflows == q.overflows + (if Full(q) then 1 else 0)
  {
    forall i | 0 <= i < |q.queued| ensures q.queued[i] < |q.offered| {
      assert q.queued[i] == q.Stream()[|q.popped| + i];
    }
    if Full(q) {
      EvictCountStable(q, q.(offered := q.offered + [f]), 1);
    }
  }

  lemma SplicePartitions(w: seq<nat>, d: seq<nat>, k: nat, id: nat)
    requires k <= |w|
    ensures multiset(w[k..] + [id]) + multiset(d + w[..k]) == multiset(w) + multiset(d) + multiset{id}
  {
    assert w == w[..k] + w[k..];
  }

  lemma AddOne(p: multiset<nat>, w: multiset<nat>, d: multiset<nat>, r: multiset<nat>, n: nat,
               w': multiset<nat>, d': multiset<nat>, r': multiset<nat>)
    requires p + w + d + r == multiset(Ids(n))
    requires w' + d' + r' == w + d + r + multiset{n}
    ensures p + w' + d' + r' == multiset(Ids(n + 1))
  {
    assert Ids(n + 1) == Ids(n) + [n];
    calc {
      p + w' + d' + r';
      p + (w' + d' + r');
      p + (w + d + r + multiset{n});
      multiset(Ids(n)) + multiset{n};
    }
  }

  lemma PushPartitions(q: Queue, f: Frame)
    requires Partitioned(q) && Increasing(q.Stream(), |q.offered|)
    ensures Partitioned(Push(q, f))
  {
    var r := Push(q, f);
    if Accepts(q, f) {
      PushShape(q, f);
      SplicePartitions(q.queued, q.dropped, Evicted(q, f), |q.offered|);
    }
    AddOne(multiset(q.popped), multiset(q.queued), multiset(q.dropped), multiset(q.refused), |q.offered|,
           multiset(r.queued), multiset(r.dropped), multiset(r.refused));
  }

  lemma IncreasingSplice(p: seq<nat>, w: seq<nat>, k: nat, n: nat)
    requires Increasing(p + w, n) && k <= |w|
    ensures Increasing(p + (w[k..] + [n]), n + 1)
  {
    var s, t := p + w, p + (w[k..] + [n]);
    forall i | 0 <= i < |t| - 1 ensures t[i] == s[if i < |p| then i else i + k] {
    }
  }

  lemma PushConserves(q: Queue, f: Frame)
    requires q.capacity >= 1 && Conserved(q)
    ensures Conserved(Push(q, f))
  {
    PushPartitions(q, f);
    if Accepts(q, f) {
      PushShape(q, f);
      IncreasingSplice(q.popped, q.queued, Evicted(q, f), |q.offered|);
    }
  }

  lemma PopKeepsStream(q: Queue)
    ensures Pop(q).Stream() == q.Stream()
  {
  }

  lemma PopConserves(q: Queue)
    requires Conserved(q)
    ensures Conserved(Pop(q))
  {
    PopKeepsStream(q);
    if q.queued != [] {
      assert q.queued == [q.queued[0]] + q.queued[1..];
      assert multiset(q.queued) == multiset{q.queued[0]} + multiset(q.queued[1..]);
    }
  }

  lemma CapacityKept(q: Queue, a: Action)
    ensures Apply(q, a).capacity == q.capacity
  {
  }

  lemma StepConserves(q: Queue, a: Action)
    requires q.capacity >= 1 && Conserved(q)
    ensures Conserved(Apply(q, a))
  {
    match a
    case DoPush(f) => PushConserves(q, f);
    case DoPop => PopConserves(q);
    case DoClose =>
  }

  /** Over every run, each copy is popped, queued, dropped or refused: exactly one of these and
    * exactly once; what is popped and queued is in the order offered. */
  lemma {:induction false} RunConserves(capacity: nat, acts: seq<Action>)
    requires capacity >= 1
    ensures Run(capacity, acts).capacity == capacity
    ensures Conserved(Run(capacity, acts))
  {
    if acts != [] {
      RunConserves(capacity, acts[..|acts| - 1]);
      StepConserves(Run(capacity, acts[..|acts| - 1]), acts[|acts| - 1]);
    }
  }

  /** Conservation as counts: what was offered before the close is popped, waiting or dropped. */
  lemma CountsAddUp(q: Queue)
    requires Conserved(q)
    ensures |q.offered| - |q.refused| == |q.popped| + |q.queued| + |q.dropped|
  {
    assert |multiset(Ids(|q.offered|))| == |q.offered|;
    assert |multiset(q.popped) + multiset(q.queued) + multiset(q.dropped) + multiset(q.refused)|
        == |q.popped| + |q.queued| + |q.dropped| + |q.refused|;
  }

  // ------------------------------------------------------------ drain law

  function Pops(acts: seq<Action>): nat
  {
    if acts == [] then 0 else Pops(acts[..|acts| - 1]) + (if acts[|acts| - 1].DoPop? then 1 else 0)
  }

  function ApplyAll(q: Queue, acts: seq<Action>): Queue
    decreases |acts|
  {
    if acts == [] then q else Apply(ApplyAll(q, acts[..|acts| - 1]), acts[|acts| - 1])
  }

  /** After the close, whatever pushes and pops follow in whatever order, the first n pops
    * return the first n frames that were waiting, in order; once those are gone the queue
    * stays empty, and nothing offered after the close ever enters. */
  lemma {:induction false} ClosedDrains(q: Queue, acts: seq<Action>)
    requires q.closed
    ensures var r := ApplyAll(q, acts);
            var n := if Pops(acts) <= |q.queued| then Pops(acts) else |q.queued|;
            && r.closed
            && r.popped == q.popped + q.queued[..n]
            && r.queued == q.queued[n..]
            && r.dropped == q.dropped
    decreases |acts|
  {
    if acts != [] {
      ClosedDrains(q, acts[..|acts| - 1]);
      var p := ApplyAll(q, acts[..|acts| - 1]);
      var m := Pops(acts[..|acts| - 1]);
      if acts[|acts| - 1].DoPop? && m < |q.queued| {
        assert p.queued == q.queued[m..];
        assert q.queued[..m] + [q.queued[m]] == q.queued[..m + 1];
        assert q.queued[m..][1..] == q.queued[m + 1..];
      }
    }
  }

  // ------------------------------------------------------- who gets in

  /** The queue after the first i actions. */
  function After(capacity: nat, acts: seq<Action>, i: nat): Queue
    requires i <= |acts|
  {
    Run(capacity, acts[..i])
  }

  lemma AfterStep(capacity: nat, acts: seq<Action>, i: nat)
    requires i < |acts|
    ensures After(capacity, acts, i + 1) == Apply(After(capacity, acts, i), acts[i])
  {
    assert acts[..i + 1][..i] == acts[..i];
  }

  /** Action i offers a frame, and it is the newest in the ring afterwards. */
  predicate GetsIn(capacity: nat, acts: seq<Action>, i: nat)
    requires i < |acts|
  {
    var q, r := After(capacity, acts, i), After(capacity, acts, i + 1);
    acts[i].DoPush? && r.queued != [] && r.queued[|r.queued| - 1] == |q.offered|
  }

  /** Of the frames offered before action i the one that got in last found the ring full. */
  ghost predicate LastFoundFull(capacity: nat, acts: seq<Action>, i: nat)
    requires i <= |acts|
  {
    exists j: nat :: j < i && GetsIn(capacity, acts, j) && |After(capacity, acts, j).queued| == capacity
                     && forall k: nat :: j < k < i ==> !GetsIn(capacity, acts, k)
  }

  predicate ClosedBefore(acts: seq<Action>, i: nat)
    requires i <= |acts|
  {
    exists j :: 0 <= j < i && acts[j].DoClose?
  }

  lemma PushGetsIn(capacity: nat, acts: seq<Action>, i: nat)
    requires capacity >= 1 && i < |acts| && acts[i].DoPush?
    ensures var q, r := After(capacity, acts, i), After(capacity, acts, i + 1);
            && (GetsIn(capacity, acts, i) <==> Accepts(q, acts[i].f))
            && r.dropping == (if Accepts(q, acts[i].f) then |q.queued| == capacity else q.dropping)
  {
    AfterStep(capacity, acts, i);
    RunConserves(capacity, acts[..i]);
    var q := After(capacity, acts, i);
    if Accepts(q, acts[i].f) {
      PushShape(q, acts[i].f);
    } else if q.queued != [] {
      var k := |q.Stream()| - 1;
      assert q.Stream()[k] == q.queued[|q.queued| - 1];
    }
  }

  lemma {:induction false} ModeFollows(capacity: nat, acts: seq<Action>, i: nat)
    requires capacity >= 1 && i <= |acts|
    ensures After(capacity, acts, i).dropping <==> LastFoundFull(capacity, acts, i)
    ensures After(capacity, acts, i).closed <==> ClosedBefore(acts, i)
    decreases i
  {
    if i > 0 {
      var k := i - 1;
      ModeFollows(capacity, acts, k);
      AfterStep(capacity, acts, k);
      if acts[k].DoPush? {
        PushGetsIn(capacity, acts, k);
      }
      hide Accepts;
      LastFoundFullStep(capacity, acts, k);
    }
  }

  lemma LastFoundFullStep(capacity: nat, acts: seq<Action>, k: nat)
    requires k < |acts|
    ensures LastFoundFull(capacity, acts, k + 1)
       <==> if GetsIn(capacity, acts, k) then |After(capacity, acts, k).queued| == capacity
            else LastFoundFull(capacity, acts, k)
  {
    hide GetsIn, After;
    if !GetsIn(capacity, acts, k) && LastFoundFull(capacity, acts, k) {
      var j: nat :| j < k && GetsIn(capacity, acts, j) && |After(capacity, acts, j).queued| == capacity
                    && forall x: nat :: j < x < k ==> !GetsIn(capacity, acts, x);
      assert forall x: nat :: j < x < k + 1 ==> !GetsIn(capacity, acts, x);
    }
  }

  /** Who gets in, exactly: over every run, a frame offered is in the ring afterwards if and only if the
    * queue is not closed and the frame is a keyframe or the one that got in last found room. */
  lemma GetsInExactly(capacity: nat, acts: seq<Action>, i: nat)
    requires capacity >= 1 && i < |acts| && acts[i].DoPush?
    ensures GetsIn(capacity, acts, i)
       <==> !ClosedBefore(acts, i) && (acts[i].f.isKey || !LastFoundFull(capacity, acts, i))
  {
    ModeFollows(capacity, acts, i);
    PushGetsIn(capacity, acts, i);
  }

  // ----------------------------------------------------------- stream law

  /** How b may follow a in what the writer receives. */
  predicate Follows(offered: seq<Frame>, orphans: set<nat>, a: nat, b: nat)
  {
    || (b == a + 1 && a !in orphans)
    || IsKey(offered, b)
    || b in orphans
  }

  ghost predicate Chain(offered: seq<Frame>, orphans: set<nat>, s: seq<nat>)
  {
    forall i, j :: 0 <= i && j == i + 1 && j < |s| ==> Follows(offered, orphans, s[i], s[j])
  }

  ghost predicate StreamOk(q: Queue)
  {
    && Chain(q.offered, q.orphans, q.Stream())
    && (forall b :: b in q.orphans ==> b < |q.offered| && !q.Key(b))
    && |q.orphans| <= q.overflows
    && (!q.closed && !q.dropping && q.offered != [] ==>
          && |q.Stream()| > 0
          && q.Stream()[|q.Stream()| - 1] == |q.offered| - 1
          && |q.offered| - 1 !in q.orphans)
  }

  /** Offering one more frame, possibly an orphan, breaks no earlier pair. */
  lemma ChainGrows(offered: seq<Frame>, orphans: set<nat>, f: Frame, more: set<nat>, s: seq<nat>)
    requires Chain(offered, orphans, s) && Increasing(s, |offered|)
    requires more <= {|offered|}
    ensures Chain(offered + [f], orphans + more, s)
  {
  }

  /** Cutting the front of the waiting part keeps the chain when the cut ends at a keyframe. */
  lemma ChainCut(offered: seq<Frame>, orphans: set<nat>, p: seq<nat>, w: seq<nat>, k: nat)
    requires Chain(offered, orphans, p + w) && k <= |w|
    requires 0 < k < |w| ==> IsKey(offered, w[k])
    ensures Chain(offered, orphans, p + w[k..])
  {
    var s, t := p + w, p + w[k..];
    forall i, j | 0 <= i && j == i + 1 && j < |t|
      ensures Follows(offered, orphans, t[i], t[j])
    {
      if i == |p| - 1 && k > 0 {
        assert t[j] == w[k];
      } else if i < |p| {
        assert Follows(offered, orphans, s[i], s[j]);
      } else {
        assert Follows(offered, orphans, s[i + k], s[j + k]);
      }
    }
  }

  lemma ChainSnoc(offered: seq<Frame>, orphans: set<nat>, s: seq<nat>, x: nat)
    requires Chain(offered, orphans, s)
    requires s != [] ==> Follows(offered, orphans, s[|s| - 1], x)
    ensures Chain(offered, orphans, s + [x])
  {
  }

  lemma PushKeepsChain(q: Queue, f: Frame)
    requires q.capacity >= 1 && Conserved(q) && StreamOk(q) && Accepts(q, f)
    ensures Chain(q.offered + [f], Push(q, f).orphans, Push(q, f).Stream())
  {
    var id := |q.offered|;
    var k := Evicted(q, f);
    PushShape(q, f);
    var offered, orphans := q.offered + [f], Push(q, f).orphans;
    var s := q.popped + q.queued[k..];
    assert Chain(offered, orphans, q.popped + q.queued) by {
      ChainGrows(q.offered, q.orphans, f, if Orphaned(q, f) then {id} else {}, q.Stream());
    }
    ChainCut(offered, orphans, q.popped, q.queued, k);
    assert s != [] ==> Follows(offered, orphans, s[|s| - 1], id) by {
      if s != [] && !f.isKey && !Orphaned(q, f) {
        assert s[|s| - 1] == q.Stream()[|q.Stream()| - 1];
      }
    }
    ChainSnoc(offered, orphans, s, id);
    assert Push(q, f).Stream() == s + [id];
  }

  lemma AcceptedKeepsStream(q: Queue, f: Frame)
    requires q.capacity >= 1 && Conserved(q) && StreamOk(q) && Accepts(q, f)
    ensures StreamOk(Push(q, f))
  {
    PushKeepsChain(q, f);
    PushShape(q, f);
    assert |q.offered| !in q.orphans;
  }

  lemma RefusedKeepsStream(q: Queue, f: Frame)
    requires Conserved(q) && StreamOk(q) && !Accepts(q, f)
    ensures StreamOk(Push(q, f))
  {
  }

  lemma StepKeepsStream(q: Queue, a: Action)
    requires q.capacity >= 1 && Conserved(q) && StreamOk(q)
    ensures StreamOk(Apply(q, a))
  {
    match a
    case DoPush(f) =>
      if Accepts(q, f) {
        AcceptedKeepsStream(q, f);
      } else {
        RefusedKeepsStream(q, f);
      }
    case DoPop => PopKeepsStream(q);
    case DoClose =>
  }

  /** The stream law, for every run and with no assumption on keyframe spacing: a frame that
    * reaches the writer is a keyframe, or directly follows its predecessor in the offered order,
    * or is an orphan; an orphan is followed by a keyframe or another orphan; and there are no
    * more orphans than overflows. */
  lemma {:induction false} RunStreamLaw(capacity: nat, acts: seq<Action>)
    requires capacity >= 1
    ensures StreamOk(Run(capacity, acts))
  {
    if acts != [] {
      RunStreamLaw(capacity, acts[..|acts| - 1]);
      RunConserves(capacity, acts[..|acts| - 1]);
      StepKeepsStream(Run(capacity, acts[..|acts| - 1]), acts[|acts| - 1]);
    }
  }

  /** A push makes an orphan exactly when it finds the ring full in normal mode, is not key, and
    * no keyframe stands behind the head of the ring. */
  lemma OrphanExactly(q: Queue, f: Frame)
    requires Conserved(q) && StreamOk(q)
    ensures |q.offered| in Push(q, f).orphans
       <==> (!q.closed && !q.dropping && !f.isKey && Full(q)
             && (forall i :: 1 <= i < |q.queued| ==> !q.Key(q.queued[i])))
  {
  }

  // ------------------------------------------------- dense keyframes

  predicate HasKey(offered: seq<Frame>, i: nat, n: nat)
  {
    exists j :: i <= j < i + n && IsKey(offered, j)
  }

  /** Every n consecutive frames offered after the first contain a keyframe. */
  ghost predicate Dense(offered: seq<Frame>, n: nat)
  {
    forall i: nat :: 1 <= i && i + n <= |offered| ==> HasKey(offered, i, n)
  }

  /** An encoder with a keyframe every `gop` frames is dense enough for any capacity from gop up; the
    * shipped values are 60 and 64. */
  lemma RegularGopIsDense(offered: seq<Frame>, gop: nat, capacity: nat)
    requires 1 <= gop <= capacity
    requires forall j :: 0 <= j < |offered| && j % gop == 0 ==> offered[j].isKey
    ensures Dense(offered, capacity)
  {
    forall i: nat | 1 <= i && i + capacity <= |offered| ensures HasKey(offered, i, capacity) {
      var m := (i + gop - 1) / gop;
      DivBounds(i + gop - 1, gop);
      DivAtLeast(i + gop - 1, gop, 0);
      MultipleHasNoRest(m, gop);
      assert IsKey(offered, m * gop);
    }
  }

  lemma DensePrefix(offered: seq<Frame>, f: Frame, n: nat)
    requires Dense(offered + [f], n)
    ensures Dense(offered, n)
  {
    forall i: nat | 1 <= i && i + n <= |offered| ensures HasKey(offered, i, n) {
      assert HasKey(offered + [f], i, n);
      var j :| i <= j < i + n && IsKey(offered + [f], j);
      assert IsKey(offered, j);
    }
  }

  /** In normal mode, when no keyframe waits behind the head, no orphan does either: the frames there
    * would have to end in one, but the last frame offered is none. */
  lemma {:induction false} NoOrphanBehindHead(q: Queue, n: nat)
    requires StreamOk(q) && !q.closed && !q.dropping && q.offered != [] && 1 <= n < |q.queued|
    requires forall i :: 1 <= i < |q.queued| ==> !q.Key(q.queued[i])
    ensures q.queued[n] !in q.orphans
    decreases |q.queued| - n
  {
    var i := |q.popped| + n;
    assert q.Stream()[i] == q.queued[n];
    if n + 1 < |q.queued| {
      NoOrphanBehindHead(q, n + 1);
      assert q.Stream()[i + 1] == q.queued[n + 1];
      assert Follows(q.offered, q.orphans, q.Stream()[i], q.Stream()[i + 1]);
    }
  }

  /** And then they are consecutive. */
  lemma {:induction false} NonKeysAreConsecutive(q: Queue, n: nat)
    requires StreamOk(q) && !q.closed && !q.dropping && q.offered != [] && 1 < n <= |q.queued|
    requires forall i :: 1 <= i < |q.queued| ==> !q.Key(q.queued[i])
    ensures q.queued[n - 1] == q.queued[1] + n - 2
  {
    if n > 2 {
      NonKeysAreConsecutive(q, n - 1);
      NoOrphanBehindHead(q, n - 1);
      var i := |q.popped| + n - 2;
      assert Follows(q.offered, q.orphans, q.Stream()[i], q.Stream()[i + 1]);
    }
  }

  /** An orphan ends a gap: the frames behind the head and the one being pushed, none of them key, are
    * as many consecutive offered frames without a key. */
  lemma OrphanNeedsGap(q: Queue, f: Frame)
    requires Conserved(q) && StreamOk(q) && Orphaned(q, f)
    ensures 1 <= |q.queued| <= |q.offered|
    ensures !HasKey(q.offered + [f], |q.offered| + 1 - |q.queued|, |q.queued|)
  {
    var n, last := |q.queued|, |q.offered|;
    var offered := q.offered + [f];
    OrphanExactly(q, f);
    assert q.queued[n - 1] == q.Stream()[|q.Stream()| - 1] == last - 1;
    if n > 1 {
      NonKeysAreConsecutive(q, n);
      assert q.Stream()[|q.popped|] < q.Stream()[|q.popped| + 1];
    }
    var i := last + 1 - n;
    forall j | i <= j < i + n ensures !IsKey(offered, j) {
      if j < last {
        NonKeysAreConsecutive(q, j - i + 2);
        assert !q.Key(q.queued[j - i + 1]);
      }
    }
  }

  lemma DenseStepMakesNoOrphan(q: Queue, a: Action)
    requires q.capacity >= 1 && Conserved(q) && StreamOk(q) && q.orphans == {}
    requires Dense(Apply(q, a).offered, q.capacity)
    ensures Apply(q, a).orphans == {}
  {
    if a.DoPush? && Accepts(q, a.f) {
      PushShape(q, a.f);
      if Orphaned(q, a.f) {
        OrphanNeedsGap(q, a.f);
      }
    }
  }

  /** When every `capacity` consecutive offered frames contain a keyframe, no run makes an orphan. */
  lemma {:induction false} DenseRunHasNoOrphan(capacity: nat, acts: seq<Action>)
    requires capacity >= 1
    requires Dense(Run(capacity, acts).offered, capacity)
    ensures Run(capacity, acts).orphans == {}
  {
    if acts != [] {
      var before := acts[..|acts| - 1];
      var q := Run(capacity, before);
      var a := acts[|acts| - 1];
      assert Dense(q.offered, capacity) by {
        if a.DoPush? {
          DensePrefix(q.offered, a.f, capacity);
        }
      }
      DenseRunHasNoOrphan(capacity, before);
      RunConserves(capacity, before);
      RunStreamLaw(capacity, before);
      DenseStepMakesNoOrphan(q, a);
    }
  }

  // --------------------------------------------- and that much is needed

  lemma {:induction false} RunSnoc(capacity: nat, acts: seq<Action>, a: Action)
    ensures Run(capacity, acts + [a]) == Apply(Run(capacity, acts), a)
  {
  }

  /** Each frame pushed and popped at once. */
  function Alternate(fs: seq<Frame>): seq<Action>
  {
    if fs == [] then [] else Alternate(fs[..|fs| - 1]) + [DoPush(fs[|fs| - 1])] + [DoPop]
  }

  function Pushes(fs: seq<Frame>): seq<Action>
  {
    if fs == [] then [] else Pushes(fs[..|fs| - 1]) + [DoPush(fs[|fs| - 1])]
  }

  lemma {:induction false} AlternateRun(capacity: nat, fs: seq<Frame>)
    requires capacity >= 1
    ensures var q := Run(capacity, Alternate(fs));
            && q.offered == fs && q.queued == [] && !q.dropping && !q.closed && q.capacity == capacity
  {
    if fs != [] {
      var init, f := fs[..|fs| - 1], fs[|fs| - 1];
      AlternateRun(capacity, init);
      RunSnoc(capacity, Alternate(init), DoPush(f));
      RunSnoc(capacity, Alternate(init) + [DoPush(f)], DoPop);
      assert fs == init + [f];
    }
  }

  /** r is q after pushes of fs for which the ring had room. */
  ghost predicate Filled(q: Queue, r: Queue, fs: seq<Frame>)
  {
    && r.offered == q.offered + fs && !r.dropping && !r.closed && r.capacity == q.capacity
    && r.popped == q.popped && |r.queued| == |q.queued| + |fs| && q.queued <= r.queued
    && forall k :: |q.queued| <= k < |r.queued| ==> r.queued[k] == |q.offered| + k - |q.queued|
  }

  lemma PushFills(q: Queue, r: Queue, fs: seq<Frame>, f: Frame)
    requires Filled(q, r, fs) && |r.queued| < r.capacity
    ensures Filled(q, Push(r, f), fs + [f])
  {
  }

  lemma PushesSnoc(capacity: nat, acts: seq<Action>, fs: seq<Frame>)
    ensures fs == [] ==> Run(capacity, acts + Pushes(fs)) == Run(capacity, acts)
    ensures fs != [] ==>
              Run(capacity, acts + Pushes(fs)) == Push(Run(capacity, acts + Pushes(fs[..|fs| - 1])), fs[|fs| - 1])
  {
    if fs == [] {
      assert acts + Pushes(fs) == acts;
    } else {
      var init, f := fs[..|fs| - 1], fs[|fs| - 1];
      assert acts + Pushes(fs) == (acts + Pushes(init)) + [DoPush(f)];
      RunSnoc(capacity, acts + Pushes(init), DoPush(f));
    }
  }

  lemma {:induction false} PushesFill(capacity: nat, acts: seq<Action>, fs: seq<Frame>)
    requires var q := Run(capacity, acts);
             !q.dropping && !q.closed && |q.queued| + |fs| <= q.capacity
    ensures Filled(Run(capacity, acts), Run(capacity, acts + Pushes(fs)), fs)
  {
    hide Run, Push, Pushes;
    PushesSnoc(capacity, acts, fs);
    if fs != [] {
      var init, f := fs[..|fs| - 1], fs[|fs| - 1];
      PushesFill(capacity, acts, init);
      PushFills(Run(capacity, acts), Run(capacity, acts + Pushes(init)), init, f);
      assert fs == init + [f];
    }
  }

  lemma PushOffers(q: Queue, f: Frame)
    ensures Push(q, f).offered == q.offered + [f] && q.orphans <= Push(q, f).orphans && Push(q, f).popped == q.popped
  {
  }

  lemma {:induction false} PushesOffer(capacity: nat, acts: seq<Action>, fs: seq<Frame>)
    ensures var q, r := Run(capacity, acts), Run(capacity, acts + Pushes(fs));
            r.offered == q.offered + fs && q.orphans <= r.orphans && r.popped == q.popped
  {
    hide Run, Push, Pushes;
    PushesSnoc(capacity, acts, fs);
    if fs != [] {
      var init, f := fs[..|fs| - 1], fs[|fs| - 1];
      PushesOffer(capacity, acts, init);
      PushOffers(Run(capacity, acts + Pushes(init)), f);
      assert fs == init + [f];
    }
  }

  /** A ring full of the frames just before the end of a gap: pushing the gap's last frame. */
  lemma GapOverflows(q: Queue, fs: seq<Frame>, i: nat, f: Frame)
    requires q.capacity >= 1 && Conserved(q) && StreamOk(q) && !q.closed && !q.dropping
    requires 1 <= i && i + q.capacity <= |fs| && !HasKey(fs, i, q.capacity)
    requires q.offered == fs[..i - 1 + q.capacity] && f == fs[i - 1 + q.capacity]
    requires |q.queued| == q.capacity && forall k :: 0 <= k < |q.queued| ==> q.queued[k] == i - 1 + k
    ensures |q.offered| in Push(q, f).orphans
  {
    assert !IsKey(fs, i - 1 + q.capacity);
    forall k | 1 <= k < |q.queued| ensures !q.Key(q.queued[k]) {
      assert !IsKey(fs, i - 1 + k);
    }
    OrphanExactly(q, f);
  }

  /** Pops up to the frame before the gap, then fills the ring. */
  lemma FillToGap(capacity: nat, fs: seq<Frame>, i: nat) returns (acts: seq<Action>)
    requires capacity >= 1 && 1 <= i && i + capacity <= |fs|
    ensures var q := Run(capacity, acts);
            && q.capacity == capacity && !q.closed && !q.dropping
            && q.offered == fs[..i - 1 + capacity]
            && |q.queued| == capacity && forall k :: 0 <= k < |q.queued| ==> q.queued[k] == i - 1 + k
  {
    var a0, full := Alternate(fs[..i - 1]), fs[i - 1..i - 1 + capacity];
    AlternateRun(capacity, fs[..i - 1]);
    PushesFill(capacity, a0, full);
    assert fs[..i - 1] + full == fs[..i - 1 + capacity];
    acts := a0 + Pushes(full);
  }

  /** The interleaving that loses: the ring filled to the gap, then only pushes. */
  lemma GapMakesOrphan(capacity: nat, fs: seq<Frame>, i: nat) returns (acts: seq<Action>)
    requires capacity >= 1 && 1 <= i && i + capacity <= |fs| && !HasKey(fs, i, capacity)
    ensures Run(capacity, acts).offered == fs && Run(capacity, acts).orphans != {}
  {
    hide Push, Conserved, StreamOk, HasKey;
    var a1 := FillToGap(capacity, fs, i);
    var f, rest := fs[i - 1 + capacity], fs[i + capacity..];
    RunConserves(capacity, a1);
    RunStreamLaw(capacity, a1);
    GapOverflows(Run(capacity, a1), fs, i, f);
    var a2 := a1 + [DoPush(f)];
    assert Run(capacity, a2).offered == fs[..i + capacity] && Run(capacity, a2).orphans != {} by {
      RunSnoc(capacity, a1, DoPush(f));
      PushOffers(Run(capacity, a1), f);
    }
    acts := a2 + Pushes(rest);
    PushesOffer(capacity, a2, rest);
    assert fs[..i + capacity] + rest == fs;
  }

  /** Exactly: no interleaving of pushes, pops and closes that offers fs makes an orphan, if and only
    * if every `capacity` consecutive frames after the first contain a keyframe. */
  lemma {:induction false} OrphanFreeExactly(capacity: nat, fs: seq<Frame>)
    requires capacity >= 1
    ensures (forall acts :: Run(capacity, acts).offered == fs ==> Run(capacity, acts).orphans == {})
       <==> Dense(fs, capacity)
  {
    if Dense(fs, capacity) {
      forall acts | Run(capacity, acts).offered == fs ensures Run(capacity, acts).orphans == {} {
        DenseRunHasNoOrphan(capacity, acts);
      }
    } else {
      var i: nat :| 1 <= i && i + capacity <= |fs| && !HasKey(fs, i, capacity);
      var acts := GapMakesOrphan(capacity, fs, i);
    }
  }

  // ---------------------------------------------- what follows an orphan

  /** Whatever directly follows an orphan in the stream is a keyframe. */
  ghost predicate KeyAfterOrphan(q: Queue)
  {
    KeyAfter(q.offered, q.orphans, q.Stream())
  }

  ghost predicate KeyAfter(offered: seq<Frame>, orphans: set<nat>, s: seq<nat>)
  {
    forall i, j :: 0 <= i && j == i + 1 && j < |s| && s[i] in orphans ==> IsKey(offered, s[j])
  }

  /** Keyframe k stands between two gaps of at least n frames each. */
  predicate GapsAround(offered: seq<Frame>, k: nat, n: nat)
  {
    n < k && k + n < |offered| && IsKey(offered, k) && !HasKey(offered, k - n, n) && !HasKey(offered, k + 1, n)
  }

  ghost predicate NoKeys(offered: seq<Frame>, i: nat, j: nat)
  {
    forall x :: i <= x < j ==> !IsKey(offered, x)
  }

  /** w starts with the first keyframe offered after a and holds everything offered since. */
  ghost predicate KeyRun(q: Queue, a: nat, w: seq<nat>)
  {
    && w != [] && a < w[0] && q.Key(w[0]) && NoKeys(q.offered, a + 1, w[0])
    && w[0] + |w| == |q.offered| && forall i :: 0 <= i < |w| ==> w[i] == w[0] + i
  }

  /** What w behind orphan a looks like before the next eviction. */
  ghost predicate Fresh(q: Queue, a: nat, w: seq<nat>)
  {
    if q.dropping then w == [] && NoKeys(q.offered, a + 1, |q.offered|) else KeyRun(q, a, w)
  }

  /** And after it: in normal mode a keyframe waits behind the head, which the next eviction meets. */
  ghost predicate Behind(q: Queue, a: nat, w: seq<nat>)
  {
    || Fresh(q, a, w)
    || (w != [] && (q.dropping || exists i :: 1 <= i < |w| && q.Key(w[i])))
  }

  ghost predicate Settled(q: Queue)
  {
    && (forall i :: 1 <= i < |q.queued| ==> q.queued[i] !in q.orphans)
    && (q.queued != [] && q.queued[0] in q.orphans ==> Fresh(q, q.queued[0], q.queued[1..]))
    && (q.popped != [] && q.popped[|q.popped| - 1] in q.orphans ==> Behind(q, q.popped[|q.popped| - 1], q.queued))
  }

  /** Every orphan ends a gap. */
  ghost predicate GapsBehind(q: Queue)
  {
    forall a :: a in q.orphans ==> q.capacity <= a < |q.offered| && NoKeys(q.offered, a + 1 - q.capacity, a + 1)
  }

  lemma KeysStay(offered: seq<Frame>, f: Frame)
    ensures forall x: nat :: x < |offered| ==> IsKey(offered + [f], x) == IsKey(offered, x)
  {
  }

  lemma PopSettles(q: Queue)
    requires Settled(q)
    ensures Settled(Pop(q))
  {
  }

  lemma DropSettles(q: Queue, f: Frame)
    requires Conserved(q) && StreamOk(q) && Settled(q) && !q.closed && !Accepts(q, f)
    ensures Settled(Push(q, f))
  {
    KeysStay(q.offered, f);
    forall i | 0 <= i < |q.queued| ensures q.queued[i] < |q.offered| {
      assert q.Stream()[|q.popped| + i] == q.queued[i];
    }
    if q.popped != [] {
      assert q.Stream()[|q.popped| - 1] == q.popped[|q.popped| - 1];
    }
  }

  lemma FreshGrows(q: Queue, f: Frame, a: nat, w: seq<nat>)
    requires Accepts(q, f) && !Full(q) && a < |q.offered| && Fresh(q, a, w)
    ensures Fresh(Push(q, f), a, w + [|q.offered|])
  {
    KeysStay(q.offered, f);
  }

  lemma BehindGrows(q: Queue, f: Frame, a: nat)
    requires Accepts(q, f) && !Full(q) && a < |q.offered| && Behind(q, a, q.queued)
    ensures Behind(Push(q, f), a, q.queued + [|q.offered|])
  {
    var w, r := q.queued + [|q.offered|], Push(q, f);
    if Fresh(q, a, q.queued) {
      FreshGrows(q, f, a, q.queued);
    } else if q.dropping {
      assert r.Key(w[|q.queued|]);
    } else {
      var i :| 1 <= i < |q.queued| && q.Key(q.queued[i]);
      assert r.Key(w[i]);
    }
  }

  lemma RoomSettles(q: Queue, f: Frame)
    requires q.capacity >= 1 && Conserved(q) && StreamOk(q) && Settled(q) && Accepts(q, f) && !Full(q)
    ensures Settled(Push(q, f))
  {
    var r := Push(q, f);
    assert r.queued == q.queued + [|q.offered|] && r.orphans == q.orphans && r.popped == q.popped;
    assert |q.offered| !in q.orphans;
    if r.queued[0] in r.orphans {
      assert q.queued != [] && r.queued[1..] == q.queued[1..] + [|q.offered|];
      FreshGrows(q, f, q.queued[0], q.queued[1..]);
    }
    if q.popped != [] && q.popped[|q.popped| - 1] in q.orphans {
      BehindGrows(q, f, q.popped[|q.popped| - 1]);
    }
  }

  lemma FullSettles(q: Queue, f: Frame)
    requires Conserved(q) && StreamOk(q) && Settled(q) && Accepts(q, f) && Full(q)
    ensures Settled(Push(q, f))
  {
    PushShape(q, f);
  }

  lemma PushSettles(q: Queue, f: Frame)
    requires q.capacity >= 1 && Conserved(q) && StreamOk(q) && Settled(q) && !q.closed
    ensures Settled(Push(q, f))
  {
    if !Accepts(q, f) {
      DropSettles(q, f);
    } else if Full(q) {
      FullSettles(q, f);
    } else {
      RoomSettles(q, f);
    }
  }

  lemma OrphansAfterPush(q: Queue, f: Frame)
    requires Increasing(q.Stream(), |q.offered|)
    ensures Push(q, f).orphans == q.orphans + (if Orphaned(q, f) then {|q.offered|} else {})
    ensures Push(q, f).capacity == q.capacity
  {
    if Accepts(q, f) {
      PushShape(q, f);
    }
  }

  lemma PushKeepsGapsBehind(q: Queue, f: Frame)
    requires q.capacity >= 1 && Conserved(q) && StreamOk(q) && GapsBehind(q)
    ensures GapsBehind(Push(q, f))
  {
    var r := Push(q, f);
    PushOffers(q, f);
    KeysStay(q.offered, f);
    OrphansAfterPush(q, f);
    hide Push, Evicted, StreamOk, Conserved;
    forall a | a in r.orphans
      ensures r.capacity <= a < |r.offered| && NoKeys(r.offered, a + 1 - r.capacity, a + 1)
    {
      if a !in q.orphans {
        OrphanNeedsGap(q, f);
        GapAsKeys(r.offered, a + 1 - |q.queued|, |q.queued|);
      }
    }
  }

  lemma GapAsKeys(offered: seq<Frame>, i: nat, n: nat)
    ensures !HasKey(offered, i, n) <==> NoKeys(offered, i, i + n)
  {
  }

  /** An orphan right behind another: the two gaps. */
  lemma NeighboursNeedGaps(q: Queue, f: Frame)
    requires q.capacity >= 1 && Conserved(q) && StreamOk(q) && Settled(q) && GapsBehind(q) && Orphaned(q, f)
    requires q.popped != [] && q.popped[|q.popped| - 1] in q.orphans
    ensures exists k: nat :: GapsAround(q.offered + [f], k, q.capacity)
  {
    var a, k, n := q.popped[|q.popped| - 1], q.queued[0], q.capacity;
    var offered := q.offered + [f];
    OrphanExactly(q, f);
    assert KeyRun(q, a, q.queued);
    forall x | k - n <= x < k ensures !IsKey(offered, x) {
      assert !IsKey(q.offered, x);
    }
    forall x | k + 1 <= x < k + 1 + n ensures !IsKey(offered, x) {
      if x < k + n {
        assert x == q.queued[x - k];
      }
    }
    assert GapsAround(offered, k, n);
  }

  lemma KeyAfterGrows(offered: seq<Frame>, orphans: set<nat>, f: Frame, more: set<nat>, s: seq<nat>)
    requires KeyAfter(offered, orphans, s) && Increasing(s, |offered|) && more <= {|offered|}
    ensures KeyAfter(offered + [f], orphans + more, s)
  {
    KeysStay(offered, f);
  }

  lemma KeyAfterCut(offered: seq<Frame>, orphans: set<nat>, p: seq<nat>, w: seq<nat>, k: nat)
    requires KeyAfter(offered, orphans, p + w) && k <= |w|
    requires 0 < k < |w| ==> IsKey(offered, w[k])
    ensures KeyAfter(offered, orphans, p + w[k..])
  {
    var s, t := p + w, p + w[k..];
    forall i, j | 0 <= i && j == i + 1 && j < |t| && t[i] in orphans ensures IsKey(offered, t[j]) {
      if i == |p| - 1 && k > 0 {
        assert t[j] == w[k];
      } else if i < |p| {
        assert s[i] == t[i] && s[j] == t[j];
      } else {
        assert s[i + k] == t[i] && s[j + k] == t[j];
      }
    }
  }

  lemma KeyAfterSnoc(offered: seq<Frame>, orphans: set<nat>, s: seq<nat>, x: nat)
    requires KeyAfter(offered, orphans, s)
    requires s != [] && s[|s| - 1] in orphans ==> IsKey(offered, x)
    ensures KeyAfter(offered, orphans, s + [x])
  {
  }

  lemma PushKeepsKeyAfter(q: Queue, f: Frame)
    requires q.capacity >= 1 && Conserved(q) && StreamOk(q) && KeyAfterOrphan(q) && Accepts(q, f)
    requires Orphaned(q, f) && q.popped != [] ==> q.popped[|q.popped| - 1] !in q.orphans
    ensures KeyAfterOrphan(Push(q, f))
  {
    var id, k := |q.offered|, Evicted(q, f);
    PushShape(q, f);
    var offered, orphans := q.offered + [f], Push(q, f).orphans;
    var s := q.popped + q.queued[k..];
    KeyAfterGrows(q.offered, q.orphans, f, if Orphaned(q, f) then {id} else {}, q.Stream());
    KeyAfterCut(offered, orphans, q.popped, q.queued, k);
    assert s != [] && s[|s| - 1] in orphans ==> IsKey(offered, id) by {
      if s != [] && !f.isKey {
        if k == |q.queued| && k > 0 {
          assert s[|s| - 1] == q.popped[|q.popped| - 1] == q.Stream()[|q.popped| - 1];
        } else {
          assert s[|s| - 1] == q.Stream()[|q.Stream()| - 1];
        }
      }
    }
    KeyAfterSnoc(offered, orphans, s, id);
    assert Push(q, f).Stream() == s + [id];
  }

  /** The invariant behind the exact law. */
  ghost predicate OrphanLaw(q: Queue)
  {
    KeyAfterOrphan(q) && GapsBehind(q) && (!q.closed ==> Settled(q))
  }

  lemma PushKeepsOrphanLaw(q: Queue, f: Frame)
    requires q.capacity >= 1 && Conserved(q) && StreamOk(q) && OrphanLaw(q)
    requires forall k: nat :: !GapsAround(q.offered + [f], k, q.capacity)
    ensures OrphanLaw(Push(q, f))
  {
    PushKeepsGapsBehind(q, f);
    if !q.closed {
      PushSettles(q, f);
    }
    if Accepts(q, f) {
      if Orphaned(q, f) && q.popped != [] && q.popped[|q.popped| - 1] in q.orphans {
        NeighboursNeedGaps(q, f);
      }
      PushKeepsKeyAfter(q, f);
    } else {
      assert Push(q, f).Stream() == q.Stream() && Push(q, f).orphans == q.orphans;
    }
  }

  lemma FewerFramesFewerGaps(offered: seq<Frame>, f: Frame, k: nat, n: nat)
    requires GapsAround(offered, k, n)
    ensures GapsAround(offered + [f], k, n)
  {
    KeysStay(offered, f);
  }

  lemma {:induction false} StepKeepsOrphanLaw(q: Queue, a: Action)
    requires q.capacity >= 1 && Conserved(q) && StreamOk(q) && OrphanLaw(q)
    requires forall k: nat :: !GapsAround(Apply(q, a).offered, k, q.capacity)
    ensures OrphanLaw(Apply(q, a))
  {
    hide Conserved, StreamOk, Settled, GapsAround, Push;
    match a
    case DoPush(f) =>
      PushOffers(q, f);
      forall k: nat ensures !GapsAround(q.offered + [f], k, q.capacity) {
        assert !GapsAround(Apply(q, a).offered, k, q.capacity);
      }
      PushKeepsOrphanLaw(q, f);
    case DoPop =>
      PopKeepsStream(q);
      if !q.closed {
        PopSettles(q);
      }
    case DoClose =>
  }

  lemma StepKeepsGaps(q: Queue, a: Action, k: nat, n: nat)
    requires GapsAround(q.offered, k, n)
    ensures GapsAround(Apply(q, a).offered, k, n)
  {
    if a.DoPush? {
      PushOffers(q, a.f);
      FewerFramesFewerGaps(q.offered, a.f, k, n);
    }
  }

  lemma {:induction false} RunKeepsOrphanLaw(capacity: nat, acts: seq<Action>)
    requires capacity >= 1
    requires forall k: nat :: !GapsAround(Run(capacity, acts).offered, k, capacity)
    ensures OrphanLaw(Run(capacity, acts))
  {
    if acts != [] {
      var before, a := acts[..|acts| - 1], acts[|acts| - 1];
      var q := Run(capacity, before);
      assert Run(capacity, acts) == Apply(q, a);
      hide *;
      forall k: nat ensures !GapsAround(q.offered, k, capacity) {
        if GapsAround(q.offered, k, capacity) {
          StepKeepsGaps(q, a, k, capacity);
        }
      }
      RunKeepsOrphanLaw(capacity, before);
      RunConserves(capacity, before);
      RunStreamLaw(capacity, before);
      StepKeepsOrphanLaw(q, a);
    }
  }

  /** The interleaving up to the first orphan: the ring filled to the gap before keyframe k, the gap's
    * last frame pushed into it, and that orphan popped. */
  lemma FirstOrphan(capacity: nat, fs: seq<Frame>, k: nat) returns (acts: seq<Action>)
    requires capacity >= 1 && GapsAround(fs, k, capacity)
    ensures var q := Run(capacity, acts);
            && q.capacity == capacity && !q.closed && q.dropping && q.offered == fs[..k] && q.queued == []
            && q.popped != [] && q.popped[|q.popped| - 1] == k - 1 && k - 1 in q.orphans
  {
    hide Push, Conserved, StreamOk, HasKey;
    var a1 := FillToGap(capacity, fs, k - capacity);
    RunConserves(capacity, a1);
    RunStreamLaw(capacity, a1);
    var q1, f := Run(capacity, a1), fs[k - 1];
    GapOverflows(q1, fs, k - capacity, f);
    OrphanAlone(q1, f);
    var a2 := a1 + [DoPush(f)];
    RunSnoc(capacity, a1, DoPush(f));
    RunSnoc(capacity, a2, DoPop);
    acts := a2 + [DoPop];
    assert fs[..k] == fs[..k - 1] + [f];
  }

  lemma OrphanAlone(q: Queue, f: Frame)
    requires Conserved(q) && StreamOk(q) && |q.offered| in Push(q, f).orphans
    ensures var r := Push(q, f);
            && r.queued == [|q.offered|] && r.dropping && !r.closed && r.capacity == q.capacity
            && r.popped == q.popped && r.offered == q.offered + [f]
  {
    OrphanExactly(q, f);
  }

  /** And on to the second: the keyframe and the frames behind it fill the ring, the next one evicts
    * them all, and is popped right behind the first. */
  lemma SecondOrphan(capacity: nat, a1: seq<Action>, fs: seq<Frame>, k: nat) returns (acts: seq<Action>)
    requires capacity >= 1 && GapsAround(fs, k, capacity)
    requires var q := Run(capacity, a1);
             && q.capacity == capacity && !q.closed && q.dropping && q.offered == fs[..k] && q.queued == []
             && q.popped != [] && q.popped[|q.popped| - 1] == k - 1 && k - 1 in q.orphans
    ensures var q, r := Run(capacity, a1), Run(capacity, acts);
            && r.offered == fs[..k + capacity + 1] && q.orphans <= r.orphans && k + capacity in r.orphans
            && r.popped == q.popped + [k + capacity]
  {
    hide Push, Conserved, StreamOk;
    var key, more, f := fs[k], fs[k + 1..k + capacity], fs[k + capacity];
    var q1 := Run(capacity, a1);
    var a2 := a1 + [DoPush(key)];
    RunSnoc(capacity, a1, DoPush(key));
    KeyReopens(q1, key);
    assert fs[..k] + [key] == fs[..k + 1];
    var a3 := a2 + Pushes(more);
    PushesFill(capacity, a2, more);
    PushesOffer(capacity, a2, more);
    assert fs[..k + 1] + more == fs[..k + capacity];
    RunConserves(capacity, a3);
    RunStreamLaw(capacity, a3);
    var q3 := Run(capacity, a3);
    assert |q3.offered| == k + capacity && |q3.queued| == capacity;
    forall x | 1 <= x < |q3.queued| ensures !q3.Key(q3.queued[x]) {
      assert q3.queued[x] == k + x;
      assert !IsKey(fs, k + x);
    }
    assert !IsKey(fs, k + capacity);
    OrphanExactly(q3, f);
    OrphanAlone(q3, f);
    PushOffers(q3, f);
    var a4 := a3 + [DoPush(f)];
    RunSnoc(capacity, a3, DoPush(f));
    RunSnoc(capacity, a4, DoPop);
    acts := a4 + [DoPop];
    assert fs[..k + capacity] + [f] == fs[..k + capacity + 1];
  }

  /** A keyframe ends the dropping mode of an empty ring. */
  lemma KeyReopens(q: Queue, f: Frame)
    requires f.isKey && !q.closed && q.queued == [] && q.capacity >= 1
    ensures var r := Push(q, f);
            && r.offered == q.offered + [f] && r.queued == [|q.offered|] && r.popped == q.popped
            && !r.closed && !r.dropping && r.capacity == q.capacity && r.orphans == q.orphans
  {
  }

  /** The interleaving in which an orphan follows an orphan. */
  lemma GapsMakeNeighbours(capacity: nat, fs: seq<Frame>, k: nat) returns (acts: seq<Action>)
    requires capacity >= 1 && GapsAround(fs, k, capacity)
    ensures Run(capacity, acts).offered == fs && !KeyAfterOrphan(Run(capacity, acts))
  {
    hide Push, HasKey;
    var a1 := FirstOrphan(capacity, fs, k);
    var a2 := SecondOrphan(capacity, a1, fs, k);
    var rest := fs[k + capacity + 1..];
    PushesOffer(capacity, a2, rest);
    acts := a2 + Pushes(rest);
    assert fs[..k + capacity + 1] + rest == fs;
    RunStreamLaw(capacity, acts);
    var q := Run(capacity, acts);
    var i := |q.popped| - 2;
    assert q.Stream()[i] == k - 1 && q.Stream()[i + 1] == k + capacity;
    assert !q.Key(k + capacity);
  }

  /** Exactly: in every interleaving of pushes, pops and closes that offers fs, what follows an orphan
    * is a keyframe, if and only if no keyframe of fs stands between two gaps that are both at least as
    * long as the queue.  (An orphan follows an orphan when the keyframe between them, though
    * accepted, is evicted by the second.) */
  lemma {:induction false} KeyAfterOrphanExactly(capacity: nat, fs: seq<Frame>)
    requires capacity >= 1
    ensures (forall acts :: Run(capacity, acts).offered == fs ==> KeyAfterOrphan(Run(capacity, acts)))
       <==> (forall k: nat :: !GapsAround(fs, k, capacity))
  {
    if k: nat :| GapsAround(fs, k, capacity) {
      var acts := GapsMakeNeighbours(capacity, fs, k);
    } else {
      forall acts | Run(capacity, acts).offered == fs ensures KeyAfterOrphan(Run(capacity, acts)) {
        RunKeepsOrphanLaw(capacity, acts);
      }
    }
  }
}
