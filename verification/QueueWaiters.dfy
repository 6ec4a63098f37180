/** The queue's condition variable with any number of popping threads.
  *
  * A popper that finds an empty open queue parks.  A signal moves one parked popper to `woken`;
  * the close moves all of them; a spurious wakeup may move any.  A woken popper must still
  * reacquire the mutex, and until it does other poppers may barge in before it.  Each step below
  * is one critical section of the source. */
module QueueWaiters {
  import opened Base
  import opened FrameQueue

  type Thread = nat

  datatype Monitor = Monitor(q: Queue, parked: set<Thread>, woken: set<Thread>)

  datatype Step =
    | Produce(f: Frame, signalled: Option<Thread>)  // fq_push; the parked popper the signal picks
    | Enter(t: Thread)                              // a popper outside the wait takes the mutex
    | Resume(t: Thread)                             // a woken popper retakes the mutex
    | Spurious(t: Thread)
    | Shut

  /** The signal is sent only by a push that enqueues, and it picks a parked popper if there is one. */
  predicate Enabled(m: Monitor, s: Step)
  {
    match s
    case Produce(f, signalled) =>
      if Accepts(m.q, f) && m.parked != {}
      then signalled.Some? && signalled.value in m.parked
      else signalled.None?
    case Enter(t) => t !in m.parked && t !in m.woken
    case Resume(t) => t in m.woken
    case Spurious(t) => t in m.parked
    case Shut => true
  }

  /** The loop test of fq_pop and what follows it, for popper t holding the mutex. */
  function TestAndPop(m: Monitor, t: Thread): Monitor
  {
    if m.q.queued == [] && !m.q.closed then
      m.(parked := m.parked + {t})
    else
      m.(q := Pop(m.q))
  }

  function Wake(m: Monitor, t: Thread): Monitor
  {
    m.(parked := m.parked - {t}, woken := m.woken + {t})
  }

  function Act(m: Monitor, s: Step): Monitor
  {
    match s
    case Produce(f, signalled) =>
      var m := m.(q := Push(m.q, f));
      if signalled.Some? then Wake(m, signalled.value) else m
    case Enter(t) => TestAndPop(m, t)
    case Resume(t) => TestAndPop(m.(woken := m.woken - {t}), t)
    case Spurious(t) => Wake(m, t)
    case Shut => Monitor(Close(m.q), {}, m.woken + m.parked)
  }

  ghost predicate IsRun(ms: seq<Monitor>, steps: seq<Step>, capacity: nat)
  {
    && |ms| == |steps| + 1
    && ms[0] == Monitor(Init(capacity), {}, {})
    && forall i :: 0 <= i < |steps| ==> Enabled(ms[i], steps[i]) && ms[i + 1] == Act(ms[i], steps[i])
  }

  /** While some popper sleeps unsignalled, the queue is open and holds no more frames than there
    * are woken poppers on their way to it. */
  ghost predicate NoLostWakeup(m: Monitor)
  {
    && m.parked !! m.woken
    && (m.parked != {} ==> !m.q.closed && |m.q.queued| <= |m.woken|)
  }

  lemma StepKeepsWakeups(m: Monitor, s: Step)
    requires m.q.capacity >= 1 && Conserved(m.q) && NoLostWakeup(m) && Enabled(m, s)
    ensures NoLostWakeup(Act(m, s))
  {
  }

  lemma StepConservesMonitor(m: Monitor, s: Step)
    requires m.q.capacity >= 1 && Conserved(m.q)
    ensures Conserved(Act(m, s).q) && Act(m, s).q.capacity == m.q.capacity
  {
    hide Conserved, Push, Pop;
    match s
    case Produce(f, _) =>
      StepConserves(m.q, DoPush(f));
      CapacityKept(m.q, DoPush(f));
    case Enter(_) =>
      StepConserves(m.q, DoPop);
      CapacityKept(m.q, DoPop);
    case Resume(_) =>
      StepConserves(m.q, DoPop);
      CapacityKept(m.q, DoPop);
    case Spurious(_) =>
    case Shut =>
      StepConserves(m.q, DoClose);
      CapacityKept(m.q, DoClose);
  }

  /** No lost wakeup, in every state of every run: whatever the interleaving of pushes, barging
    * pops, spurious wakeups and closes. */
  lemma {:induction false} RunKeepsWakeups(ms: seq<Monitor>, steps: seq<Step>, capacity: nat)
    requires capacity >= 1 && IsRun(ms, steps, capacity)
    ensures forall i :: 0 <= i < |ms| ==>
              NoLostWakeup(ms[i]) && Conserved(ms[i].q) && ms[i].q.capacity == capacity
    decreases |steps|
  {
    if steps != [] {
      var n := |steps| - 1;
      RunKeepsWakeups(ms[..n + 1], steps[..n], capacity);
      assert ms[..n + 1][n] == ms[n];
      assert Enabled(ms[n], steps[n]) && ms[n + 1] == Act(ms[n], steps[n]);
      StepKeepsWakeups(ms[n], steps[n]);
      StepConservesMonitor(ms[n], steps[n]);
      forall i | 0 <= i < |ms|
        ensures NoLostWakeup(ms[i]) && Conserved(ms[i].q) && ms[i].q.capacity == capacity
      {
        if i <= n {
          assert ms[i] == ms[..n + 1][i];
        }
      }
    } else {
      assert multiset(Ids(0)) == multiset{};
    }
  }

  /** The woken poppers of m, in the order `ts`, each get the mutex once with nothing in between. */
  function ResumeAll(m: Monitor, ts: seq<Thread>): Monitor
    decreases |ts|
  {
    if ts == [] then m else ResumeAll(Act(m, Resume(ts[0])), ts[1..])
  }

  ghost predicate Schedule(woken: set<Thread>, ts: seq<Thread>)
  {
    if ts == [] then woken == {} else ts[0] in woken && Schedule(woken - {ts[0]}, ts[1..])
  }

  /** So no popper sleeps on work: from every state of a run, once the woken poppers have run, in
    * whatever order, a popper is still parked only if the queue is open and empty. */
  lemma {:induction false} ParkedOnlyWhenIdle(m: Monitor, ts: seq<Thread>)
    requires NoLostWakeup(m) && Conserved(m.q) && m.q.capacity >= 1 && Schedule(m.woken, ts)
    ensures var r := ResumeAll(m, ts);
            r.woken == {} && (r.parked != {} ==> r.q.queued == [] && !r.q.closed)
    decreases |ts|
  {
    if ts != [] {
      StepKeepsWakeups(m, Resume(ts[0]));
      StepConservesMonitor(m, Resume(ts[0]));
      ParkedOnlyWhenIdle(Act(m, Resume(ts[0])), ts[1..]);
    }
  }

  // -------------------------------------------------- poppers and frames

  /** What a step does to the queue: a popper that goes to sleep does nothing to it, any other takes one
    * frame if there is one. */
  function ActionsOf(s: Step, after: Monitor): seq<Action>
  {
    match s
    case Produce(f, _) => [DoPush(f)]
    case Enter(t) => if t in after.parked then [] else [DoPop]
    case Resume(t) => if t in after.parked then [] else [DoPop]
    case Spurious(_) => []
    case Shut => [DoClose]
  }

  function History(ms: seq<Monitor>, steps: seq<Step>, i: nat): seq<Action>
    requires i <= |steps| && |ms| == |steps| + 1
  {
    if i == 0 then [] else History(ms, steps, i - 1) + ActionsOf(steps[i - 1], ms[i])
  }

  lemma StepActs(m: Monitor, s: Step, capacity: nat, acts: seq<Action>)
    requires Enabled(m, s) && m.parked !! m.woken && m.q == FrameQueue.Run(capacity, acts)
    ensures Act(m, s).q == FrameQueue.Run(capacity, acts + ActionsOf(s, Act(m, s)))
  {
    hide Push, Pop, Close, Accepts;
    var more := ActionsOf(s, Act(m, s));
    if more == [] {
      assert acts + more == acts;
    } else {
      assert (acts + more)[..|acts|] == acts;
    }
  }

  /** Any number of poppers use the queue as one would: in every run its history is that of a run of whole
    * pushes, pops and closes in the order of the critical sections, each popper that does not go to
    * sleep making one pop. */
  lemma {:induction false} MonitorRunsQueue(ms: seq<Monitor>, steps: seq<Step>, capacity: nat, i: nat)
    requires capacity >= 1 && IsRun(ms, steps, capacity) && i <= |steps|
    ensures ms[i].q == FrameQueue.Run(capacity, History(ms, steps, i))
  {
    if i > 0 {
      MonitorRunsQueue(ms, steps, capacity, i - 1);
      RunKeepsWakeups(ms, steps, capacity);
      assert NoLostWakeup(ms[i - 1]);
      assert Enabled(ms[i - 1], steps[i - 1]) && ms[i] == Act(ms[i - 1], steps[i - 1]);
      hide Act, Enabled, FrameQueue.Run, ActionsOf, IsRun;
      StepActs(ms[i - 1], steps[i - 1], capacity, History(ms, steps, i - 1));
    }
  }

  /** Who waits after a step: a popper's turn ends in sleep exactly when the queue is open and empty, and
    * nobody else starts or stops waiting by it, nor by a push or a spurious wakeup; a push that lets a
    * frame in wakes one sleeper, if there is one, and the close wakes all. */
  ghost predicate WaitersFollow(m: Monitor, s: Step, r: Monitor)
  {
    var idle := m.q.queued == [] && !m.q.closed;
    match s
    case Enter(t) =>
      r.woken == m.woken && r.parked == if idle then m.parked + {t} else m.parked
    case Resume(t) =>
      r.woken == m.woken - {t} && r.parked == if idle then m.parked + {t} else m.parked
    case Spurious(t) =>
      r.parked == m.parked - {t} && r.woken == m.woken + {t}
    case Shut =>
      r.parked == {} && r.woken == m.parked + m.woken
    case Produce(f, signalled) =>
      && r.parked + r.woken == m.parked + m.woken && r.parked <= m.parked
      && |r.parked| == (if Accepts(m.q, f) && m.parked != {} then |m.parked| - 1 else |m.parked|)
  }

  lemma WaitersExactly(m: Monitor, s: Step)
    requires Enabled(m, s)
    ensures WaitersFollow(m, s, Act(m, s))
  {
    hide Push, Pop, Close;
  }
}
