/** The fan-out of preview frames to browser connections.
  *
  * Each client owns a channel of four slots.  A publication offers the frame to every subscribed
  * channel without ever waiting on one; subscribing and unsubscribing exclude it through the lock,
  * clients receive and drain at any time.  Frames are named by their position in the order of
  * publication. */
module Broker {
  import opened Base

  const SLOTS: nat := 4

  type Client = nat

  datatype Phase = Subscribed | Draining | Gone

  /** A channel and what has gone through it.  `since` is the first frame published after the
    * subscription. */
  datatype Channel = Channel(
    phase: Phase,
    since: nat,
    buffer: seq<nat>,
    received: seq<nat>,   // taken by the client
    drained: seq<nat>,    // thrown away by Unsubscribe
    skipped: seq<nat>)    // not sent because the buffer was full
  {
    /** Every frame the channel accepted, in order. */
    function Accepted(): seq<nat> { received + drained + buffer }
  }

  /** `todo` holds the clients the publication under way has still to visit. */
  datatype System = System(
    clients: set<Client>,
    channels: map<Client, Channel>,
    published: nat,
    publishing: bool,
    todo: set<Client>)

  const START: System := System({}, map[], 0, false, {})

  datatype Step =
    | Subscribe(c: Client)
    | Unsubscribe(c: Client)  // the part under the lock
    | Drain(c: Client)        // one turn of the loop after it
    | Publish                 // takes the lock, fixes whom to visit
    | Visit(c: Client)        // the non-blocking send
    | Release                 // the publisher gives the lock back
    | Receive(c: Client)

  predicate Enabled(s: System, t: Step)
  {
    match t
    case Subscribe(c) => !s.publishing && c !in s.channels
    case Unsubscribe(c) => !s.publishing && c in s.channels && s.channels[c].phase == Subscribed
    case Drain(c) => c in s.channels && s.channels[c].phase == Draining
    case Publish => !s.publishing
    case Visit(c) => s.publishing && s.published > 0 && c in s.todo && c in s.channels
    case Release => s.publishing && s.todo == {}
    case Receive(c) => c in s.channels && s.channels[c].phase == Subscribed && s.channels[c].buffer != []
  }

  /** The select with a default: the frame goes in if a slot is free. */
  function Offer(ch: Channel, id: nat): Channel
  {
    if |ch.buffer| < SLOTS then ch.(buffer := ch.buffer + [id]) else ch.(skipped := ch.skipped + [id])
  }

  function DrainOne(ch: Channel): Channel
  {
    if ch.buffer == [] then ch.(phase := Gone)
    else ch.(drained := ch.drained + [ch.buffer[0]], buffer := ch.buffer[1..])
  }

  function Take(ch: Channel): Channel
    requires ch.buffer != []
  {
    ch.(received := ch.received + [ch.buffer[0]], buffer := ch.buffer[1..])
  }

  function Next(s: System, t: Step): System
    requires Enabled(s, t)
  {
    match t
    case Subscribe(c) =>
      s.(clients := s.clients + {c},
         channels := s.channels[c := Channel(Subscribed, s.published, [], [], [], [])])
    case Unsubscribe(c) =>
      s.(clients := s.clients - {c}, channels := s.channels[c := s.channels[c].(phase := Draining)])
    case Drain(c) => s.(channels := s.channels[c := DrainOne(s.channels[c])])
    case Publish => s.(published := s.published + 1, publishing := true, todo := s.clients)
    case Visit(c) => s.(todo := s.todo - {c}, channels := s.channels[c := Offer(s.channels[c], s.published - 1)])
    case Release => s.(publishing := false)
    case Receive(c) => s.(channels := s.channels[c := Take(s.channels[c])])
  }

  ghost predicate IsRun(ss: seq<System>, steps: seq<Step>)
  {
    && |ss| == |steps| + 1 && ss[0] == START
    && forall i :: 0 <= i < |steps| ==> Enabled(ss[i], steps[i]) && ss[i + 1] == Next(ss[i], steps[i])
  }

  // ------------------------------------------------------------ the promise

  ghost predicate Increasing(s: seq<nat>)
  {
    forall i, j :: 0 <= i < j < |s| ==> s[i] < s[j]
  }

  /** The frames from a up to b. */
  function Range(a: nat, b: nat): (r: seq<nat>)
    requires a <= b
    ensures |r| == b - a && forall i :: 0 <= i < |r| ==> r[i] == a + i
  {
    seq(b - a, i => a + i)
  }

  /** The channel has been offered exactly the frames from `since` up to `upTo`: the accepted ones are
    * among them in order, and only the skipped ones are missing. */
  ghost predicate Faithful(ch: Channel, upTo: nat)
  {
    && ch.since <= upTo
    && Increasing(ch.Accepted())
    && (forall i :: 0 <= i < |ch.Accepted()| ==> ch.Accepted()[i] < upTo)
    && multiset(ch.Accepted()) + multiset(ch.skipped) == multiset(Range(ch.since, upTo))
    && |ch.buffer| <= SLOTS
  }

  /** How far the publications have offered to client c. */
  function OfferedTo(s: System, c: Client): nat
  {
    if s.publishing && c in s.todo && s.published > 0 then s.published - 1 else s.published
  }

  ghost predicate ClientOk(s: System, c: Client)
    requires c in s.channels
  {
    var ch := s.channels[c];
    && (ch.phase == Subscribed <==> c in s.clients)
    && (ch.phase == Subscribed ==> Faithful(ch, OfferedTo(s, c)))
    && (ch.phase != Subscribed ==> c !in s.todo && exists upTo: nat :: upTo <= s.published && Faithful(ch, upTo))
    && (ch.phase == Gone ==> ch.buffer == [])
  }

  ghost predicate SystemOk(s: System)
  {
    && s.clients <= s.channels.Keys && s.todo <= s.clients
    && (s.publishing ==> s.published > 0) && (!s.publishing ==> s.todo == {})
    && forall c :: c in s.channels ==> ClientOk(s, c)
  }

  lemma OfferIsFaithful(ch: Channel, id: nat)
    requires Faithful(ch, id)
    ensures Faithful(Offer(ch, id), id + 1)
    ensures Offer(ch, id).skipped != ch.skipped ==> |ch.buffer| == SLOTS
  {
    var r := Offer(ch, id);
    assert Range(ch.since, id + 1) == Range(ch.since, id) + [id];
    if |ch.buffer| < SLOTS {
      assert r.Accepted() == ch.Accepted() + [id];
    } else {
      assert r.Accepted() == ch.Accepted();
    }
  }

  lemma MoveIsFaithful(ch: Channel, r: Channel, upTo: nat)
    requires Faithful(ch, upTo) && r.Accepted() == ch.Accepted()
    requires r.since == ch.since && r.skipped == ch.skipped && |r.buffer| <= |ch.buffer|
    ensures Faithful(r, upTo)
  {
  }

  lemma DrainKeepsAccepted(ch: Channel)
    ensures DrainOne(ch).Accepted() == ch.Accepted()
  {
  }

  /** A client only receives while Unsubscribe has drained nothing. */
  lemma TakeKeepsAccepted(ch: Channel)
    requires ch.buffer != [] && ch.drained == []
    ensures Take(ch).Accepted() == ch.Accepted()
  {
  }

  ghost predicate NothingDrained(s: System)
  {
    forall c :: c in s.channels && s.channels[c].phase == Subscribed ==> s.channels[c].drained == []
  }

  /** The step changes at most client c's channel. */
  lemma StepKeepsOthers(s: System, t: Step, c: Client)
    requires SystemOk(s) && NothingDrained(s) && Enabled(s, t) && c in s.channels
    requires c in Next(s, t).channels && Next(s, t).channels[c] == s.channels[c]
    requires t.Publish? || t.Release? || t.c != c
    ensures ClientOk(Next(s, t), c)
  {
    assert ClientOk(s, c);
    var r := Next(s, t);
    if s.channels[c].phase != Subscribed {
      var upTo: nat :| upTo <= s.published && Faithful(s.channels[c], upTo);
      assert upTo <= r.published && Faithful(r.channels[c], upTo);
    }
  }

  lemma UnsubscribeKeepsClient(s: System, c: Client)
    requires SystemOk(s) && Enabled(s, Unsubscribe(c))
    ensures ClientOk(Next(s, Unsubscribe(c)), c)
  {
    assert ClientOk(s, c);
    var r := s.channels[c].(phase := Draining);
    MoveIsFaithful(s.channels[c], r, s.published);
    assert Faithful(r, s.published);
  }

  lemma DrainKeepsClient(s: System, c: Client)
    requires SystemOk(s) && Enabled(s, Drain(c))
    ensures ClientOk(Next(s, Drain(c)), c)
  {
    assert ClientOk(s, c);
    var upTo: nat :| upTo <= s.published && Faithful(s.channels[c], upTo);
    DrainKeepsAccepted(s.channels[c]);
    var r := DrainOne(s.channels[c]);
    MoveIsFaithful(s.channels[c], r, upTo);
    assert upTo <= s.published && Faithful(r, upTo);
  }

  lemma VisitKeepsClient(s: System, c: Client)
    requires SystemOk(s) && Enabled(s, Visit(c))
    ensures ClientOk(Next(s, Visit(c)), c)
  {
    assert ClientOk(s, c);
    OfferIsFaithful(s.channels[c], s.published - 1);
  }

  lemma ReceiveKeepsClient(s: System, c: Client)
    requires SystemOk(s) && NothingDrained(s) && Enabled(s, Receive(c))
    ensures ClientOk(Next(s, Receive(c)), c)
  {
    assert ClientOk(s, c);
    TakeKeepsAccepted(s.channels[c]);
    MoveIsFaithful(s.channels[c], Take(s.channels[c]), OfferedTo(s, c));
  }

  lemma SubscribeKeepsClient(s: System, c: Client)
    requires SystemOk(s) && Enabled(s, Subscribe(c))
    ensures ClientOk(Next(s, Subscribe(c)), c)
  {
  }

  lemma StepKeepsClient(s: System, t: Step)
    requires SystemOk(s) && NothingDrained(s) && Enabled(s, t) && !t.Publish? && !t.Release?
    ensures t.c in Next(s, t).channels && ClientOk(Next(s, t), t.c)
  {
    match t
    case Subscribe(c) => SubscribeKeepsClient(s, c);
    case Unsubscribe(c) => UnsubscribeKeepsClient(s, c);
    case Drain(c) => DrainKeepsClient(s, c);
    case Visit(c) => VisitKeepsClient(s, c);
    case Receive(c) => ReceiveKeepsClient(s, c);
  }

  lemma StepKeepsSets(s: System, t: Step)
    requires SystemOk(s) && NothingDrained(s) && Enabled(s, t)
    ensures var r := Next(s, t);
            && r.clients <= r.channels.Keys && r.todo <= r.clients
            && (r.publishing ==> r.published > 0) && (!r.publishing ==> r.todo == {})
            && NothingDrained(r)
  {
  }

  lemma StepKeepsOne(s: System, t: Step, c: Client)
    requires SystemOk(s) && NothingDrained(s) && Enabled(s, t) && c in Next(s, t).channels
    ensures ClientOk(Next(s, t), c)
  {
    hide ClientOk;
    if !t.Publish? && !t.Release? && t.c == c {
      StepKeepsClient(s, t);
    } else {
      StepKeepsOthers(s, t, c);
    }
  }

  lemma StepKeepsSystem(s: System, t: Step)
    requires SystemOk(s) && NothingDrained(s) && Enabled(s, t)
    ensures SystemOk(Next(s, t)) && NothingDrained(Next(s, t))
  {
    hide ClientOk, Next, NothingDrained;
    StepKeepsSets(s, t);
    forall c | c in Next(s, t).channels ensures ClientOk(Next(s, t), c) {
      StepKeepsOne(s, t, c);
    }
  }

  /** Over every interleaving with one publisher: what a client received, and then what waits for it,
    * are frames published while it was subscribed, in order, and only frames skipped on a full
    * channel are missing; a channel whose Unsubscribe has returned is empty. */
  lemma {:induction false} RunIsFaithful(ss: seq<System>, steps: seq<Step>)
    requires IsRun(ss, steps)
    ensures forall i :: 0 <= i < |ss| ==> SystemOk(ss[i]) && NothingDrained(ss[i])
    decreases |steps|
  {
    if steps != [] {
      var n := |steps| - 1;
      var us := ss[..n + 1];
      assert IsRun(us, steps[..n]);
      RunIsFaithful(us, steps[..n]);
      assert us[n] == ss[n];
      StepKeepsSystem(ss[n], steps[n]);
      forall i | 0 <= i < |ss| ensures SystemOk(ss[i]) && NothingDrained(ss[i]) {
        if i <= n {
          assert ss[i] == us[i];
        }
      }
    }
  }

  /** At step k client c was offered frame id and had no free slot. */
  predicate TurnedAway(ss: seq<System>, steps: seq<Step>, k: nat, c: Client, id: nat)
  {
    && k < |steps| && k < |ss| && steps[k] == Visit(c) && ss[k].published == id + 1
    && c in ss[k].channels && |ss[k].channels[c].buffer| == 4
  }

  lemma StepSkips(s: System, t: Step, c: Client, id: nat)
    requires SystemOk(s) && Enabled(s, t) && c in Next(s, t).channels
    ensures id in Next(s, t).channels[c].skipped
       <==> || (c in s.channels && id in s.channels[c].skipped)
            || (t == Visit(c) && s.published == id + 1 && |s.channels[c].buffer| == SLOTS)
  {
    if t == Visit(c) {
      assert ClientOk(s, c);
      assert |s.channels[c].buffer| <= SLOTS;
    }
  }

  /** Over every run, a frame is missing from what a channel accepted exactly when the frame's
    * publication found all four slots full. */
  lemma {:induction false} SkipsExactlyWhenFull(ss: seq<System>, steps: seq<Step>, i: nat, c: Client, id: nat)
    requires IsRun(ss, steps) && i < |ss| && c in ss[i].channels
    ensures id in ss[i].channels[c].skipped <==> exists k :: 0 <= k < i && TurnedAway(ss, steps, k, c, id)
  {
    if i > 0 {
      RunIsFaithful(ss, steps);
      var k := i - 1;
      assert ss[i] == Next(ss[k], steps[k]);
      StepSkips(ss[k], steps[k], c, id);
      if c in ss[k].channels {
        SkipsExactlyWhenFull(ss, steps, k, c, id);
      } else {
        NeverOffered(ss, steps, k, c);
      }
      assert TurnedAway(ss, steps, k, c, id) <==>
             steps[k] == Visit(c) && ss[k].published == id + 1 && |ss[k].channels[c].buffer| == SLOTS;
    }
  }

  /** A channel that is not there yet never was. */
  lemma {:induction false} NeverOffered(ss: seq<System>, steps: seq<Step>, i: nat, c: Client)
    requires IsRun(ss, steps) && i < |ss| && c !in ss[i].channels
    ensures forall k :: 0 <= k <= i ==> c !in ss[k].channels
  {
    if i > 0 {
      assert ss[i] == Next(ss[i - 1], steps[i - 1]);
      NeverOffered(ss, steps, i - 1, c);
    }
  }

  // ----------------------------------------------------- through the channel

  lemma RunAt(ss: seq<System>, steps: seq<Step>, j: nat)
    requires IsRun(ss, steps) && j < |ss|
    ensures SystemOk(ss[j]) && NothingDrained(ss[j]) && |ss| == |steps| + 1
    ensures j < |steps| ==> Enabled(ss[j], steps[j]) && ss[j + 1] == Next(ss[j], steps[j])
  {
    RunIsFaithful(ss, steps);
  }

  /** What waits for client c. */
  function Waiting(s: System, c: Client): seq<nat>
  {
    if c in s.channels then s.channels[c].buffer else []
  }

  /** The frames that the steps of client c before step i took from the head of its channel: its own
    * receives, or else the turns of Unsubscribe's loop. */
  function TakenBy(ss: seq<System>, steps: seq<Step>, i: nat, c: Client, receives: bool): seq<nat>
    requires i <= |steps| && |ss| == |steps| + 1
  {
    if i == 0 then []
    else
      var w, t := Waiting(ss[i - 1], c), steps[i - 1];
      TakenBy(ss, steps, i - 1, c, receives)
      + (if w != [] && t == (if receives then Receive(c) else Drain(c)) then [w[0]] else [])
  }

  /** The frames that were put into c's channel: those whose visit found a free slot. */
  function PutFor(ss: seq<System>, steps: seq<Step>, i: nat, c: Client): seq<nat>
    requires i <= |steps| && |ss| == |steps| + 1
  {
    if i == 0 then []
    else
      PutFor(ss, steps, i - 1, c)
      + (if steps[i - 1] == Visit(c) && |Waiting(ss[i - 1], c)| < SLOTS && ss[i - 1].published > 0
         then [ss[i - 1].published - 1] else [])
  }

  lemma StepThroughChannel(s: System, t: Step, c: Client)
    requires SystemOk(s) && Enabled(s, t) && c in Next(s, t).channels
    ensures c !in s.channels ==>
              t == Subscribe(c) && Next(s, t).channels[c] == Channel(Subscribed, s.published, [], [], [], [])
    ensures c in s.channels ==>
              var ch, r, w := s.channels[c], Next(s, t).channels[c], Waiting(s, c);
              var head := if w == [] then [] else [w[0]];
              && r.received == ch.received + (if t == Receive(c) then head else [])
              && r.drained == ch.drained + (if t == Drain(c) then head else [])
              && (t == Receive(c) ==> head != [])
              && r.buffer == (if t == Visit(c) && |w| < SLOTS then w + [s.published - 1]
                              else if t == Receive(c) || (t == Drain(c) && w != []) then w[1..]
                              else w)
              && r.phase == (if t == Unsubscribe(c) then Draining
                             else if t == Drain(c) && w == [] then Gone else ch.phase)
  {
  }

  lemma StepPuts(s: System, t: Step, c: Client)
    requires SystemOk(s) && NothingDrained(s) && Enabled(s, t) && c in s.channels
    ensures c in Next(s, t).channels
    ensures Next(s, t).channels[c].Accepted()
         == s.channels[c].Accepted()
            + (if t == Visit(c) && |Waiting(s, c)| < SLOTS && s.published > 0 then [s.published - 1] else [])
  {
    var ch := s.channels[c];
    if t == Receive(c) {
      TakeKeepsAccepted(ch);
    } else if t == Drain(c) {
      DrainKeepsAccepted(ch);
    }
  }

  /** What channel ch of client c has received and drained is what the client's own steps took, and with
    * what waits it is what was put in, in that order. */
  ghost predicate FifoOk(ss: seq<System>, steps: seq<Step>, i: nat, c: Client, ch: Channel)
    requires i <= |steps| && |ss| == |steps| + 1
  {
    && ch.received == TakenBy(ss, steps, i, c, true)
    && ch.drained == TakenBy(ss, steps, i, c, false)
    && ch.received + ch.drained + ch.buffer == PutFor(ss, steps, i, c)
  }

  lemma FifoStep(ss: seq<System>, steps: seq<Step>, k: nat, c: Client)
    requires k < |steps| && |ss| == |steps| + 1 && c in ss[k].channels && FifoOk(ss, steps, k, c, ss[k].channels[c])
    requires SystemOk(ss[k]) && NothingDrained(ss[k]) && Enabled(ss[k], steps[k]) && ss[k + 1] == Next(ss[k], steps[k])
    ensures c in ss[k + 1].channels && FifoOk(ss, steps, k + 1, c, ss[k + 1].channels[c])
  {
    StepPuts(ss[k], steps[k], c);
    StepThroughChannel(ss[k], steps[k], c);
    hide Next, Enabled, SystemOk, NothingDrained;
  }

  /** Over every run, a channel is a first-in first-out buffer between the publications and its own client:
    * what it has in `received` is what the client's receives took from its head, in `drained` what
    * Unsubscribe's loop took, and those, in the order they were put in, and what waits are exactly the
    * frames whose visit found a free slot. */
  lemma {:induction false} ChannelIsFifo(ss: seq<System>, steps: seq<Step>, i: nat, c: Client)
    requires IsRun(ss, steps) && i < |ss| && c in ss[i].channels
    ensures FifoOk(ss, steps, i, c, ss[i].channels[c])
  {
    if i > 0 {
      var k := i - 1;
      RunAt(ss, steps, k);
      if c in ss[k].channels {
        hide *;
        ChannelIsFifo(ss, steps, k, c);
        FifoStep(ss, steps, k, c);
      } else {
        NothingTaken(ss, steps, k, c);
        FifoStart(ss, steps, k, c);
      }
    }
  }

  lemma FifoStart(ss: seq<System>, steps: seq<Step>, k: nat, c: Client)
    requires k < |steps| && |ss| == |steps| + 1 && c !in ss[k].channels && c in ss[k + 1].channels
    requires SystemOk(ss[k]) && Enabled(ss[k], steps[k]) && ss[k + 1] == Next(ss[k], steps[k])
    requires TakenBy(ss, steps, k, c, true) == [] && TakenBy(ss, steps, k, c, false) == []
    requires PutFor(ss, steps, k, c) == []
    ensures FifoOk(ss, steps, k + 1, c, ss[k + 1].channels[c])
  {
    StepThroughChannel(ss[k], steps[k], c);
    hide Next, Enabled, SystemOk;
  }

  lemma {:induction false} NothingTaken(ss: seq<System>, steps: seq<Step>, i: nat, c: Client)
    requires IsRun(ss, steps) && i < |ss| && c !in ss[i].channels
    ensures TakenBy(ss, steps, i, c, true) == [] && TakenBy(ss, steps, i, c, false) == []
    ensures PutFor(ss, steps, i, c) == []
  {
    if i > 0 {
      assert ss[i] == Next(ss[i - 1], steps[i - 1]);
      NothingTaken(ss, steps, i - 1, c);
    }
  }

  /** How many turns Unsubscribe's loop has taken for client c. */
  function Turns(steps: seq<Step>, i: nat, j: nat, c: Client): nat
    requires i <= j <= |steps|
  {
    if i == j then 0 else Turns(steps, i, j - 1, c) + (if steps[j - 1] == Drain(c) then 1 else 0)
  }

  /** Unsubscribe returns: once the client is out of the set, whatever is published meanwhile, each turn
    * of the loop takes one waiting frame, and the turn after the last of them ends it. */
  lemma {:induction false} UnsubscribeReturns(ss: seq<System>, steps: seq<Step>, i: nat, j: nat, c: Client)
    requires IsRun(ss, steps) && |ss| == |steps| + 1 && i < j <= |steps| && steps[i] == Unsubscribe(c)
    ensures c in ss[i].channels && c in ss[j].channels
    ensures var waiting, turns := |ss[i].channels[c].buffer|, Turns(steps, i, j, c);
            if turns <= waiting
            then ss[j].channels[c].phase == Draining && |ss[j].channels[c].buffer| == waiting - turns
            else turns == waiting + 1 && ss[j].channels[c].phase == Gone
    decreases j
  {
    hide IsRun, SystemOk, NothingDrained, Enabled, Next;
    var k := j - 1;
    RunAt(ss, steps, k);
    if k > i {
      UnsubscribeReturns(ss, steps, i, k, c);
      DrainTurn(ss[k], steps[k], c);
    } else {
      UnsubscribeStarts(ss[i], c);
      assert Turns(steps, i, i, c) == 0;
    }
  }

  lemma UnsubscribeStarts(s: System, c: Client)
    requires Enabled(s, Unsubscribe(c))
    ensures c in s.channels && c in Next(s, Unsubscribe(c)).channels
    ensures Next(s, Unsubscribe(c)).channels[c] == s.channels[c].(phase := Draining)
  {
  }

  lemma DrainTurn(s: System, t: Step, c: Client)
    requires SystemOk(s) && Enabled(s, t) && c in s.channels && s.channels[c].phase != Subscribed
    ensures c in Next(s, t).channels
    ensures var ch, r := s.channels[c], Next(s, t).channels[c];
            if t != Drain(c) then r.phase == ch.phase && r.buffer == ch.buffer
            else if ch.buffer == [] then r.phase == Gone
            else r.phase == ch.phase && |r.buffer| == |ch.buffer| - 1
    ensures t == Drain(c) ==> s.channels[c].phase == Draining
  {
    assert ClientOk(s, c);
    hide Faithful;
  }

  /** Once Unsubscribe has returned, nothing changes the channel again. */
  lemma GoneIsGone(s: System, t: Step, c: Client)
    requires SystemOk(s) && Enabled(s, t) && c in s.channels && s.channels[c].phase == Gone
    ensures c in Next(s, t).channels && Next(s, t).channels[c] == s.channels[c] && s.channels[c].buffer == []
  {
  }

  /** The clients visited in steps i + 1 up to j. */
  function Visited(steps: seq<Step>, i: nat, j: nat): (r: seq<Client>)
    requires i <= j <= |steps|
  {
    if j <= i + 1 then []
    else if steps[j - 1].Visit? then Visited(steps, i, j - 1) + [steps[j - 1].c]
    else Visited(steps, i, j - 1)
  }

  /** While a publication is under way, only its own visits change what it has still to do. */
  lemma PublicationStep(s: System, t: Step)
    requires SystemOk(s) && Enabled(s, t) && s.publishing && !t.Release?
    ensures t.Visit? || t.Receive? || t.Drain?
    ensures var r := Next(s, t);
            && r.publishing && r.published == s.published && r.clients == s.clients
            && r.todo == (if t.Visit? then s.todo - {t.c} else s.todo)
            && (t.Visit? ==> t.c in s.todo)
  {
  }

  /** The clients split into those visited, each once, and those still to be visited. */
  ghost predicate Split(clients: set<Client>, visited: seq<Client>, todo: set<Client>)
  {
    && (forall x, y :: 0 <= x < y < |visited| ==> visited[x] != visited[y])
    && (forall c :: c in clients <==> c in visited || c in todo)
    && (forall c :: c in visited ==> c !in todo)
    && |visited| + |todo| == |clients|
  }

  lemma VisitSplits(clients: set<Client>, visited: seq<Client>, todo: set<Client>, c: Client)
    requires Split(clients, visited, todo) && c in todo
    ensures Split(clients, visited + [c], todo - {c})
  {
  }

  lemma PublishStarts(s: System)
    requires SystemOk(s) && Enabled(s, Publish)
    ensures var r := Next(s, Publish);
            && r.publishing && r.clients == s.clients && r.published == s.published + 1
            && Split(s.clients, [], r.todo)
  {
  }

  lemma {:induction false} PublicationRun(ss: seq<System>, steps: seq<Step>, i: nat, j: nat)
    requires IsRun(ss, steps) && |ss| == |steps| + 1 && i < j <= |steps| && steps[i] == Publish
    requires forall k :: i < k < j ==> !steps[k].Release?
    ensures ss[j].publishing && ss[j].clients == ss[i].clients && ss[j].published == ss[i].published + 1
    ensures Split(ss[i].clients, Visited(steps, i, j), ss[j].todo)
    decreases j
  {
    hide IsRun, SystemOk, Enabled, Next, Split;
    RunAt(ss, steps, j - 1);
    var s, t := ss[j - 1], steps[j - 1];
    if j == i + 1 {
      PublishStarts(s);
    } else {
      PublicationRun(ss, steps, i, j - 1);
      PublicationStep(s, t);
      if t.Visit? {
        VisitSplits(ss[i].clients, Visited(steps, i, j - 1), s.todo, t.c);
      }
    }
  }

  lemma WhatPublisherCanDo(s: System, clients: set<Client>, visited: seq<Client>)
    requires SystemOk(s) && s.publishing && Split(clients, visited, s.todo)
    ensures forall c :: c in s.todo ==> Enabled(s, Visit(c))
    ensures Enabled(s, Release) <==> |visited| == |clients|
  {
  }

  /** Publishing never waits.  In every run, from the publication at step i until its release, whatever
    * clients receive and drain in between: nobody joins or leaves; each client is visited at most once
    * and those not yet visited can be visited now; the release can happen exactly when the visits
    * number the clients. */
  lemma {:induction false} PublishNeverWaits(ss: seq<System>, steps: seq<Step>, i: nat, j: nat)
    requires IsRun(ss, steps) && |ss| == |steps| + 1 && i < j <= |steps| && steps[i] == Publish
    requires forall k :: i < k < j ==> !steps[k].Release?
    ensures ss[j].clients == ss[i].clients && ss[j].published == ss[i].published + 1
    ensures Split(ss[i].clients, Visited(steps, i, j), ss[j].todo)
    ensures forall c :: c in ss[j].todo ==> Enabled(ss[j], Visit(c))
    ensures Enabled(ss[j], Release) <==> |Visited(steps, i, j)| == |ss[i].clients|
  {
    hide *;
    PublicationRun(ss, steps, i, j);
    RunAt(ss, steps, j);
    WhatPublisherCanDo(ss[j], ss[i].clients, Visited(steps, i, j));
  }

  // --------------------------------------------------------------- the code

  /** The broker with whole calls as steps. */
  class Broker {
    var clients: set<Client>
    var channels: map<Client, Channel>
    var published: nat

    constructor ()
      ensures clients == {} && channels == map[] && published == 0
    {
      clients, channels, published := {}, map[], 0;
    }

    method Subscribe(c: Client)
      requires c !in channels
      modifies this`clients, this`channels
      ensures clients == old(clients) + {c}
      ensures channels == old(channels)[c := Channel(Subscribed, published, [], [], [], [])]
    {
      channels := channels[c := Channel(Subscribed, published, [], [], [], [])];
      clients := clients + {c};
    }

    method Unsubscribe(c: Client)
      requires c in channels && channels[c].phase == Subscribed
      modifies this`clients, this`channels
      ensures clients == old(clients) - {c}
      ensures channels.Keys == old(channels).Keys
      ensures forall d :: d in channels && d != c ==> channels[d] == old(channels)[d]
      ensures channels[c] == old(channels)[c].(phase := Gone, buffer := [],
                                               drained := old(channels)[c].drained + old(channels)[c].buffer)
    {
      ghost var ch0 := channels[c];
      clients := clients - {c};
      channels := channels[c := channels[c].(phase := Draining)];
      while channels[c].buffer != []
        invariant clients == old(clients) - {c} && published == old(published)
        invariant channels.Keys == old(channels).Keys
        invariant forall d :: d in channels && d != c ==> channels[d] == old(channels)[d]
        invariant channels[c].drained + channels[c].buffer == ch0.drained + ch0.buffer
        invariant channels[c] == ch0.(phase := Draining, buffer := channels[c].buffer, drained := channels[c].drained)
        decreases |channels[c].buffer|
      {
        ghost var b := channels[c].buffer;
        assert b == [b[0]] + b[1..];
        channels := channels[c := DrainOne(channels[c])];
      }
      channels := channels[c := DrainOne(channels[c])];
    }

    /** Publish: the frame is offered once to every subscribed channel, in some order. */
    method Publish()
      requires clients <= channels.Keys
      modifies this`channels, this`published
      ensures published == old(published) + 1 && channels.Keys == old(channels).Keys
      ensures forall c :: c in channels ==>
                channels[c] == if c in clients then Offer(old(channels)[c], old(published)) else old(channels)[c]
      ensures forall c :: c in clients && |old(channels)[c].buffer| < SLOTS ==>
                channels[c].buffer == old(channels)[c].buffer + [old(published)]
    {
      published := published + 1;
      var todo := clients;
      while todo != {}
        invariant published == old(published) + 1 && clients == old(clients)
        invariant todo <= clients && channels.Keys == old(channels).Keys
        invariant forall c :: c in channels ==>
                    channels[c] == if c in clients && c !in todo then Offer(old(channels)[c], old(published))
                                   else old(channels)[c]
      {
        var c :| c in todo;
        todo := todo - {c};
        channels := channels[c := Offer(channels[c], published - 1)];
      }
    }
  }
}
