/** A RELAY subscription on a live bus: the forwarding task pops the queue that the bus pushes
    at, while everything else on the bus goes on. */
module RelayNode {
  import opened Word
  import opened Wrappers
  import opened LinFrame
  import opened SubQueue
  import Machine = BusMachine
  import opened BusTheorems
  import BusTraffic
  import opened Adapter
  import Pipeline

  /** The bus, the task, and the steps each of them has taken. */
  datatype Node = Node(bus: Machine.Bus, pipe: Pipeline.Pipe,
                       busEvents: seq<Machine.Event>, pipeEvents: seq<Pipeline.Event>)

  datatype Event = OnBus(event: Machine.Event) | OnTask(turn: Pipeline.Event)

  /** The frame a step of the bus brings past the rate limiter of subscription k. */
  function Passed(s: Machine.Bus, k: nat, e: Machine.Event): Option<Frame>
    requires k < |s.cells|
  {
    match e
    case Hold(clock) =>
      var sub := s.cells[k].sub;
      if s.lock.Sending? && Machine.Takes(s, s.lock.frame, k) && RateStep(sub.rateLimit, sub.rate, clock(k)).1
      then Some(s.lock.frame) else None
    case _ => None
  }

  /** The receiver of subscription k is the task's alone, and the task never closes it. */
  predicate Allowed(e: Machine.Event, k: nat) {
    e != Machine.Receive(k) && e != Machine.CloseReceiver(k)
  }

  function BusTurn(n: Node, k: nat, e: Machine.Event): Node
    requires k < |n.bus.cells|
  {
    var sub := n.bus.cells[k].sub;
    var m := n.(bus := Machine.Step(n.bus, e), busEvents := n.busEvents + [e]);
    match Passed(n.bus, k, e)
    case None => m
    case Some(f) => PipeTurn(m, sub.policy, sub.capacity, Pipeline.Arrive(f))
  }

  function PipeTurn(n: Node, policy: BackPressurePolicy, depth: nat, turn: Pipeline.Event): Node {
    n.(pipe := Pipeline.Step(n.pipe, policy, depth, turn), pipeEvents := n.pipeEvents + [turn])
  }

  predicate Fetches(p: Pipeline.Pipe) {
    p.running && p.hand.None? && p.queue != []
  }

  /** A fetch is a receive on the bus and a turn of the task at once; the task ends by itself only
      when its subscription is closed. */
  function TaskTurn(n: Node, k: nat, turn: Pipeline.Event): Node
    requires k < |n.bus.cells|
  {
    var sub := n.bus.cells[k].sub;
    match turn
    case Arrive(_) => n
    case Fetch =>
      if !Fetches(n.pipe) then n
      else
        var e := Machine.Receive(k);
        PipeTurn(n.(bus := Machine.Step(n.bus, e), busEvents := n.busEvents + [e]), sub.policy, sub.capacity, turn)
    case Finish => if sub.closed then PipeTurn(n, sub.policy, sub.capacity, turn) else n
    case _ => PipeTurn(n, sub.policy, sub.capacity, turn)
  }

  function Step(n: Node, k: nat, e: Event): Node {
    if k >= |n.bus.cells| then n
    else
      match e
      case OnBus(b) => if Allowed(b, k) then BusTurn(n, k, b) else n
      case OnTask(t) => TaskTurn(n, k, t)
  }

  function Run(before: seq<Machine.Event>, k: nat, events: seq<Event>): Node {
    if |events| == 0 then Node(Machine.Run(before), Pipeline.IDLE, before, [])
    else Step(Run(before, k, events[..|events| - 1]), k, events[|events| - 1])
  }

  /** The bus has just registered subscription k for the task, with no filters and the depth of
      its channel. */
  ghost predicate Subscribed(before: seq<Machine.Event>, k: nat, opts: SubscriberOptions) {
    var s := Machine.Run(before);
    && k < |s.cells| && opts.channelDepth > 0 && k in s.subs
    && exists now: nat :: s.cells[k] == Machine.NewCell([], opts, now, |s.log|)
  }

  /** Which is where every subscribe without filters leads. */
  lemma SubscribeSubscribes(before: seq<Machine.Event>, i: nat, clock: nat -> nat, opts: SubscriberOptions)
    requires var s := Machine.Run(before);
      s.lock.Free? && i < |s.pending| && s.pending[i] == Machine.SubscribeReady([], opts) && opts.channelDepth > 0
    ensures Subscribed(before + [Machine.Proceed(i, clock)], |Machine.Run(before).cells|, opts)
  {
    RunSnoc(before, Machine.Proceed(i, clock));
    hide Machine.Run, Machine.NewCell;
    var s := Machine.Run(before);
    var t := Machine.Step(s, Machine.Proceed(i, clock));
    assert t.cells[|s.cells|] == Machine.NewCell([], opts, clock(|s.cells|), |s.log|);
    assert |s.cells| in t.subs;
  }

  // ---------------------------------------------------------------------------
  // What one step of the bus does to one subscription
  // ---------------------------------------------------------------------------

  /** What a step leaves alone in a subscription. */
  predicate SameSubscription(c: Machine.Cell, d: Machine.Cell) {
    && d.filters == c.filters && d.birth == c.birth && d.received == c.received
    && d.sub.policy == c.sub.policy && d.sub.capacity == c.sub.capacity && d.sub.rateLimit == c.sub.rateLimit
  }

  predicate RemovedClosed(c: Machine.Cell) {
    c.death.Some? ==> c.sub.closed
  }

  predicate NoClose(pending: seq<Machine.Pending>) {
    forall q | q in pending :: !q.CloseReady?
  }

  lemma PushSame(c: Machine.Cell, f: Frame, now: nat)
    ensures var d := Machine.PushAt(c, f, now);
      && SameSubscription(c, d) && d.sub.closed == c.sub.closed && d.death == c.death
      && d.sub.queue == (if RateStep(c.sub.rateLimit, c.sub.rate, now).1
                         then QueueStep(c.sub.policy, c.sub.capacity, c.sub.queue, f).0 else c.sub.queue)
  {
    hide RateStep, QueueStep;
  }

  lemma EnterSame(s: Machine.Bus, q: Machine.Pending, clock: nat -> nat, k: nat)
    requires k < |s.cells|
    ensures var t := Machine.Enter(s, q, clock);
      && k < |t.cells| && SameSubscription(s.cells[k], t.cells[k]) && t.cells[k].sub.queue == s.cells[k].sub.queue
      && (s.cells[k].sub.closed ==> t.cells[k].sub.closed)
      && (RemovedClosed(s.cells[k]) ==> RemovedClosed(t.cells[k]))
      && (!q.CloseReady? ==> t.cells[k].sub.closed == s.cells[k].sub.closed)
  {
    hide Machine.Answer, Machine.NewCell, Machine.Store, Machine.Live;
  }

  lemma HeldSame(s: Machine.Bus, clock: nat -> nat, k: nat)
    requires k < |s.cells|
    ensures var t := Machine.Held(s, clock);
      && k < |t.cells| && SameSubscription(s.cells[k], t.cells[k])
      && t.cells[k].sub.closed == s.cells[k].sub.closed && t.cells[k].death == s.cells[k].death
      && t.cells[k].sub.queue == match Passed(s, k, Machine.Hold(clock))
           case None => s.cells[k].sub.queue
           case Some(f) => QueueStep(s.cells[k].sub.policy, s.cells[k].sub.capacity, s.cells[k].sub.queue, f).0
  {
    hide Machine.PushAt, Machine.TallyOf, Machine.Takes, Machine.Fanout, RateStep, QueueStep;
    if s.lock.Sending? {
      PushSame(s.cells[k], s.lock.frame, clock(k));
    }
  }

  lemma StepSame(s: Machine.Bus, e: Machine.Event, k: nat)
    requires k < |s.cells| && Allowed(e, k)
    ensures var t := Machine.Step(s, e);
      && k < |t.cells| && SameSubscription(s.cells[k], t.cells[k])
      && t.cells[k].sub.queue == match Passed(s, k, e)
           case None => s.cells[k].sub.queue
           case Some(f) => QueueStep(s.cells[k].sub.policy, s.cells[k].sub.capacity, s.cells[k].sub.queue, f).0
    ensures NoClose(s.pending) ==> Machine.Step(s, e).cells[k].sub.closed == s.cells[k].sub.closed
    ensures s.cells[k].sub.closed ==> Machine.Step(s, e).cells[k].sub.closed
    ensures RemovedClosed(s.cells[k]) ==> RemovedClosed(Machine.Step(s, e).cells[k])
  {
    hide Machine.Enter, Machine.Held, Machine.Count, Machine.Rest, Machine.Without, Machine.Takes,
      Machine.CheckPublish, Machine.CheckSend, RateStep, QueueStep;
    match e
    case Proceed(i, clock) =>
      if i < |s.pending| {
        EnterSame(s.(pending := Machine.Without(s.pending, i)), s.pending[i], clock, k);
      }
    case Hold(clock) => HeldSame(s, clock, k);
    case _ =>
  }

  // ---------------------------------------------------------------------------
  // The task and its subscription stay in step
  // ---------------------------------------------------------------------------

  /** The node's bus is in a state the bus reaches by itself, its task in one the task reaches by
      itself, and the queue and the pops are the same for both. */
  ghost predicate Coupled(n: Node, k: nat, opts: SubscriberOptions, birth: nat) {
    && n.bus == Machine.Run(n.busEvents)
    && n.pipe == Pipeline.Run(opts.backPressure, opts.channelDepth, n.pipeEvents)
    && k < |n.bus.cells| && Mirrors(n.bus.cells[k], n.pipe, opts, birth)
  }

  predicate Mirrors(c: Machine.Cell, p: Pipeline.Pipe, opts: SubscriberOptions, birth: nat) {
    && c.filters == [] && c.birth == birth
    && c.sub.policy == opts.backPressure && c.sub.capacity == opts.channelDepth
    && c.sub.rateLimit == opts.rateLimitPerSec
    && c.sub.queue == p.queue && c.received == p.popped
  }

  lemma BusTurnCoupled(n: Node, k: nat, opts: SubscriberOptions, birth: nat, e: Machine.Event)
    requires Coupled(n, k, opts, birth) && Allowed(e, k)
    ensures Coupled(BusTurn(n, k, e), k, opts, birth)
  {
    hide Machine.Run, Machine.Step, Pipeline.Run, Passed, QueueStep, Allowed;
    StepSame(n.bus, e, k);
    RunSnoc(n.busEvents, e);
    match Passed(n.bus, k, e)
    case None =>
    case Some(f) => Pipeline.RunSnoc(opts.backPressure, opts.channelDepth, n.pipeEvents, Pipeline.Arrive(f));
  }

  lemma TaskTurnCoupled(n: Node, k: nat, opts: SubscriberOptions, birth: nat, turn: Pipeline.Event)
    requires Coupled(n, k, opts, birth)
    ensures Coupled(TaskTurn(n, k, turn), k, opts, birth)
  {
    hide Machine.Run, Pipeline.Run, Pipeline.Numbered, QueueStep;
    RunSnoc(n.busEvents, Machine.Receive(k));
    Pipeline.RunSnoc(opts.backPressure, opts.channelDepth, n.pipeEvents, turn);
  }

  /** While the bus is open nothing closes the subscription, only a closed one is removed, and the
      task ends only because it was closed or because nobody listens. */
  ghost predicate Lasting(n: Node, k: nat)
    requires k < |n.bus.cells|
  {
    && (!n.bus.closed ==> NoClose(n.bus.pending) && !n.bus.cells[k].sub.closed)
    && (!n.pipe.running ==> n.bus.cells[k].sub.closed || !n.pipe.listening)
    && RemovedClosed(n.bus.cells[k])
  }

  lemma RestNoClose(pending: seq<Machine.Pending>, i: nat)
    requires i < |pending| && NoClose(pending)
    ensures NoClose(Machine.Without(pending, i))
    ensures Machine.IsTally(pending[i]) ==> NoClose(Machine.Rest(pending, i))
  {}

  lemma EnterNoClose(s: Machine.Bus, q: Machine.Pending, clock: nat -> nat)
    ensures Machine.Enter(s, q, clock).closed == s.closed && Machine.Enter(s, q, clock).pending == s.pending
  {
    hide Machine.Answer, Machine.Store, Machine.NewCell, Machine.Live;
  }

  lemma NoCloseStep(s: Machine.Bus, e: Machine.Event)
    requires !s.closed ==> NoClose(s.pending)
    ensures var t := Machine.Step(s, e); !t.closed ==> !s.closed && NoClose(t.pending)
  {
    hide Machine.Broadcast, Machine.Fanout, Machine.TallyOf, Machine.Count, Machine.CheckPublish, Machine.CheckSend,
      Machine.Enter, Machine.Rest, Machine.Without;
    match e
    case Proceed(i, clock) =>
      if i < |s.pending| {
        EnterNoClose(s.(pending := Machine.Without(s.pending, i)), s.pending[i], clock);
        if NoClose(s.pending) {
          RestNoClose(s.pending, i);
        }
      }
    case Hold(clock) => TallyKind(s, clock);
    case _ =>
  }

  lemma {:induction false} NoCloseRun(events: seq<Machine.Event>)
    ensures !Machine.Run(events).closed ==> NoClose(Machine.Run(events).pending)
  {
    hide Machine.Step;
    if |events| > 0 {
      NoCloseRun(events[..|events| - 1]);
      NoCloseStep(Machine.Run(events[..|events| - 1]), events[|events| - 1]);
    }
  }

  lemma BusTurnLasting(n: Node, k: nat, opts: SubscriberOptions, birth: nat, e: Machine.Event)
    requires Coupled(n, k, opts, birth) && Lasting(n, k) && Allowed(e, k)
    ensures k < |BusTurn(n, k, e).bus.cells| && Lasting(BusTurn(n, k, e), k)
  {
    hide Machine.Run, Machine.Step, Pipeline.Run, Passed, QueueStep, Allowed;
    StepSame(n.bus, e, k);
    NoCloseStep(n.bus, e);
  }

  lemma TaskTurnLasting(n: Node, k: nat, turn: Pipeline.Event)
    requires k < |n.bus.cells| && Lasting(n, k)
    ensures k < |TaskTurn(n, k, turn).bus.cells| && Lasting(TaskTurn(n, k, turn), k)
  {
    hide Pipeline.Numbered, QueueStep;
  }

  lemma {:induction false} RunCoupled(before: seq<Machine.Event>, k: nat, opts: SubscriberOptions, events: seq<Event>)
    requires Subscribed(before, k, opts)
    ensures var n := Run(before, k, events); Coupled(n, k, opts, |Machine.Run(before).log|) && Lasting(n, k)
  {
    hide Machine.Run;
    if |events| == 0 {
      NoCloseRun(before);
    } else {
      hide Coupled, Lasting, BusTurn, TaskTurn, Subscribed;
      var front, e := events[..|events| - 1], events[|events| - 1];
      RunCoupled(before, k, opts, front);
      var n, birth := Run(before, k, front), |Machine.Run(before).log|;
      assert k < |n.bus.cells| by { CoupledCell(n, k, opts, birth); }
      match e
      case OnBus(b) =>
        if Allowed(b, k) {
          BusTurnCoupled(n, k, opts, birth, b);
          BusTurnLasting(n, k, opts, birth, b);
        }
      case OnTask(t) =>
        TaskTurnCoupled(n, k, opts, birth, t);
        TaskTurnLasting(n, k, t);
    }
  }

  lemma CoupledCell(n: Node, k: nat, opts: SubscriberOptions, birth: nat)
    requires Coupled(n, k, opts, birth)
    ensures k < |n.bus.cells|
  {}

  // ---------------------------------------------------------------------------
  // From the bus to the consumer
  // ---------------------------------------------------------------------------

  /** The frames of a stretch of the bus log. */
  function Broadcasts(log: seq<Machine.Entry>): (fs: seq<Frame>)
    ensures |fs| == |log|
  {
    seq(|log|, i requires 0 <= i < |log| => log[i].frame)
  }

  lemma {:induction false} UnfilteredLog(log: seq<Machine.Entry>)
    ensures Filtered(log, []) == Broadcasts(log)
  {
    if |log| > 0 {
      UnfilteredLog(log[..|log| - 1]);
      assert Pass([], log[|log| - 1].frame) == [log[|log| - 1].frame];
    }
  }

  /** What the subscription could hear on the bus: every broadcast from its registration to its
      removal. */
  function Heard(s: Machine.Bus, k: nat): seq<Frame>
    requires k < |s.cells|
  {
    var c := s.cells[k];
    if c.birth <= End(c, s.log) <= |s.log| then Broadcasts(s.log[c.birth..End(c, s.log)]) else []
  }

  lemma SubscriberHeard(events: seq<Machine.Event>, k: nat)
    requires k < |Machine.Run(events).cells| && Machine.Run(events).cells[k].filters == []
    ensures var s := Machine.Run(events); var c := s.cells[k];
      && c.birth <= End(c, s.log) <= |s.log| && (k in s.subs <==> c.death == None)
      && Subsequence(c.received + c.sub.queue, Heard(s, k))
      && (c.sub.policy == Block && c.sub.rateLimit == 0 ==> c.received + c.sub.queue == Heard(s, k))
  {
    hide Machine.Run, Subsequence, Filtered, Broadcasts;
    SubscriberView(events, k);
    var s := Machine.Run(events);
    UnfilteredLog(s.log[s.cells[k].birth..End(s.cells[k], s.log)]);
  }

  lemma ReceivedIsReadable(events: seq<Machine.Event>, k: nat, f: Frame)
    requires k < |Machine.Run(events).cells| && f in Machine.Run(events).cells[k].received
    ensures Pipeline.Readable(f) == Ok(f)
  {
    hide Machine.Run, CalcChecksum, ProtectId;
    assert f in Machine.Run(events).cells[k].received + Machine.Run(events).cells[k].sub.queue;
    var i := BusTraffic.WellFormedTraffic(events, k, f);
  }

  /** In every interleaving of the bus, the task and the consumer, the messages the consumer has
      received are numbered from 0 and read back as the first frames the task popped, and those
      are, in order, part of the broadcasts since the subscription; of an unlimited Block
      subscription they are the first of all broadcasts. */
  lemma RelayView(before: seq<Machine.Event>, k: nat, opts: SubscriberOptions, events: seq<Event>)
    requires Subscribed(before, k, opts)
    ensures k < |Run(before, k, events).bus.cells|
    ensures var n := Run(before, k, events); var c := n.bus.cells[k]; var messages := n.pipe.received;
      && c.birth == |Machine.Run(before).log|
      && |messages| <= |c.received|
      && (forall j | 0 <= j < |messages| ::
            messages[j].seqNo == j % WORD && FromMessage(messages[j]) == Ok(c.received[j]))
      && Subsequence(c.received, Heard(n.bus, k))
      && (opts.backPressure == Block && opts.rateLimitPerSec == 0 ==> c.received <= Heard(n.bus, k))
  {
    hide Machine.Run, Run, Pipeline.Run, Subsequence, Heard, FromMessage, Pipeline.Readable;
    assert opts.channelDepth > 0;
    RunCoupled(before, k, opts, events);
    hide Subscribed;
    var n := Run(before, k, events);
    SubscriberHeard(n.busEvents, k);
    Pipeline.DeliveredInOrder(opts.backPressure, opts.channelDepth, n.pipeEvents);
    var c := n.bus.cells[k];
    SubsequencePrefix(c.received, c.sub.queue, Heard(n.bus, k));
    forall j | 0 <= j < |n.pipe.received| ensures Pipeline.Readable(c.received[j]) == Ok(c.received[j]) {
      ReceivedIsReadable(n.busEvents, k, c.received[j]);
    }
  }

  lemma SubsequencePrefix(xs: seq<Frame>, more: seq<Frame>, ys: seq<Frame>)
    requires Subsequence(xs + more, ys)
    ensures Subsequence(xs, ys)
  {
    SubsequenceRefl(xs);
    SubsequenceExtend(xs, xs, more);
    SubsequenceTransitive(xs, xs + more, ys);
  }

  // ---------------------------------------------------------------------------
  // After the consumer has gone
  // ---------------------------------------------------------------------------

  lemma EndedTurn(n: Node, k: nat, e: Event)
    requires !n.pipe.running
    ensures !Step(n, k, e).pipe.running && Step(n, k, e).pipe.popped == n.pipe.popped
  {
    hide Machine.Step, Pipeline.Numbered, QueueStep, Passed;
  }

  lemma {:induction false} EndedStays(before: seq<Machine.Event>, k: nat, events: seq<Event>, more: seq<Event>)
    requires !Run(before, k, events).pipe.running
    ensures var n, m := Run(before, k, events), Run(before, k, events + more);
      !m.pipe.running && m.pipe.popped == n.pipe.popped
  {
    hide Step;
    if |more| == 0 {
      assert events + more == events;
    } else {
      var front := more[..|more| - 1];
      EndedStays(before, k, events, front);
      assert (events + more)[..|events + more| - 1] == events + front;
      EndedTurn(Run(before, k, events + front), k, more[|more| - 1]);
    }
  }

  /** While the bus is open the subscription stays registered, whether or not its task has ended,
      which it does only when the consumer is gone. With Block and no rate limit its queue holds
      every broadcast since the subscription but those the task has popped. */
  lemma OpenSubscription(before: seq<Machine.Event>, k: nat, opts: SubscriberOptions, events: seq<Event>)
    requires Subscribed(before, k, opts) && !Run(before, k, events).bus.closed
    ensures k < |Run(before, k, events).bus.cells|
    ensures var n := Run(before, k, events); var c := n.bus.cells[k]; var birth := |Machine.Run(before).log|;
      && (!n.pipe.running ==> !n.pipe.listening)
      && !c.sub.closed && k in n.bus.subs && c.sub.queue == n.pipe.queue
      && (opts.backPressure == Block && opts.rateLimitPerSec == 0 ==>
            && birth + |n.pipe.popped| <= |n.bus.log|
            && c.sub.queue == Broadcasts(n.bus.log[birth + |n.pipe.popped|..]))
  {
    hide Machine.Run, Run, Pipeline.Run, Subsequence, Broadcasts;
    RunCoupled(before, k, opts, events);
    hide Subscribed;
    var n := Run(before, k, events);
    SubscriberHeard(n.busEvents, k);
    var c, birth := n.bus.cells[k], |Machine.Run(before).log|;
    if opts.backPressure == Block && opts.rateLimitPerSec == 0 {
      AfterPopped(n.bus.log, birth, c.received, c.sub.queue);
    }
  }

  lemma AfterPopped(log: seq<Machine.Entry>, birth: nat, popped: seq<Frame>, queue: seq<Frame>)
    requires birth <= |log| && popped + queue == Broadcasts(log[birth..|log|])
    ensures birth + |popped| <= |log| && queue == Broadcasts(log[birth + |popped|..])
  {
    var all := Broadcasts(log[birth..|log|]);
    assert queue == all[|popped|..];
  }

  const SAMPLE := Machine.SlaveResponse([1], Enhanced)

  lemma LockFreed(s: Machine.Bus, clock: nat -> nat)
    ensures var t := Machine.Step(Machine.Step(s, Machine.Hold(clock)), Machine.Hold(clock));
      t.lock.Free? && t.closed == s.closed && |t.log| >= |s.log| && (s.lock.Writing? ==> |t.log| > |s.log|)
  {
    hide Machine.Broadcast, Machine.TallyOf, Machine.Fanout;
  }

  lemma SampleStored(s: Machine.Bus, clock: nat -> nat)
    requires s.lock.Free? && !s.closed
    ensures var p := Machine.PublishCall(0, Some([1]), Enhanced);
      var t := Machine.Step(Machine.Step(s, p), Machine.Proceed(|s.pending|, clock));
      t.lock.Free? && !t.closed && t.log == s.log && 0 in t.responses && t.responses[0] == SAMPLE
  {
    hide Machine.SendLocked, Machine.CloseLocked, Machine.NewCell, Machine.Count;
  }

  lemma SampleSent(s: Machine.Bus, clock: nat -> nat)
    requires s.lock.Free? && !s.closed && 0 in s.responses && s.responses[0] == SAMPLE
    ensures var t := Machine.Step(Machine.Step(s, Machine.SendCall(0)), Machine.Proceed(|s.pending|, clock));
      t.lock.Writing? && !t.closed && t.log == s.log
  {
    hide CalcChecksum, ProtectId, Machine.Live, Machine.CloseLocked, Machine.NewCell, Machine.Count;
    assert ValidateFrame(Machine.Response(0, SAMPLE)).Ok?;
    assert Machine.Answer(s.responses, 0) == Ok(Machine.Response(0, SAMPLE));
  }

  /** The task has not moved. */
  predicate SameTask(p: Pipeline.Pipe, q: Pipeline.Pipe) {
    q.running == p.running && q.hand == p.hand && q.popped == p.popped
  }

  lemma AddBus(before: seq<Machine.Event>, k: nat, opts: SubscriberOptions, events: seq<Event>, e: Machine.Event)
    returns (longer: seq<Event>)
    requires Subscribed(before, k, opts) && Allowed(e, k)
    ensures longer == events + [OnBus(e)]
    ensures Run(before, k, longer).bus == Machine.Step(Run(before, k, events).bus, e)
    ensures SameTask(Run(before, k, events).pipe, Run(before, k, longer).pipe)
  {
    hide Machine.Run, Machine.Step, Pipeline.Run, Passed, QueueStep;
    RunCoupled(before, k, opts, events);
    longer := events + [OnBus(e)];
    assert longer[..|longer| - 1] == events;
  }

  /** Two bus steps in a row. */
  lemma AddTwo(before: seq<Machine.Event>, k: nat, opts: SubscriberOptions, events: seq<Event>,
               e: Machine.Event, f: Machine.Event)
    returns (longer: seq<Event>)
    requires Subscribed(before, k, opts) && Allowed(e, k) && Allowed(f, k)
    ensures events <= longer
    ensures Run(before, k, longer).bus == Machine.Step(Machine.Step(Run(before, k, events).bus, e), f)
    ensures SameTask(Run(before, k, events).pipe, Run(before, k, longer).pipe)
  {
    hide Machine.Run, Machine.Step, Run, Subscribed, Allowed;
    longer := AddBus(before, k, opts, events, e);
    longer := AddBus(before, k, opts, longer, f);
  }

  /** On an open bus one more frame can always be broadcast. */
  lemma OneMoreBroadcast(before: seq<Machine.Event>, k: nat, opts: SubscriberOptions, events: seq<Event>)
    returns (longer: seq<Event>)
    requires Subscribed(before, k, opts) && !Run(before, k, events).bus.closed
    ensures events <= longer && !Run(before, k, longer).bus.closed
    ensures |Run(before, k, longer).bus.log| > |Run(before, k, events).bus.log|
    ensures SameTask(Run(before, k, events).pipe, Run(before, k, longer).pipe)
  {
    hide Machine.Run, Machine.Step, Run, Subscribed;
    var clock: nat -> nat := _ => 0;
    var hold, publish, send := Machine.Hold(clock), Machine.PublishCall(0, Some([1]), Enhanced), Machine.SendCall(0);
    LockFreed(Run(before, k, events).bus, clock);
    longer := AddTwo(before, k, opts, events, hold, hold);
    SampleStored(Run(before, k, longer).bus, clock);
    var stored := Machine.Proceed(|Run(before, k, longer).bus.pending|, clock);
    longer := AddTwo(before, k, opts, longer, publish, stored);
    SampleSent(Run(before, k, longer).bus, clock);
    var sent := Machine.Proceed(|Run(before, k, longer).bus.pending|, clock);
    longer := AddTwo(before, k, opts, longer, send, sent);
    LockFreed(Run(before, k, longer).bus, clock);
    longer := AddTwo(before, k, opts, longer, hold, hold);
  }

  lemma {:induction false} LongerLog(before: seq<Machine.Event>, k: nat, opts: SubscriberOptions,
    events: seq<Event>, n: nat)
    returns (longer: seq<Event>)
    requires Subscribed(before, k, opts) && !Run(before, k, events).bus.closed
    ensures events <= longer && !Run(before, k, longer).bus.closed
    ensures |Run(before, k, longer).bus.log| >= |Run(before, k, events).bus.log| + n
  {
    hide Run, Subscribed;
    longer := events;
    if n > 0 {
      longer := LongerLog(before, k, opts, events, n - 1);
      longer := OneMoreBroadcast(before, k, opts, longer);
    }
  }

  lemma FetchHolds(n: Node, k: nat)
    requires k < |n.bus.cells| && Fetches(n.pipe)
    ensures var m := TaskTurn(n, k, Pipeline.Fetch); m.pipe.hand.Some? && m.bus.closed == n.bus.closed
  {
    hide Pipeline.Numbered;
  }

  lemma HangForward(n: Node, k: nat)
    requires k < |n.bus.cells| && n.pipe.hand.Some?
    ensures var m := TaskTurn(n, k, Pipeline.Hang);
      m.bus == n.bus && TaskTurn(m, k, Pipeline.Forward).bus == n.bus && !TaskTurn(m, k, Pipeline.Forward).pipe.running
  {}

  /** How the task ends: it holds a message when the consumer drops its end. */
  lemma HangEnds(before: seq<Machine.Event>, k: nat, opts: SubscriberOptions, events: seq<Event>)
    returns (longer: seq<Event>)
    requires Subscribed(before, k, opts) && Run(before, k, events).pipe.hand.Some?
    ensures events <= longer && Run(before, k, longer).bus == Run(before, k, events).bus
    ensures !Run(before, k, longer).pipe.running
  {
    hide Run, Machine.Run, Subscribed, TaskTurn;
    longer := AddTurn(before, k, opts, events, Pipeline.Hang);
    HangForward(Run(before, k, events), k);
    longer := AddTurn(before, k, opts, longer, Pipeline.Forward);
  }

  lemma AddTurn(before: seq<Machine.Event>, k: nat, opts: SubscriberOptions, events: seq<Event>, turn: Pipeline.Event)
    returns (longer: seq<Event>)
    requires Subscribed(before, k, opts)
    ensures longer == events + [OnTask(turn)]
    ensures var n := Run(before, k, events); k < |n.bus.cells| && Run(before, k, longer) == TaskTurn(n, k, turn)
  {
    hide Machine.Run, Machine.Step, Pipeline.Run, TaskTurn;
    RunCoupled(before, k, opts, events);
    longer := events + [OnTask(turn)];
    assert longer[..|longer| - 1] == events;
  }

  /** On an open bus the consumer of an unlimited Block subscription can always leave so that the
      task ends. */
  lemma ConsumerLeaves(before: seq<Machine.Event>, k: nat, opts: SubscriberOptions, events: seq<Event>)
    returns (longer: seq<Event>)
    requires Subscribed(before, k, opts) && opts.backPressure == Block && opts.rateLimitPerSec == 0
    requires !Run(before, k, events).bus.closed
    ensures events <= longer && !Run(before, k, longer).pipe.running && !Run(before, k, longer).bus.closed
  {
    hide Machine.Run, Run, Subscribed, Broadcasts, TaskTurn;
    longer := events;
    if Run(before, k, events).pipe.running {
      if Run(before, k, events).pipe.hand.None? {
        OpenSubscription(before, k, opts, events);
        longer := OneMoreBroadcast(before, k, opts, events);
        OpenSubscription(before, k, opts, longer);
        FetchHolds(Run(before, k, longer), k);
        longer := AddTurn(before, k, opts, longer, Pipeline.Fetch);
      }
      longer := HangEnds(before, k, opts, longer);
    }
  }

  /** So from any point on, once the consumer of an unlimited Block subscription leaves, the ended
      task's queue takes every frame that is broadcast and grows past any size while the bus is
      open. */
  lemma AbandonedGrows(before: seq<Machine.Event>, k: nat, opts: SubscriberOptions, events: seq<Event>, size: nat)
    returns (longer: seq<Event>)
    requires Subscribed(before, k, opts) && opts.backPressure == Block && opts.rateLimitPerSec == 0
    requires !Run(before, k, events).bus.closed
    ensures events <= longer && k < |Run(before, k, longer).bus.cells|
    ensures var n := Run(before, k, longer); var c := n.bus.cells[k];
      !n.pipe.running && !n.bus.closed && k in n.bus.subs && !c.sub.closed && |c.sub.queue| >= size
  {
    hide Run, Machine.Run, Subscribed, Broadcasts;
    var ended := ConsumerLeaves(before, k, opts, events);
    longer := LongerLog(before, k, opts, ended, size);
    assert longer == ended + longer[|ended|..];
    EndedStays(before, k, ended, longer[|ended|..]);
    OpenSubscription(before, k, opts, ended);
    OpenSubscription(before, k, opts, longer);
  }
}
