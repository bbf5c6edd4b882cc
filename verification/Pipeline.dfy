/** The forwarding task behind a RELAY subscription: it pops frames from the bus queue, numbers
    them, and hands them to a bounded channel; the consumer may be slow, or gone. */
module Pipeline {
  import opened Word
  import opened Wrappers
  import opened LinFrame
  import opened SubQueue
  import opened Adapter

  /** The task: its bus queue, its counter, the message it is trying to send, and the channel.
      The histories record every frame popped, every message received, and every step of the
      queue lock. */
  datatype Pipe = Pipe(queue: seq<Frame>, seqNo: nat, hand: Option<Message>, channel: seq<Message>,
                       listening: bool, running: bool,
                       ops: seq<Op>, popped: seq<Frame>, received: seq<Message>)

  const IDLE := Pipe([], 0, None, [], true, true, [], [], [])

  datatype Event =
    | Arrive(frame: Frame) // a push that passed the rate limiter
    | Fetch                // the task takes the next frame and numbers it
    | Forward              // the task hands its message over, or learns that nobody listens
    | Consume              // the consumer takes a message
    | Hang                 // the consumer drops its end
    | Finish               // the subscription is closed and drained

  function Numbered(f: Frame, n: nat): Message {
    ToMessage(f).(seqNo := n)
  }

  function Step(s: Pipe, policy: BackPressurePolicy, depth: nat, e: Event): Pipe {
    match e
    case Arrive(f) => s.(queue := QueueStep(policy, depth, s.queue, f).0, ops := s.ops + [Offer(f)])
    case Fetch =>
      if !s.running || s.hand.Some? || s.queue == [] then s
      else s.(queue := s.queue[1..], ops := s.ops + [Take], popped := s.popped + [s.queue[0]],
              hand := Some(Numbered(s.queue[0], s.seqNo)), seqNo := (s.seqNo + 1) % WORD)
    case Forward =>
      if s.hand.None? then s
      else if !s.listening then s.(hand := None, running := false)
      else if |s.channel| < depth then s.(channel := s.channel + [s.hand.value], hand := None)
      else s
    case Consume =>
      if !s.listening || s.channel == [] then s
      else s.(channel := s.channel[1..], received := s.received + [s.channel[0]])
    case Hang => s.(listening := false, channel := [])
    case Finish => if s.hand.None? && s.queue == [] then s.(running := false) else s
  }

  function Run(policy: BackPressurePolicy, depth: nat, events: seq<Event>): Pipe {
    if |events| == 0 then IDLE
    else Step(Run(policy, depth, events[..|events| - 1]), policy, depth, events[|events| - 1])
  }

  /** The task itself. Each method is one turn between two points where it may wait. */
  class Forwarder {
    const inner: SubInner
    const depth: nat
    var seqNo: nat
    var hand: Option<Message>
    var channel: seq<Message>
    var listening: bool
    var running: bool
    ghost var popped: seq<Frame>
    ghost var received: seq<Message>

    ghost function State(): Pipe
      reads this, inner
    {
      Pipe(inner.queue, seqNo, hand, channel, listening, running, inner.ops, popped, received)
    }

    ghost predicate Valid()
      reads this, inner
    {
      inner.Valid() && inner.capacity == depth > 0
    }

    /** The subscription asks the bus for the same depth as the channel gets. */
    constructor (opts: SubscriberOptions, now: nat)
      ensures Valid() && State() == IDLE && fresh(inner)
      ensures inner.policy == opts.backPressure && inner.rateLimit == opts.rateLimitPerSec
      ensures depth == if opts.channelDepth == 0 then 64 else opts.channelDepth
    {
      var d := opts.ChanDepth(64);
      var sub := new SubInner(SubscriberOptions(d, opts.backPressure, opts.rateLimitPerSec).ChanDepth(64),
                              opts.backPressure, opts.rateLimitPerSec, now);
      inner, depth := sub, if d > 1 then d else 1;
      seqNo, hand, channel, listening, running := 0, None, [], true, true;
      popped, received := [], [];
    }

    /** Take the next frame, if there is one, and number it. */
    method Fetch()
      requires Valid()
      modifies this`seqNo, this`hand, this`popped, inner
      ensures Valid()
      ensures State() == Step(old(State()), inner.policy, depth, Event.Fetch)
    {
      hide Replay, ToMessage;
      if running && hand.None? && |inner.queue| > 0 {
        var f := inner.Pop();
        var msg := ToMessage(f.value).(seqNo := seqNo);
        seqNo := (seqNo + 1) % WORD;
        hand := Some(msg);
        popped := popped + [f.value];
      }
    }

    /** Hand the message over when the channel has room; stop when nobody listens. */
    method Forward()
      requires Valid()
      modifies this`hand, this`channel, this`running
      ensures Valid()
      ensures State() == Step(old(State()), inner.policy, depth, Event.Forward)
    {
      if hand.Some? {
        if !listening {
          hand, running := None, false;
        } else if |channel| < depth {
          channel := channel + [hand.value];
          hand := None;
        }
      }
    }
  }

  // ---------------------------------------------------------------------------
  // What every run keeps
  // ---------------------------------------------------------------------------

  function InHand(s: Pipe): seq<Message> {
    if s.hand.Some? then [s.hand.value] else []
  }

  /** Everything the task took from the queue and did not lose, oldest first. */
  function Taken(s: Pipe): seq<Message> {
    s.received + s.channel + InHand(s)
  }

  /** The k-th message is the k-th popped frame with k as its number. */
  predicate InSequence(messages: seq<Message>, popped: seq<Frame>) {
    && |messages| <= |popped|
    && forall k | 0 <= k < |messages| :: messages[k] == Numbered(popped[k], k % WORD)
  }

  predicate OnQueue(s: Pipe, policy: BackPressurePolicy, depth: nat) {
    var h := Replay(policy, depth, s.ops);
    s.queue == h.queue && s.popped == PoppedOf(h.removed)
  }

  predicate Ordered(s: Pipe) {
    && s.seqNo == |s.popped| % WORD
    && InSequence(s.received, s.popped)
    && (s.listening ==> InSequence(Taken(s), s.popped) && |Taken(s)| == |s.popped|)
  }

  predicate Bounded(s: Pipe, policy: BackPressurePolicy, depth: nat) {
    |s.channel| <= depth && (policy != Block ==> |s.queue| <= depth)
  }

  lemma OnQueueStep(s: Pipe, policy: BackPressurePolicy, depth: nat, e: Event)
    requires OnQueue(s, policy, depth)
    ensures OnQueue(Step(s, policy, depth, e), policy, depth)
  {
    hide PoppedOf, EvictedOf, Replay, ToMessage;
    var h := Replay(policy, depth, s.ops);
    match e {
      case Arrive(f) =>
        ReplaySnoc(policy, depth, s.ops, SubQueue.Offer(f));
        if h.queue != [] {
          RemovedSnoc(h.removed, Evicted(h.queue[0]));
        }
        assert h.removed + [] == h.removed;
      case Fetch =>
        ReplaySnoc(policy, depth, s.ops, Take);
        if h.queue != [] {
          RemovedSnoc(h.removed, Popped(h.queue[0]));
        }
      case _ =>
    }
  }

  lemma InSequenceSnoc(messages: seq<Message>, popped: seq<Frame>, f: Frame)
    requires InSequence(messages, popped)
    ensures InSequence(messages, popped + [f])
    ensures |messages| == |popped| ==> InSequence(messages + [Numbered(f, |popped| % WORD)], popped + [f])
  {
    hide Numbered;
  }

  lemma FetchOrdered(s: Pipe, policy: BackPressurePolicy, depth: nat)
    requires Ordered(s)
    ensures Ordered(Step(s, policy, depth, Fetch))
  {
    hide Numbered;
    if s.queue != [] {
      InSequenceSnoc(s.received, s.popped, s.queue[0]);
      if s.listening {
        InSequenceSnoc(Taken(s), s.popped, s.queue[0]);
        assert Taken(s) + [] == Taken(s);
      }
    }
  }

  lemma ForwardOrdered(s: Pipe, policy: BackPressurePolicy, depth: nat)
    requires Ordered(s)
    ensures Ordered(Step(s, policy, depth, Forward))
  {
    hide Numbered, InSequence;
    if s.hand.Some? {
      assert s.received + (s.channel + [s.hand.value]) + [] == Taken(s);
    }
  }

  lemma ConsumeOrdered(s: Pipe, policy: BackPressurePolicy, depth: nat)
    requires Ordered(s)
    ensures Ordered(Step(s, policy, depth, Consume))
  {
    hide Numbered;
    if s.listening && s.channel != [] {
      var got := s.received + [s.channel[0]];
      assert s.channel == [s.channel[0]] + s.channel[1..];
      assert got + s.channel[1..] + InHand(s) == Taken(s);
      assert got == Taken(s)[..|s.received| + 1];
      assert InSequence(got, s.popped);
      hide InSequence;
    }
  }

  lemma OrderedStep(s: Pipe, policy: BackPressurePolicy, depth: nat, e: Event)
    requires Ordered(s)
    ensures Ordered(Step(s, policy, depth, e))
  {
    FetchOrdered(s, policy, depth);
    ForwardOrdered(s, policy, depth);
    ConsumeOrdered(s, policy, depth);
    hide InSequence, QueueStep, ToMessage;
  }

  lemma BoundedStep(s: Pipe, policy: BackPressurePolicy, depth: nat, e: Event)
    requires Bounded(s, policy, depth) && depth > 0
    ensures Bounded(Step(s, policy, depth, e), policy, depth)
  {
    hide Numbered;
  }

  lemma {:induction false} RunKeeps(policy: BackPressurePolicy, depth: nat, events: seq<Event>)
    requires depth > 0
    ensures var s := Run(policy, depth, events);
      OnQueue(s, policy, depth) && Ordered(s) && Bounded(s, policy, depth)
  {
    if |events| > 0 {
      hide Step, OnQueue, Ordered, Bounded;
      var s, e := Run(policy, depth, events[..|events| - 1]), events[|events| - 1];
      RunKeeps(policy, depth, events[..|events| - 1]);
      OnQueueStep(s, policy, depth, e);
      OrderedStep(s, policy, depth, e);
      BoundedStep(s, policy, depth, e);
    }
  }

  /** What the conversion to a message and back makes of a frame. */
  function Readable(f: Frame): Result<Frame, Error> {
    if f.id <= LIN_MAX_ID then Ok(f) else Err(InvalidFrame)
  }

  lemma NumberedReadsBack(f: Frame, n: nat)
    ensures Numbered(f, n).seqNo == n && FromMessage(Numbered(f, n)) == Readable(f)
  {
    hide FromMessage, ToMessage;
    MessageRoundTrip(f, n);
  }

  /** The k-th message the consumer receives carries the number k and reads back as the k-th
      frame popped from the bus queue. While the consumer listens, what it has received, what is
      in the channel and what is in the task's hand are together every popped frame, in order. */
  lemma DeliveredInOrder(policy: BackPressurePolicy, depth: nat, events: seq<Event>)
    requires depth > 0
    ensures var s := Run(policy, depth, events);
      && |s.received| <= |s.popped|
      && (forall k | 0 <= k < |s.received| ::
            s.received[k].seqNo == k % WORD && FromMessage(s.received[k]) == Readable(s.popped[k]))
      && (s.listening ==> InSequence(Taken(s), s.popped) && |Taken(s)| == |s.popped|)
  {
    hide Run, FromMessage, ToMessage, OnQueue, Readable, Numbered, Taken;
    RunKeeps(policy, depth, events);
    var s := Run(policy, depth, events);
    forall k | 0 <= k < |s.received|
      ensures s.received[k].seqNo == k % WORD && FromMessage(s.received[k]) == Readable(s.popped[k])
    {
      NumberedReadsBack(s.popped[k], k % WORD);
    }
  }

  /** The task ends only with nothing left to take and nothing in hand, or because nobody listens. */
  lemma EndsDrained(policy: BackPressurePolicy, depth: nat, events: seq<Event>, e: Event)
    requires Run(policy, depth, events).running && !Run(policy, depth, events + [e]).running
    ensures var s := Run(policy, depth, events);
      (s.queue == [] && s.hand == None) || (s.hand.Some? && !s.listening)
  {
    RunSnoc(policy, depth, events, e);
    hide Run, QueueStep, ToMessage;
  }

  /** Once the consumer has dropped its end the channel is gone, and it receives nothing more. */
  lemma {:induction false} NothingAfterHang(policy: BackPressurePolicy, depth: nat, events: seq<Event>,
                                            more: seq<Event>)
    requires !Run(policy, depth, events).listening
    ensures var s, t := Run(policy, depth, events), Run(policy, depth, events + more);
      !t.listening && t.channel == [] && t.received == s.received
  {
    hide Step;
    if |more| == 0 {
      assert events + more == events;
      ChannelGone(policy, depth, events);
    } else {
      var front, e := more[..|more| - 1], more[|more| - 1];
      NothingAfterHang(policy, depth, events, front);
      assert events + more == (events + front) + [e];
      RunSnoc(policy, depth, events + front, e);
      HungStep(Run(policy, depth, events + front), policy, depth, e);
    }
  }

  lemma HungStep(s: Pipe, policy: BackPressurePolicy, depth: nat, e: Event)
    ensures var t := Step(s, policy, depth, e);
      && (!s.listening && s.channel == [] ==> !t.listening && t.channel == [] && t.received == s.received)
      && (s.listening && !t.listening ==> t.channel == [])
  {
    hide QueueStep, ToMessage;
  }

  lemma {:induction false} ChannelGone(policy: BackPressurePolicy, depth: nat, events: seq<Event>)
    ensures !Run(policy, depth, events).listening ==> Run(policy, depth, events).channel == []
  {
    hide Step;
    if |events| > 0 {
      ChannelGone(policy, depth, events[..|events| - 1]);
      HungStep(Run(policy, depth, events[..|events| - 1]), policy, depth, events[|events| - 1]);
    }
  }

  /** Unless the policy is Block, no run ever holds more than twice the depth and one frames
      between the bus and the consumer. */
  lemma PipelineBound(policy: BackPressurePolicy, depth: nat, events: seq<Event>)
    requires depth > 0 && policy != Block
    ensures var s := Run(policy, depth, events); |s.queue| + |InHand(s)| + |s.channel| <= 2 * depth + 1
  {
    hide Run, OnQueue, Ordered;
    RunKeeps(policy, depth, events);
  }

  /** From the bus to the consumer: what arrives is, in order, part of what was offered to the
      queue; with DropNewest nothing accepted is skipped, and with Block nothing at all. */
  lemma EndToEnd(policy: BackPressurePolicy, depth: nat, events: seq<Event>)
    requires depth > 0
    ensures var s := Run(policy, depth, events); var accepted := Replay(policy, depth, s.ops).accepted;
      && InSequence(s.received, s.popped) && Subsequence(s.popped, Offered(s.ops))
      && (policy != DropOldest ==> InSequence(s.received, accepted))
      && (policy == Block ==> InSequence(s.received, Offered(s.ops)))
  {
    hide Run, Numbered, Subsequence, Offered, PoppedOf, EvictedOf, Frames, Replay;
    RunKeeps(policy, depth, events);
    var s := Run(policy, depth, events);
    QueueConserves(policy, depth, s.ops);
    PolicyGuarantees(policy, depth, s.ops);
    if policy != DropOldest {
      InSequencePrefix(s.received, s.popped, s.queue);
    }
  }

  lemma InSequencePrefix(messages: seq<Message>, popped: seq<Frame>, more: seq<Frame>)
    requires InSequence(messages, popped)
    ensures InSequence(messages, popped + more)
  {
    hide Numbered;
  }

  // ---------------------------------------------------------------------------
  // The bound is reached
  // ---------------------------------------------------------------------------

  lemma RunSnoc(policy: BackPressurePolicy, depth: nat, events: seq<Event>, e: Event)
    ensures Run(policy, depth, events + [e]) == Step(Run(policy, depth, events), policy, depth, e)
  {
    assert (events + [e])[..|events|] == events;
  }

  /** Arrivals that go straight through to the channel. */
  lemma {:induction false} FillChannel(policy: BackPressurePolicy, depth: nat, f: Frame, n: nat)
    returns (events: seq<Event>)
    requires n <= depth && depth > 0
    ensures var s := Run(policy, depth, events);
      s.queue == [] && s.hand == None && |s.channel| == n && s.listening && s.running
  {
    events := [];
    if n > 0 {
      events := FillChannel(policy, depth, f, n - 1);
      RunSnoc(policy, depth, events, Arrive(f));
      RunSnoc(policy, depth, events + [Arrive(f)], Fetch);
      RunSnoc(policy, depth, events + [Arrive(f)] + [Fetch], Forward);
      events := events + [Arrive(f)] + [Fetch] + [Forward];
    }
  }

  /** Arrivals that stay in the queue behind a task that cannot hand its message over. */
  lemma {:induction false} FillQueue(policy: BackPressurePolicy, depth: nat, f: Frame, n: nat)
    returns (events: seq<Event>)
    requires n <= depth && depth > 0
    ensures var s := Run(policy, depth, events);
      |s.queue| == n && s.hand.Some? && |s.channel| == depth && s.listening && s.running
  {
    if n == 0 {
      events := FillChannel(policy, depth, f, depth);
      RunSnoc(policy, depth, events, Arrive(f));
      RunSnoc(policy, depth, events + [Arrive(f)], Fetch);
      events := events + [Arrive(f)] + [Fetch];
    } else {
      events := FillQueue(policy, depth, f, n - 1);
      RunSnoc(policy, depth, events, Arrive(f));
      events := events + [Arrive(f)];
    }
  }

  /** The bound cannot be improved: with a consumer that does not read, some run reaches it. */
  lemma PipelineBoundTight(policy: BackPressurePolicy, depth: nat, f: Frame) returns (events: seq<Event>)
    requires depth > 0
    ensures var s := Run(policy, depth, events); |s.queue| + |InHand(s)| + |s.channel| == 2 * depth + 1
  {
    events := FillQueue(policy, depth, f, depth);
    hide Run;
  }
}
