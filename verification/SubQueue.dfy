/** The queue behind a subscription: a fixed-window rate limiter followed by a back-pressure
    policy. A push takes the rate lock first and the queue lock second, so other pushes and
    pops may come between the two; each half is one atomic step here. */
module SubQueue {
  import opened Wrappers
  import opened LinFrame

  datatype BackPressurePolicy = DropNewest | DropOldest | Block

  /** rateLimitPerSec == 0 means unlimited, channelDepth == 0 the default depth. */
  datatype SubscriberOptions =
    SubscriberOptions(channelDepth: nat, backPressure: BackPressurePolicy, rateLimitPerSec: nat)
  {
    function ChanDepth(default: nat): (d: nat)
      ensures default > 0 ==> d > 0
    {
      if channelDepth > 0 then channelDepth else default
    }
  }

  /** Clock ticks in one second: they are nanoseconds. */
  const SECOND := 1_000_000_000

  datatype Rate = Rate(windowStart: nat, count: nat)

  datatype Sub = Sub(capacity: nat, policy: BackPressurePolicy, rateLimit: nat, rate: Rate,
                     queue: seq<Frame>, closed: bool)

  function NewSub(capacity: nat, policy: BackPressurePolicy, rateLimit: nat, now: nat): Sub {
    Sub(capacity, policy, rateLimit, Rate(now, 0), [], false)
  }

  /** The clock never runs backwards; an earlier reading counts as no time passed. */
  function Elapsed(from: nat, to: nat): nat {
    if to >= from then to - from else 0
  }

  /** The step under the rate lock. */
  function RateStep(limit: nat, r: Rate, now: nat): (Rate, bool) {
    if limit == 0 then (r, true)
    else
      var w := if Elapsed(r.windowStart, now) >= SECOND then Rate(now, 0) else r;
      if w.count >= limit then (w, false) else (w.(count := w.count + 1), true)
  }

  /** The step under the queue lock. */
  function QueueStep(policy: BackPressurePolicy, capacity: nat, q: seq<Frame>, f: Frame): (seq<Frame>, bool) {
    match policy
    case DropNewest => if |q| >= capacity then (q, false) else (q + [f], true)
    case DropOldest => ((if |q| >= capacity && |q| > 0 then q[1..] else q) + [f], true)
    case Block => (q + [f], true)
  }

  function Pushed(s: Sub, f: Frame, now: nat): (Sub, bool) {
    var (rate, granted) := RateStep(s.rateLimit, s.rate, now);
    if !granted then (s.(rate := rate), false)
    else
      var (queue, accepted) := QueueStep(s.policy, s.capacity, s.queue, f);
      (s.(rate := rate, queue := queue), accepted)
  }

  /** The queue lock's history: pushes that passed the rate limiter, and pops. */
  datatype Op = Offer(frame: Frame) | Take

  class SubInner {
    const capacity: nat
    const policy: BackPressurePolicy
    const rateLimit: nat
    var queue: seq<Frame>
    var windowStart: nat
    var count: nat
    var closed: bool
    /** Every step the queue lock has seen. */
    ghost var ops: seq<Op>

    function State(): Sub
      reads this
    {
      Sub(capacity, policy, rateLimit, RateState(), queue, closed)
    }

    ghost predicate Valid()
      reads this
    {
      queue == Replay(policy, capacity, ops).queue
    }

    constructor (capacity: nat, policy: BackPressurePolicy, rateLimit: nat, now: nat)
      ensures Valid() && ops == []
      ensures State() == NewSub(capacity, policy, rateLimit, now)
    {
      this.capacity, this.policy, this.rateLimit := capacity, policy, rateLimit;
      queue, windowStart, count, closed := [], now, 0, false;
      ops := [];
    }

    function RateState(): Rate
      reads this
    {
      Rate(windowStart, count)
    }

    /** True when the frame was accepted. */
    method Push(frame: Frame, now: nat) returns (accepted: bool)
      requires Valid()
      modifies this
      ensures Valid() && closed == old(closed)
      ensures State() == Pushed(old(State()), frame, now).0
      ensures accepted == Pushed(old(State()), frame, now).1
      ensures ops == old(ops) + if RateStep(rateLimit, old(RateState()), now).1 then [Offer(frame)] else []
      ensures accepted <==>
        && (rateLimit == 0 || now >= old(windowStart) + SECOND || old(count) < rateLimit)
        && (policy == DropNewest ==> |old(queue)| < capacity)
    {
      hide RateStep, Replay;
      var granted := TakeToken(now);
      if !granted {
        return false;
      }
      accepted := Enqueue(frame);
    }

    /** The half of a push under the rate lock. */
    method TakeToken(now: nat) returns (granted: bool)
      modifies this`windowStart, this`count
      ensures (RateState(), granted) == RateStep(rateLimit, old(RateState()), now)
      ensures rateLimit == 0 ==> granted && windowStart == old(windowStart) && count == old(count)
      ensures rateLimit > 0 ==>
        var opens := now >= old(windowStart) + 1_000_000_000;
        && (granted <==> opens || old(count) < rateLimit)
        && windowStart == (if opens then now else old(windowStart))
        && count == (if opens then 0 else old(count)) + if granted then 1 else 0
    {
      if rateLimit > 0 {
        if Elapsed(windowStart, now) >= SECOND {
          windowStart := now;
          count := 0;
        }
        if count >= rateLimit {
          return false;
        }
        count := count + 1;
      }
      granted := true;
    }

    /** The half of a push under the queue lock. */
    method Enqueue(frame: Frame) returns (accepted: bool)
      requires Valid()
      modifies this`queue, this`ops
      ensures Valid() && ops == old(ops) + [Offer(frame)]
      ensures (queue, accepted) == QueueStep(policy, capacity, old(queue), frame)
    {
      ReplaySnoc(policy, capacity, ops, Offer(frame));
      ops := ops + [Offer(frame)];
      hide Replay;
      match policy
      case DropNewest =>
        if |queue| >= capacity {
          return false;
        }
        queue := queue + [frame];
        accepted := true;
      case DropOldest =>
        if |queue| >= capacity && |queue| > 0 {
          queue := queue[1..];
        }
        queue := queue + [frame];
        accepted := true;
      case Block =>
        queue := queue + [frame];
        accepted := true;
    }

    method Pop() returns (r: Option<Frame>)
      requires Valid()
      modifies this`queue, this`ops
      ensures Valid() && ops == old(ops) + [Take]
      ensures r == if old(queue) == [] then None else Some(old(queue)[0])
      ensures queue == if old(queue) == [] then [] else old(queue)[1..]
    {
      ReplaySnoc(policy, capacity, ops, Take);
      ops := ops + [Take];
      if |queue| == 0 {
        r := None;
      } else {
        r := Some(queue[0]);
        queue := queue[1..];
      }
    }

    method Close()
      modifies this`closed
      ensures closed
    {
      closed := true;
    }
  }

  // ---------------------------------------------------------------------------
  // What a run of queue steps keeps
  // ---------------------------------------------------------------------------

  datatype Removal = Popped(frame: Frame) | Evicted(frame: Frame)

  /** The queue with everything that ever entered it and everything that ever left it, in order. */
  datatype History = History(queue: seq<Frame>, accepted: seq<Frame>, removed: seq<Removal>)

  function Apply(policy: BackPressurePolicy, capacity: nat, h: History, op: Op): History {
    match op
    case Offer(f) =>
      var (queue, accepted) := QueueStep(policy, capacity, h.queue, f);
      var evicted := if accepted && |queue| == |h.queue| then [Evicted(h.queue[0])] else [];
      History(queue, if accepted then h.accepted + [f] else h.accepted, h.removed + evicted)
    case Take =>
      if h.queue == [] then h
      else History(h.queue[1..], h.accepted, h.removed + [Popped(h.queue[0])])
  }

  function Replay(policy: BackPressurePolicy, capacity: nat, ops: seq<Op>): History {
    if |ops| == 0 then History([], [], [])
    else Apply(policy, capacity, Replay(policy, capacity, ops[..|ops| - 1]), ops[|ops| - 1])
  }

  lemma ReplaySnoc(policy: BackPressurePolicy, capacity: nat, ops: seq<Op>, op: Op)
    ensures Replay(policy, capacity, ops + [op]) == Apply(policy, capacity, Replay(policy, capacity, ops), op)
  {
    assert (ops + [op])[..|ops|] == ops;
  }

  function Frames(removed: seq<Removal>): (fs: seq<Frame>)
    ensures |fs| == |removed|
  {
    if |removed| == 0 then [] else Frames(removed[..|removed| - 1]) + [removed[|removed| - 1].frame]
  }

  function PoppedOf(removed: seq<Removal>): seq<Frame> {
    if |removed| == 0 then []
    else PoppedOf(removed[..|removed| - 1]) + match removed[|removed| - 1] case Popped(f) => [f] case Evicted(_) => []
  }

  function EvictedOf(removed: seq<Removal>): seq<Frame> {
    if |removed| == 0 then []
    else EvictedOf(removed[..|removed| - 1]) + match removed[|removed| - 1] case Popped(_) => [] case Evicted(f) => [f]
  }

  function Offered(ops: seq<Op>): seq<Frame> {
    if |ops| == 0 then []
    else Offered(ops[..|ops| - 1]) + match ops[|ops| - 1] case Offer(f) => [f] case Take => []
  }

  /** xs is obtained from ys by leaving frames out. */
  predicate Subsequence(xs: seq<Frame>, ys: seq<Frame>) {
    |xs| == 0 || (|ys| > 0 &&
      (Subsequence(xs, ys[..|ys| - 1])
       || (xs[|xs| - 1] == ys[|ys| - 1] && Subsequence(xs[..|xs| - 1], ys[..|ys| - 1]))))
  }

  lemma {:induction false} SubsequenceExtend(xs: seq<Frame>, ys: seq<Frame>, zs: seq<Frame>)
    requires Subsequence(xs, ys)
    ensures Subsequence(xs, ys + zs)
  {
    if |zs| == 0 {
      assert ys + zs == ys;
    } else {
      SubsequenceExtend(xs, ys, zs[..|zs| - 1]);
      assert (ys + zs)[..|ys + zs| - 1] == ys + zs[..|zs| - 1];
    }
  }

  lemma SubsequenceSnoc(xs: seq<Frame>, ys: seq<Frame>, f: Frame)
    requires Subsequence(xs, ys)
    ensures Subsequence(xs + [f], ys + [f])
  {
    assert (xs + [f])[..|xs|] == xs && (ys + [f])[..|ys|] == ys;
  }

  lemma {:induction false} SubsequenceTransitive(xs: seq<Frame>, ys: seq<Frame>, zs: seq<Frame>)
    requires Subsequence(xs, ys) && Subsequence(ys, zs)
    ensures Subsequence(xs, zs)
    decreases |zs|
  {
    if |xs| > 0 {
      var zs' := zs[..|zs| - 1];
      if Subsequence(ys, zs') {
        SubsequenceTransitive(xs, ys, zs');
      } else if Subsequence(xs, ys[..|ys| - 1]) {
        SubsequenceTransitive(xs, ys[..|ys| - 1], zs');
      } else {
        SubsequenceTransitive(xs[..|xs| - 1], ys[..|ys| - 1], zs');
      }
    }
  }

  lemma {:induction false} PoppedIsSubsequence(removed: seq<Removal>)
    ensures Subsequence(PoppedOf(removed), Frames(removed))
    ensures |PoppedOf(removed)| + |EvictedOf(removed)| == |removed|
  {
    if |removed| > 0 {
      var front, r := removed[..|removed| - 1], removed[|removed| - 1];
      PoppedIsSubsequence(front);
      if r.Popped? {
        SubsequenceSnoc(PoppedOf(front), Frames(front), r.frame);
      } else {
        SubsequenceExtend(PoppedOf(front), Frames(front), [r.frame]);
        assert PoppedOf(removed) == PoppedOf(front);
      }
    }
  }

  lemma FramesSnoc(removed: seq<Removal>, r: Removal)
    ensures Frames(removed + [r]) == Frames(removed) + [r.frame]
  {
    assert (removed + [r])[..|removed|] == removed;
  }

  lemma ApplyConserves(policy: BackPressurePolicy, capacity: nat, h: History, op: Op)
    requires Frames(h.removed) + h.queue == h.accepted
    ensures var g := Apply(policy, capacity, h, op); Frames(g.removed) + g.queue == g.accepted
  {
    hide Frames;
    var g := Apply(policy, capacity, h, op);
    if g.removed != h.removed {
      var r := g.removed[|h.removed|];
      assert g.removed == h.removed + [r];
      FramesSnoc(h.removed, r);
      assert h.queue == [r.frame] + h.queue[1..];
    }
  }

  /** Nothing is lost or reordered unseen: what left plus what is queued is what entered, the
      queue is the newest part of it, and both accepted and popped frames keep the push order. */
  lemma {:induction false} QueueConserves(policy: BackPressurePolicy, capacity: nat, ops: seq<Op>)
    ensures var h := Replay(policy, capacity, ops);
      && Frames(h.removed) + h.queue == h.accepted
      && |h.accepted| == |PoppedOf(h.removed)| + |EvictedOf(h.removed)| + |h.queue|
      && Subsequence(h.accepted, Offered(ops))
      && Subsequence(PoppedOf(h.removed), Offered(ops))
  {
    var h := Replay(policy, capacity, ops);
    if |ops| > 0 {
      var front, op := ops[..|ops| - 1], ops[|ops| - 1];
      QueueConserves(policy, capacity, front);
      var g := Replay(policy, capacity, front);
      ApplyConserves(policy, capacity, g, op);
      if op.Offer? && h.accepted != g.accepted {
        SubsequenceSnoc(g.accepted, Offered(front), op.frame);
      } else {
        SubsequenceExtend(g.accepted, Offered(front), Offered(ops)[|Offered(front)|..]);
        assert Offered(front) + Offered(ops)[|Offered(front)|..] == Offered(ops);
      }
    }
    PoppedIsSubsequence(h.removed);
    SubsequenceExtend(PoppedOf(h.removed), Frames(h.removed), h.queue);
    SubsequenceTransitive(PoppedOf(h.removed), h.accepted, Offered(ops));
  }

  predicate PolicyInv(policy: BackPressurePolicy, capacity: nat, h: History, offered: seq<Frame>) {
    && (policy != DropNewest ==> h.accepted == offered)
    && (policy != DropOldest ==> EvictedOf(h.removed) == [] && PoppedOf(h.removed) + h.queue == h.accepted)
    && (policy != Block && capacity > 0 ==> |h.queue| <= capacity)
  }

  lemma RemovedSnoc(removed: seq<Removal>, r: Removal)
    ensures PoppedOf(removed + [r]) == PoppedOf(removed) + if r.Popped? then [r.frame] else []
    ensures EvictedOf(removed + [r]) == EvictedOf(removed) + if r.Popped? then [] else [r.frame]
  {
    assert (removed + [r])[..|removed|] == removed;
  }

  lemma PolicyStep(policy: BackPressurePolicy, capacity: nat, h: History, offered: seq<Frame>, op: Op)
    requires PolicyInv(policy, capacity, h, offered)
    ensures PolicyInv(policy, capacity, Apply(policy, capacity, h, op),
                      offered + match op case Offer(f) => [f] case Take => [])
  {
    hide PoppedOf, EvictedOf;
    if op.Take? {
      if h.queue != [] {
        RemovedSnoc(h.removed, Popped(h.queue[0]));
        assert h.queue == [h.queue[0]] + h.queue[1..];
      }
    } else {
      assert h.removed + [] == h.removed;
    }
  }

  /** What each policy adds: who refuses, who evicts, and who stays within the capacity. */
  lemma {:induction false} PolicyGuarantees(policy: BackPressurePolicy, capacity: nat, ops: seq<Op>)
    ensures var h := Replay(policy, capacity, ops);
      && (policy != DropNewest ==> h.accepted == Offered(ops))
      && (policy != DropOldest ==> EvictedOf(h.removed) == [] && PoppedOf(h.removed) + h.queue == h.accepted)
      && (policy != Block && capacity > 0 ==> |h.queue| <= capacity)
  {
    hide Apply;
    if |ops| > 0 {
      var front, op := ops[..|ops| - 1], ops[|ops| - 1];
      PolicyGuarantees(policy, capacity, front);
      PolicyStep(policy, capacity, Replay(policy, capacity, front), Offered(front), op);
    }
  }

  function Offers(frames: seq<Frame>): (ops: seq<Op>)
    ensures |ops| == |frames|
  {
    seq(|frames|, i requires 0 <= i < |frames| => Offer(frames[i]))
  }

  /** What is left of the frames without a reader: DropNewest keeps the oldest, DropOldest the
      newest, Block all. */
  function Kept(policy: BackPressurePolicy, capacity: nat, frames: seq<Frame>): seq<Frame> {
    var n := |frames|;
    match policy
    case DropNewest => frames[..if n < capacity then n else capacity]
    case DropOldest => frames[if n < capacity then 0 else n - capacity..]
    case Block => frames
  }

  lemma KeptStep(policy: BackPressurePolicy, capacity: nat, frames: seq<Frame>, f: Frame)
    requires capacity > 0
    ensures QueueStep(policy, capacity, Kept(policy, capacity, frames), f).0 == Kept(policy, capacity, frames + [f])
  {}

  lemma {:induction false} UndrainedQueue(policy: BackPressurePolicy, capacity: nat, frames: seq<Frame>)
    requires capacity > 0
    ensures Replay(policy, capacity, Offers(frames)).queue == Kept(policy, capacity, frames)
  {
    if |frames| > 0 {
      hide QueueStep, Kept;
      var front, f := frames[..|frames| - 1], frames[|frames| - 1];
      UndrainedQueue(policy, capacity, front);
      assert frames == front + [f];
      assert Offers(frames) == Offers(front) + [Offer(f)];
      hide Offers, Replay;
      ReplaySnoc(policy, capacity, Offers(front), Offer(f));
      KeptStep(policy, capacity, front, f);
    }
  }

  // ---------------------------------------------------------------------------
  // The rate limiter
  // ---------------------------------------------------------------------------

  predicate Monotone(times: seq<nat>) {
    forall i, j | 0 <= i <= j < |times| :: times[i] <= times[j]
  }

  /** The limiter's state after a sequence of attempts, and the times at which it let one pass. */
  function Limit(limit: nat, start: nat, times: seq<nat>): (Rate, seq<nat>) {
    if |times| == 0 then (Rate(start, 0), [])
    else
      var (r, granted) := Limit(limit, start, times[..|times| - 1]);
      var now := times[|times| - 1];
      var (r', ok) := RateStep(limit, r, now);
      (r', if ok then granted + [now] else granted)
  }

  /** How many of the times lie in the closed span. */
  function CountIn(times: seq<nat>, from: nat, to: nat): nat {
    if |times| == 0 then 0
    else CountIn(times[..|times| - 1], from, to) + if from <= times[|times| - 1] <= to then 1 else 0
  }

  /** Whole seconds, rounded up, between two clock readings. */
  function Windows(from: nat, to: nat): nat
    requires from <= to
  {
    (to - from + SECOND - 1) / SECOND
  }

  lemma MoreWindows(from: nat, mid: nat, to: nat)
    requires from <= mid && to - mid >= SECOND
    ensures Windows(from, to) >= Windows(from, mid) + 1
  {}

  /** Passes not before t are paid for by the windows opened since, at most limit each. */
  ghost predicate Paid(limit: nat, r: Rate, granted: seq<nat>, t: nat, n: nat) {
    if t <= r.windowStart then CountIn(granted, t, n) <= Windows(t, r.windowStart) * limit + r.count
    else CountIn(granted, t, n) <= r.count
  }

  lemma {:induction false} NoneAfter(granted: seq<nat>, t: nat, n: nat)
    requires forall g | g in granted :: g < t
    ensures CountIn(granted, t, n) == 0
  {
    if |granted| > 0 {
      var m := |granted| - 1;
      assert granted[m] in granted;
      forall g | g in granted[..m] ensures g < t { assert g in granted; }
      NoneAfter(granted[..m], t, n);
    }
  }

  lemma CountSnoc(granted: seq<nat>, g: nat, t: nat, n: nat)
    ensures CountIn(granted + [g], t, n) == CountIn(granted, t, n) + if t <= g <= n then 1 else 0
  {
    assert (granted + [g])[..|granted|] == granted;
  }

  lemma ProductGrows(a: nat, b: nat, limit: nat)
    requires a <= b
    ensures a * limit <= b * limit
  {}

  lemma OpenWindow(limit: nat, r: Rate, granted: seq<nat>, now: nat, t: nat, n: nat)
    requires r.count <= limit && r.windowStart <= now && now - r.windowStart >= SECOND
    requires forall g | g in granted :: g < r.windowStart + SECOND
    requires Paid(limit, r, granted, t, n)
    ensures Paid(limit, Rate(now, 0), granted, t, n)
  {
    if t >= now {
      NoneAfter(granted, t, n);
    } else if t <= r.windowStart {
      MoreWindows(t, r.windowStart, now);
      ProductGrows(Windows(t, r.windowStart) + 1, Windows(t, now), limit);
    } else {
      ProductGrows(1, Windows(t, now), limit);
    }
  }

  lemma MonotoneFront(start: nat, times: seq<nat>)
    requires |times| > 0 && Monotone([start] + times)
    ensures Monotone([start] + times[..|times| - 1])
    ensures ([start] + times[..|times| - 1])[|times| - 1] <= times[|times| - 1]
  {
    var all := [start] + times;
    assert [start] + times[..|times| - 1] == all[..|times|];
    assert all[|times|] == times[|times| - 1];
  }

  /** What the limiter keeps, at the time now of its last attempt. */
  ghost predicate LimitInv(limit: nat, r: Rate, granted: seq<nat>, now: nat, t: nat, n: nat) {
    && r.count <= limit
    && r.windowStart <= now
    && (forall g | g in granted :: g < r.windowStart + SECOND)
    && Paid(limit, r, granted, t, n)
  }

  lemma LimitStep(limit: nat, r: Rate, granted: seq<nat>, before: nat, now: nat, t: nat, n: nat)
    requires limit > 0 && before <= now
    requires LimitInv(limit, r, granted, before, t, n)
    ensures var (r', ok) := RateStep(limit, r, now);
      LimitInv(limit, r', if ok then granted + [now] else granted, now, t, n)
  {
    hide Windows;
    if Elapsed(r.windowStart, now) >= SECOND {
      OpenWindow(limit, r, granted, now, t, n);
    }
    CountSnoc(granted, now, t, n);
  }

  lemma {:induction false} LimitPays(limit: nat, start: nat, times: seq<nat>, t: nat, n: nat)
    requires limit > 0 && Monotone([start] + times)
    ensures LimitInv(limit, Limit(limit, start, times).0, Limit(limit, start, times).1,
                     ([start] + times)[|times|], t, n)
  {
    hide Paid, Windows, RateStep;
    if |times| > 0 {
      var front, now := times[..|times| - 1], times[|times| - 1];
      MonotoneFront(start, times);
      LimitPays(limit, start, front, t, n);
      var (r, granted) := Limit(limit, start, front);
      LimitStep(limit, r, granted, ([start] + front)[|front|], now, t, n);
    } else {
      NothingPaid(limit, start, t, n);
    }
  }

  lemma NothingPaid(limit: nat, start: nat, t: nat, n: nat)
    ensures Paid(limit, Rate(start, 0), [], t, n)
  {}

  lemma PaidSpan(limit: nat, r: Rate, granted: seq<nat>, t: nat, k: nat)
    requires Paid(limit, r, granted, t, t + k * SECOND) && r.count <= limit && r.windowStart <= t + k * SECOND
    ensures CountIn(granted, t, t + k * SECOND) <= (k + 1) * limit
  {
    hide CountIn;
    if t <= r.windowStart {
      SpanWindows(t, r.windowStart, k);
      ProductGrows(Windows(t, r.windowStart), k, limit);
    }
    ProductGrows(0, k, limit);
    assert (k + 1) * limit == k * limit + limit;
  }

  lemma SpanWindows(t: nat, w: nat, k: nat)
    requires t <= w <= t + k * SECOND
    ensures Windows(t, w) <= k
  {}

  /** With a clock that never runs backwards, any closed span of k whole seconds sees at most
      (k + 1) * limit pushes past the limiter. */
  lemma {:induction false} RateBound(limit: nat, start: nat, times: seq<nat>, t: nat, k: nat)
    requires limit > 0 && Monotone([start] + times)
    ensures CountIn(Limit(limit, start, times).1, t, t + k * SECOND) <= (k + 1) * limit
  {
    hide Paid, RateStep;
    var n := t + k * SECOND;
    if |times| > 0 {
      var front, now := times[..|times| - 1], times[|times| - 1];
      MonotoneFront(start, times);
      RateBound(limit, start, front, t, k);
      var (r, granted) := Limit(limit, start, times);
      if now <= n {
        LimitPays(limit, start, times, t, n);
        PaidSpan(limit, r, granted, t, k);
      } else {
        CountSnoc(Limit(limit, start, front).1, now, t, n);
      }
    } else {
      ProductGrows(0, k + 1, limit);
    }
  }

  /** The bound is reached: limit pushes on each of k + 1 ticks one second apart all pass. */
  lemma RateBoundTight(limit: nat, start: nat, k: nat) returns (times: seq<nat>)
    requires limit > 0
    ensures Monotone([start] + times)
    ensures CountIn(Limit(limit, start, times).1, start, start + k * SECOND) == (k + 1) * limit
  {
    times := Bursts(limit, start, k);
    hide Limit, Monotone;
    AllInside(times, start, start + k * SECOND);
  }

  ghost predicate Bursted(limit: nat, start: nat, k: nat, times: seq<nat>) {
    && Monotone([start] + times) && |times| == (k + 1) * limit
    && (forall x | x in times :: start <= x <= start + k * SECOND)
    && Limit(limit, start, times) == (Rate(start + k * SECOND, limit), times)
  }

  lemma FirstBurst(limit: nat, start: nat) returns (times: seq<nat>)
    requires limit > 0
    ensures Bursted(limit, start, 0, times)
  {
    hide Limit;
    times := seq(limit, _ => start);
    assert [] + times == times;
    LimitOfNothing(limit, start);
    BurstPasses(limit, start, [], start, limit);
    MonotoneBurst(start, [], start, limit);
    assert 1 * limit == limit;
  }

  lemma NextBurst(limit: nat, start: nat, k: nat, before: seq<nat>) returns (times: seq<nat>)
    requires limit > 0 && Bursted(limit, start, k, before)
    ensures Bursted(limit, start, k + 1, times)
  {
    hide Limit, Monotone;
    var t := start + (k + 1) * SECOND;
    times := before + seq(limit, _ => t);
    OneMore(k + 1, limit);
    BurstPasses(limit, start, before, t, limit);
    MonotoneBurst(start, before, t, limit);
  }

  lemma OneMore(k: nat, n: nat)
    ensures (k + 1) * n == k * n + n
  {}

  /** k + 1 bursts of limit attempts, one second apart. */
  lemma {:induction false} Bursts(limit: nat, start: nat, k: nat) returns (times: seq<nat>)
    requires limit > 0
    ensures Bursted(limit, start, k, times)
  {
    hide Bursted;
    if k == 0 {
      times := FirstBurst(limit, start);
    } else {
      times := Bursts(limit, start, k - 1);
      times := NextBurst(limit, start, k - 1, times);
    }
  }

  lemma MonotoneBurst(start: nat, before: seq<nat>, t: nat, n: nat)
    requires Monotone([start] + before) && start <= t && forall x | x in before :: x <= t
    ensures Monotone([start] + (before + seq(n, _ => t)))
  {
    var x, y := [start] + before, [start] + (before + seq(n, _ => t));
    forall i, j | 0 <= i <= j < |y| ensures y[i] <= y[j] {
      assert i < |x| ==> y[i] == x[i] && x[i] in x;
      assert j < |x| ==> y[j] == x[j];
    }
  }

  lemma LimitOfNothing(limit: nat, start: nat)
    ensures Limit(limit, start, []) == (Rate(start, 0), [])
  {}

  lemma {:induction false} BurstPasses(limit: nat, start: nat, times: seq<nat>, t: nat, j: nat)
    requires 0 < j <= limit
    requires var r := Limit(limit, start, times).0;
      r == Rate(t, 0) || (r.windowStart <= t && t - r.windowStart >= SECOND)
    ensures Limit(limit, start, times + seq(j, _ => t)) == (Rate(t, j), Limit(limit, start, times).1 + seq(j, _ => t))
  {
    hide Limit;
    var front := times + seq(j - 1, _ => t);
    assert times + seq(j, _ => t) == front + [t];
    assert seq(j, _ => t) == seq(j - 1, _ => t) + [t];
    LimitSnoc(limit, start, front, t);
    if j > 1 {
      BurstPasses(limit, start, times, t, j - 1);
    } else {
      assert front == times;
    }
    var granted := Limit(limit, start, times).1;
    assert granted + seq(j, _ => t) == granted + seq(j - 1, _ => t) + [t];
    assert j == 1 ==> granted + seq(j - 1, _ => t) == granted;
  }

  lemma {:induction false} AllInside(times: seq<nat>, from: nat, to: nat)
    requires forall x | x in times :: from <= x <= to
    ensures CountIn(times, from, to) == |times|
  {
    if |times| > 0 {
      var front := times[..|times| - 1];
      forall x | x in front ensures from <= x <= to { assert x in times; }
      AllInside(front, from, to);
      assert times[|times| - 1] in times;
    }
  }

  // ---------------------------------------------------------------------------
  // Which pushes the limiter lets through
  // ---------------------------------------------------------------------------

  /** When the current window was opened: at the last attempt that came a second or more after
      the opening before it, or at the subscription. */
  function Opening(start: nat, times: seq<nat>): nat {
    if |times| == 0 then start
    else
      var w, now := Opening(start, times[..|times| - 1]), times[|times| - 1];
      if now >= w + SECOND then now else w
  }

  /** The limiter's state after a run: it counts what it granted since the window was opened. */
  predicate Counts(limit: nat, r: Rate, granted: seq<nat>, w: nat, n: nat) {
    && r.windowStart == w <= n && r.count == CountIn(granted, w, n) <= limit
    && (forall g | g in granted :: g < w + SECOND && g <= n)
  }

  lemma {:induction false} NoneIn(times: seq<nat>, from: nat, to: nat)
    requires forall x | x in times :: x < from
    ensures CountIn(times, from, to) == 0
  {
    if |times| > 0 {
      var front := times[..|times| - 1];
      forall x | x in front ensures x < from { assert x in times; }
      assert times[|times| - 1] in times;
      NoneIn(front, from, to);
    }
  }

  lemma CountsStep(limit: nat, r: Rate, granted: seq<nat>, w: nat, now: nat, n: nat)
    requires limit > 0 && w <= now <= n && Counts(limit, r, granted, w, n)
    ensures var (r', ok) := RateStep(limit, r, now); var opens := now >= w + SECOND;
      && ok == (opens || CountIn(granted, w, n) < limit)
      && Counts(limit, r', if ok then granted + [now] else granted, if opens then now else w, n)
  {
    hide CountIn;
    if now >= w + SECOND {
      NoneIn(granted, now, n);
      CountSnoc(granted, now, now, n);
    } else {
      CountSnoc(granted, now, w, n);
    }
  }

  lemma {:induction false} LimitCounts(limit: nat, start: nat, times: seq<nat>, n: nat)
    requires limit > 0 && Monotone([start] + times) && ([start] + times)[|times|] <= n
    ensures var (r, granted) := Limit(limit, start, times); Counts(limit, r, granted, Opening(start, times), n)
    ensures start <= Opening(start, times) <= ([start] + times)[|times|]
  {
    hide Counts, RateStep;
    if |times| == 0 {
      NothingCounted(limit, start, n);
    } else {
      var front, now := times[..|times| - 1], times[|times| - 1];
      MonotoneFront(start, times);
      LimitCounts(limit, start, front, n);
      var (r, granted) := Limit(limit, start, front);
      CountsStep(limit, r, granted, Opening(start, front), now, n);
    }
  }

  lemma NothingCounted(limit: nat, start: nat, n: nat)
    requires start <= n
    ensures Counts(limit, Rate(start, 0), [], start, n)
  {}

  /** An attempt passes exactly when there is no limit, when it opens a window, or when fewer than
      the limit have passed since the current window was opened. */
  predicate Passes(limit: nat, start: nat, times: seq<nat>, now: nat) {
    var w := Opening(start, times);
    limit == 0 || now >= w + SECOND || CountIn(Limit(limit, start, times).1, w, now) < limit
  }

  lemma GrantedExactly(limit: nat, start: nat, times: seq<nat>, now: nat)
    requires Monotone([start] + (times + [now]))
    ensures var granted := Limit(limit, start, times).1;
      Limit(limit, start, times + [now]).1 == if Passes(limit, start, times, now) then granted + [now] else granted
  {
    LimitSnoc(limit, start, times, now);
    var (r, granted) := Limit(limit, start, times);
    if limit > 0 {
      LastAttempt(start, times, now);
      LimitCounts(limit, start, times, now);
      CountsStep(limit, r, granted, Opening(start, times), now, now);
    } else {
      assert RateStep(limit, r, now).1;
    }
  }

  lemma LastAttempt(start: nat, times: seq<nat>, now: nat)
    requires Monotone([start] + (times + [now]))
    ensures Monotone([start] + times) && ([start] + times)[|times|] <= now
  {
    var x, y := [start] + times, [start] + (times + [now]);
    assert forall i | 0 <= i < |x| :: x[i] == y[i];
    assert y[|times|] <= y[|times| + 1] == now;
  }

  lemma {:induction false} CountShrinks(times: seq<nat>, from: nat, later: nat, to: nat)
    requires from <= later
    ensures CountIn(times, later, to) <= CountIn(times, from, to)
  {
    if |times| > 0 {
      CountShrinks(times[..|times| - 1], from, later, to);
    }
  }

  /** So a push passes whenever fewer than the limit have passed in the second that ends with it. */
  lemma QuietPushPasses(limit: nat, start: nat, times: seq<nat>, now: nat)
    requires limit > 0 && Monotone([start] + (times + [now]))
    requires CountIn(Limit(limit, start, times).1, if now < SECOND then 0 else now - SECOND + 1, now) < limit
    ensures Limit(limit, start, times + [now]).1 == Limit(limit, start, times).1 + [now]
  {
    hide CountIn, Limit, Monotone;
    var w, from := Opening(start, times), if now < SECOND then 0 else now - SECOND + 1;
    GrantedExactly(limit, start, times, now);
    if now < w + SECOND {
      CountShrinks(Limit(limit, start, times).1, from, w, now);
    }
  }

  // ---------------------------------------------------------------------------
  // Limiter and queue together
  // ---------------------------------------------------------------------------

  datatype Call = Push(frame: Frame, now: nat) | Pop

  /** The subscription after a sequence of calls, and when a frame was accepted. */
  function Calls(s: Sub, calls: seq<Call>): (Sub, seq<nat>) {
    if |calls| == 0 then (s, [])
    else
      var (mid, times) := Calls(s, calls[..|calls| - 1]);
      match calls[|calls| - 1]
      case Push(f, now) =>
        var (next, ok) := Pushed(mid, f, now);
        (next, if ok then times + [now] else times)
      case Pop => (if mid.queue == [] then mid else mid.(queue := mid.queue[1..]), times)
  }

  function PushTimes(calls: seq<Call>): seq<nat> {
    if |calls| == 0 then []
    else PushTimes(calls[..|calls| - 1]) + match calls[|calls| - 1] case Push(_, now) => [now] case Pop => []
  }

  lemma LimitSnoc(limit: nat, start: nat, times: seq<nat>, now: nat)
    ensures var (r, granted) := Limit(limit, start, times); var (r', ok) := RateStep(limit, r, now);
      Limit(limit, start, times + [now]) == (r', if ok then granted + [now] else granted)
  {
    assert (times + [now])[..|times|] == times;
  }

  lemma {:induction false} AcceptedWithinLimit(s: Sub, calls: seq<Call>, from: nat, to: nat)
    requires s.rate.count == 0
    ensures var (next, times) := Calls(s, calls);
      var (r, granted) := Limit(s.rateLimit, s.rate.windowStart, PushTimes(calls));
      && next.rateLimit == s.rateLimit && next.rate == r
      && CountIn(times, from, to) <= CountIn(granted, from, to)
  {
    hide RateStep, QueueStep;
    if |calls| > 0 {
      var front, c := calls[..|calls| - 1], calls[|calls| - 1];
      AcceptedWithinLimit(s, front, from, to);
      if c.Push? {
        LimitSnoc(s.rateLimit, s.rate.windowStart, PushTimes(front), c.now);
        CountSnoc(Calls(s, front).1, c.now, from, to);
        CountSnoc(Limit(s.rateLimit, s.rate.windowStart, PushTimes(front)).1, c.now, from, to);
      } else {
        assert PushTimes(calls) == PushTimes(front);
      }
    }
  }

  /** A subscription accepts at most (k + 1) * rateLimit frames in any closed span of k seconds,
      whatever its policy, its capacity and its reader do. */
  lemma AcceptanceRate(capacity: nat, policy: BackPressurePolicy, limit: nat, start: nat, calls: seq<Call>,
    t: nat, k: nat)
    requires limit > 0 && Monotone([start] + PushTimes(calls))
    ensures CountIn(Calls(NewSub(capacity, policy, limit, start), calls).1, t, t + k * SECOND) <= (k + 1) * limit
  {
    AcceptedWithinLimit(NewSub(capacity, policy, limit, start), calls, t, t + k * SECOND);
    RateBound(limit, start, PushTimes(calls), t, k);
  }

  lemma PushTimesSnoc(calls: seq<Call>, f: Frame, now: nat)
    ensures PushTimes(calls + [Call.Push(f, now)]) == PushTimes(calls) + [now]
  {
    assert (calls + [Call.Push(f, now)])[..|calls|] == calls;
  }

  /** The subscription's limiter is the limiter run on its push times. */
  lemma CallsLimit(s: Sub, calls: seq<Call>)
    requires s.rate.count == 0
    ensures var next := Calls(s, calls).0;
      next.rateLimit == s.rateLimit && next.rate == Limit(s.rateLimit, s.rate.windowStart, PushTimes(calls)).0
  {
    AcceptedWithinLimit(s, calls, 0, 0);
  }

  lemma {:induction false} CallsKeep(s: Sub, calls: seq<Call>)
    ensures var next := Calls(s, calls).0; next.policy == s.policy && next.capacity == s.capacity
  {
    hide RateStep, QueueStep;
    if |calls| > 0 {
      CallsKeep(s, calls[..|calls| - 1]);
    }
  }

  /** A push is accepted exactly when the limiter lets it through and, under DropNewest, there is
      room in the queue. */
  lemma AcceptedExactly(capacity: nat, policy: BackPressurePolicy, limit: nat, start: nat, calls: seq<Call>,
                        f: Frame, now: nat)
    requires Monotone([start] + (PushTimes(calls) + [now]))
    ensures var (s, times) := Calls(NewSub(capacity, policy, limit, start), calls);
      Calls(NewSub(capacity, policy, limit, start), calls + [Call.Push(f, now)]).1
        == if Passes(limit, start, PushTimes(calls), now) && (policy == DropNewest ==> |s.queue| < capacity)
           then times + [now] else times
  {
    hide RateStep, Passes, Limit;
    var newSub := NewSub(capacity, policy, limit, start);
    var (s, times) := Calls(newSub, calls);
    assert (calls + [Call.Push(f, now)])[..|calls|] == calls;
    CallsLimit(newSub, calls);
    CallsKeep(newSub, calls);
    var granted := Limit(limit, start, PushTimes(calls)).1;
    LimitSnoc(limit, start, PushTimes(calls), now);
    GrantedExactly(limit, start, PushTimes(calls), now);
    assert |granted + [now]| == |granted| + 1;
  }

  /** Unless the policy is DropNewest, the accepted pushes are those that pass the limiter. */
  lemma {:induction false} AcceptedIsGranted(s: Sub, calls: seq<Call>)
    requires s.rate.count == 0 && s.policy != DropNewest
    ensures Calls(s, calls).1 == Limit(s.rateLimit, s.rate.windowStart, PushTimes(calls)).1
  {
    hide RateStep;
    if |calls| > 0 {
      var front, c := calls[..|calls| - 1], calls[|calls| - 1];
      AcceptedIsGranted(s, front);
      CallsLimit(s, front);
      CallsKeep(s, front);
      if c.Push? {
        LimitSnoc(s.rateLimit, s.rate.windowStart, PushTimes(front), c.now);
      } else {
        assert PushTimes(calls) == PushTimes(front);
      }
    }
  }

  /** So under Block and DropOldest a push is accepted whenever fewer than the limit have been
      accepted in the second that ends with it. */
  lemma QuietPushAccepted(capacity: nat, policy: BackPressurePolicy, limit: nat, start: nat, calls: seq<Call>,
                          f: Frame, now: nat)
    requires limit > 0 && policy != DropNewest && Monotone([start] + (PushTimes(calls) + [now]))
    requires var times := Calls(NewSub(capacity, policy, limit, start), calls).1;
      CountIn(times, if now < SECOND then 0 else now - SECOND + 1, now) < limit
    ensures var newSub := NewSub(capacity, policy, limit, start);
      Calls(newSub, calls + [Call.Push(f, now)]).1 == Calls(newSub, calls).1 + [now]
  {
    hide Calls, CountIn, Limit, Passes, Monotone;
    var newSub := NewSub(capacity, policy, limit, start);
    AcceptedIsGranted(newSub, calls);
    AcceptedIsGranted(newSub, calls + [Call.Push(f, now)]);
    PushTimesSnoc(calls, f, now);
    QuietPushPasses(limit, start, PushTimes(calls), now);
  }
}
