/** The wakeup protocol between pushes, closing and receiving tasks. A Notify holds at most one
    permit; waking one task when none is parked stores it, waking all tasks stores nothing but
    is seen by every future created before it. */
module Wakeup {
  import opened LinFrame
  import opened SubQueue

  /** Where a task is inside recv. */
  datatype Pc =
    | Ready           // about to pop
    | SawEmpty        // popped nothing, about to read the closed flag
    | SawOpen         // read an unset flag, about to create the wakeup future
    | Created(calls: nat) // future created when notify_waiters had run that often, about to poll it
    | Parked          // waiting for a wakeup
    | Woken           // woken, about to loop
    | LastPop         // read a set flag, about to pop for the last time
    | Done            // returned None

  datatype State = State(queue: seq<Frame>, closed: bool, permit: bool, calls: nat, pcs: seq<Pc>)

  datatype Event =
    | Push(frame: Frame, who: nat) // who names the parked task to wake, if any is parked
    | CloseFlag
    | CloseNotify
    | Recv(i: nat)                 // one step of task i

  function Start(n: nat): State {
    State([], false, false, 0, seq(n, _ => Ready))
  }

  predicate NoneParked(pcs: seq<Pc>) {
    forall i | 0 <= i < |pcs| :: pcs[i] != Parked
  }

  /** Wake one parked task, or store the permit when none is parked. */
  function NotifyOne(s: State, who: nat): State
    requires (who < |s.pcs| && s.pcs[who] == Parked) || NoneParked(s.pcs)
  {
    if who < |s.pcs| && s.pcs[who] == Parked then s.(pcs := s.pcs[who := Woken]) else s.(permit := true)
  }

  function NotifyWaiters(s: State): State {
    s.(calls := s.calls + 1,
       pcs := seq(|s.pcs|, i requires 0 <= i < |s.pcs| => if s.pcs[i] == Parked then Woken else s.pcs[i]))
  }

  /** One step of recv on what the task can see: the queue, the flag, the permit and its own place. */
  function Resume(s: State, pc: Pc): (seq<Frame>, bool, Pc) {
    match pc
    case Ready => if s.queue == [] then (s.queue, s.permit, SawEmpty) else (s.queue[1..], s.permit, Ready)
    case SawEmpty => (s.queue, s.permit, if s.closed then LastPop else SawOpen)
    case SawOpen => (s.queue, s.permit, Created(s.calls))
    case Created(c) =>
      if s.permit then (s.queue, false, Ready)
      else if c != s.calls then (s.queue, false, Ready)
      else (s.queue, false, Parked)
    case Parked => (s.queue, s.permit, Parked)
    case Woken => (s.queue, s.permit, Ready)
    case LastPop => if s.queue == [] then (s.queue, s.permit, Done) else (s.queue[1..], s.permit, Ready)
    case Done => (s.queue, s.permit, Done)
  }

  function RecvStep(s: State, i: nat): State
    requires i < |s.pcs|
  {
    var (queue, permit, pc) := Resume(s, s.pcs[i]);
    s.(queue := queue, permit := permit, pcs := s.pcs[i := pc])
  }

  /** The queue lock is held over the queue step and the notification together. */
  function PushStep(s: State, policy: BackPressurePolicy, capacity: nat, f: Frame, who: nat): State
    requires (who < |s.pcs| && s.pcs[who] == Parked) || NoneParked(s.pcs)
  {
    var (queue, accepted) := QueueStep(policy, capacity, s.queue, f);
    var t := s.(queue := queue);
    if accepted then NotifyOne(t, who) else t
  }

  /** An event that is not enabled leaves the state alone. */
  function Step(s: State, policy: BackPressurePolicy, capacity: nat, e: Event): State {
    match e
    case Push(f, who) =>
      if (who < |s.pcs| && s.pcs[who] == Parked) || NoneParked(s.pcs) then PushStep(s, policy, capacity, f, who) else s
    case CloseFlag => s.(closed := true)
    case CloseNotify => if s.closed then NotifyWaiters(s) else s
    case Recv(i) => if i < |s.pcs| then RecvStep(s, i) else s
  }

  function Run(n: nat, policy: BackPressurePolicy, capacity: nat, events: seq<Event>): State {
    if |events| == 0 then Start(n)
    else Step(Run(n, policy, capacity, events[..|events| - 1]), policy, capacity, events[|events| - 1])
  }

  // ---------------------------------------------------------------------------
  // No wakeup of a push is lost, with one receiving task
  // ---------------------------------------------------------------------------

  /** The task saw the queue empty and will not look again without a wakeup. */
  predicate Committed(pc: Pc) {
    pc.SawEmpty? || pc.SawOpen? || pc.Created? || pc.Parked?
  }

  /** A wakeup is on its way to the task. */
  predicate WakePending(s: State, i: nat)
    requires i < |s.pcs|
  {
    s.pcs[i] != Parked && (s.permit || (s.pcs[i].Created? && s.pcs[i].calls != s.calls))
  }

  /** The task is about to look at the queue, or a wakeup is on its way to it. */
  predicate WillLook(s: State, i: nat)
    requires i < |s.pcs|
  {
    (!Committed(s.pcs[i]) && s.pcs[i] != Done) || WakePending(s, i)
  }

  /** How many of the first n tasks will look at the queue. */
  function Looking(s: State, n: nat): (k: nat)
    requires n <= |s.pcs|
    ensures k <= n
  {
    if n == 0 then 0 else Looking(s, n - 1) + if WillLook(s, n - 1) then 1 else 0
  }

  /** A task is committed to sleep and nothing will wake it, although more frames are waiting
      than the tasks that will look can take. */
  predicate LostWakeup(s: State) {
    && |s.queue| > Looking(s, |s.pcs|)
    && exists i | 0 <= i < |s.pcs| :: Committed(s.pcs[i]) && !WakePending(s, i)
  }

  predicate OneTask(s: State) {
    && |s.pcs| == 1
    && (s.pcs[0].Created? ==> s.pcs[0].calls <= s.calls)
    && (s.queue != [] && Committed(s.pcs[0]) ==> WakePending(s, 0))
  }

  lemma OneTaskStep(s: State, policy: BackPressurePolicy, capacity: nat, e: Event)
    requires OneTask(s)
    ensures OneTask(Step(s, policy, capacity, e))
  {}

  lemma {:induction false} OneTaskRun(policy: BackPressurePolicy, capacity: nat, events: seq<Event>)
    ensures OneTask(Run(1, policy, capacity, events))
  {
    if |events| > 0 {
      OneTaskRun(policy, capacity, events[..|events| - 1]);
      OneTaskStep(Run(1, policy, capacity, events[..|events| - 1]), policy, capacity, events[|events| - 1]);
    }
  }

  ghost predicate NeverLost(n: nat) {
    forall policy: BackPressurePolicy, capacity: nat, events: seq<Event> ::
      !LostWakeup(Run(n, policy, capacity, events))
  }

  /** Pushes never lose a wakeup, in any interleaving with recv and close, exactly when at most
      one task receives: with more, pushes that find no task parked share one permit. */
  lemma NoLostWakeup(n: nat)
    ensures NeverLost(n) <==> n <= 1
  {
    if n == 1 {
      forall policy: BackPressurePolicy, capacity: nat, events: seq<Event>
        ensures !LostWakeup(Run(n, policy, capacity, events))
      {
        OneTaskRun(policy, capacity, events);
        NotLost(Run(1, policy, capacity, events));
      }
    } else if n == 0 {
      forall policy: BackPressurePolicy, capacity: nat, events: seq<Event>
        ensures !LostWakeup(Run(n, policy, capacity, events))
      {
        SameTasks(n, policy, capacity, events);
      }
    } else {
      var events := MergedPermit(n);
      assert LostWakeup(Run(n, Block, 1, events));
    }
  }

  /** With one task the waiting frames need only be some. */
  lemma NotLost(s: State)
    requires OneTask(s)
    ensures !LostWakeup(s)
  {
    assert Looking(s, 1) == Looking(s, 0) + if WillLook(s, 0) then 1 else 0;
  }

  lemma {:induction false} SameTasks(n: nat, policy: BackPressurePolicy, capacity: nat, events: seq<Event>)
    ensures |Run(n, policy, capacity, events).pcs| == n
  {
    if |events| > 0 {
      SameTasks(n, policy, capacity, events[..|events| - 1]);
    }
  }

  lemma RunSnoc(n: nat, policy: BackPressurePolicy, capacity: nat, events: seq<Event>, e: Event)
    ensures Run(n, policy, capacity, events + [e]) == Step(Run(n, policy, capacity, events), policy, capacity, e)
  {
    assert (events + [e])[..|events|] == events;
  }

  /** Tasks 0 and 1 in the given places, every other task still about to start. */
  function Pair(n: nat, queue: seq<Frame>, permit: bool, a: Pc, b: Pc): State
    requires n >= 2
  {
    State(queue, false, permit, 0, [a, b] + seq(n - 2, _ => Ready))
  }

  lemma PairRun(n: nat, events: seq<Event>, queue: seq<Frame>, permit: bool, a: Pc, b: Pc, e: Event)
    returns (more: seq<Event>)
    requires n >= 2 && Run(n, Block, 1, events) == Pair(n, queue, permit, a, b)
    requires a != Parked && b != Parked
    ensures e == Recv(0) ==>
      var (q, p, x) := Resume(Pair(n, queue, permit, a, b), a);
      Run(n, Block, 1, more) == Pair(n, q, p, x, b)
    ensures e == Recv(1) ==>
      var (q, p, y) := Resume(Pair(n, queue, permit, a, b), b);
      Run(n, Block, 1, more) == Pair(n, q, p, a, y)
    ensures e.Push? ==> Run(n, Block, 1, more) == Pair(n, queue + [e.frame], true, a, b)
  {
    more := events + [e];
    RunSnoc(n, Block, 1, events, e);
    hide Run, Resume;
    var s := Pair(n, queue, permit, a, b);
    forall x: Pc
      ensures s.pcs[0 := x] == [x, b] + seq(n - 2, _ => Ready) && s.pcs[1 := x] == [a, x] + seq(n - 2, _ => Ready)
    {}
  }

  function Copies(f: Frame, m: nat): (q: seq<Frame>)
    ensures |q| == m
  {
    if m == 0 then [] else Copies(f, m - 1) + [f]
  }

  /** Pushes while nobody is parked leave one permit, however many they are. */
  lemma {:induction false} PushMany(n: nat, events: seq<Event>, a: Pc, b: Pc, f: Frame, m: nat)
    returns (more: seq<Event>)
    requires n >= 2 && m >= 1 && Run(n, Block, 1, events) == Pair(n, [], false, a, b)
    requires a != Parked && b != Parked
    ensures Run(n, Block, 1, more) == Pair(n, Copies(f, m), true, a, b)
  {
    hide Run, Pair;
    if m == 1 {
      more := PairRun(n, events, [], false, a, b, Event.Push(f, 0));
      assert Copies(f, 1) == Copies(f, 0) + [f] == [] + [f];
    } else {
      var e := PushMany(n, events, a, b, f, m - 1);
      more := PairRun(n, e, Copies(f, m - 1), true, a, b, Event.Push(f, 0));
    }
  }

  /** Both tasks see the queue empty, n pushes leave one permit, one task takes it and the other
      parks; nobody will wake it, and the others cannot take all the frames. */
  lemma MergedPermit(n: nat) returns (events: seq<Event>)
    requires n >= 2
    ensures LostWakeup(Run(n, Block, 1, events))
  {
    var f := Frame(0, [1], 0, Classic);
    var e, c := [], Created(0);
    assert Run(n, Block, 1, e) == Pair(n, [], false, Ready, Ready);
    hide Run, Step, Pair, RecvStep, PushStep, LostWakeup, Copies;
    e := PairRun(n, e, [], false, Ready, Ready, Recv(0));
    e := PairRun(n, e, [], false, SawEmpty, Ready, Recv(1));
    e := PairRun(n, e, [], false, SawEmpty, SawEmpty, Recv(0));
    e := PairRun(n, e, [], false, SawOpen, SawEmpty, Recv(1));
    e := PairRun(n, e, [], false, SawOpen, SawOpen, Recv(0));
    e := PairRun(n, e, [], false, c, SawOpen, Recv(1));
    e := PushMany(n, e, c, c, f, n);
    e := PairRun(n, e, Copies(f, n), true, c, c, Recv(0));
    e := PairRun(n, e, Copies(f, n), false, Ready, c, Recv(1));
    PairLost(n, Copies(f, n));
    events := e;
  }

  lemma PairLost(n: nat, queue: seq<Frame>)
    requires n >= 2 && |queue| == n
    ensures LostWakeup(Pair(n, queue, false, Ready, Parked))
  {
    var s := Pair(n, queue, false, Ready, Parked);
    SomeoneSleeps(s, 1, |s.pcs|);
    assert Committed(s.pcs[1]) && !WakePending(s, 1);
  }

  lemma {:induction false} SomeoneSleeps(s: State, i: nat, n: nat)
    requires i < n <= |s.pcs| && Committed(s.pcs[i]) && !WakePending(s, i)
    ensures Looking(s, n) < n
  {
    if i < n - 1 {
      SomeoneSleeps(s, i, n - 1);
    }
  }

  /** A push that is refused wakes nobody and stores no permit, one that is accepted wakes one
      parked task or, when none is parked, stores the permit. */
  lemma PushWakes(s: State, policy: BackPressurePolicy, capacity: nat, f: Frame, who: nat)
    ensures var t := Step(s, policy, capacity, Event.Push(f, who));
      && (policy == DropNewest && |s.queue| >= capacity ==> t == s)
      && (policy != DropNewest || |s.queue| < capacity ==>
            if who < |s.pcs| && s.pcs[who] == Parked then t.pcs == s.pcs[who := Woken] && t.permit == s.permit
            else if NoneParked(s.pcs) then t.pcs == s.pcs && t.permit
            else t == s)
      && t.closed == s.closed && t.calls == s.calls
      && (t != s ==> t.queue == QueueStep(policy, capacity, s.queue, f).0)
  {}

  /** A task takes the oldest frame at its first or its last look at the queue and nowhere else. Only
      the poll of a wakeup future takes the permit; a wakeup in person leaves it. */
  lemma StepTakes(s: State, i: nat)
    requires i < |s.pcs|
    ensures var t := RecvStep(s, i); var looks := s.pcs[i].Ready? || s.pcs[i].LastPop?;
      && t.queue == (if looks && |s.queue| > 0 then s.queue[1..] else s.queue)
      && t.permit == (s.permit && !s.pcs[i].Created?) && t.closed == s.closed && t.calls == s.calls
  {}

  /** Once the flag is set close wakes every parked task and nobody else, and leaves the queue and
      the permit alone. */
  lemma CloseWakes(s: State, policy: BackPressurePolicy, capacity: nat)
    ensures var t := Step(s, policy, capacity, CloseNotify);
      if !s.closed then t == s
      else
        && t.queue == s.queue && t.permit == s.permit && t.closed && t.calls == s.calls + 1 && |t.pcs| == |s.pcs|
        && forall i | 0 <= i < |s.pcs| :: t.pcs[i] == if s.pcs[i] == Parked then Woken else s.pcs[i]
  {}

  // ---------------------------------------------------------------------------
  // Closing
  // ---------------------------------------------------------------------------

  /** Task 0 runs alone for k steps. */
  function Alone(s: State, k: nat): State
    requires |s.pcs| == 1
    ensures |Alone(s, k).pcs| == 1
  {
    if k == 0 then s else RecvStep(Alone(s, k - 1), 0)
  }

  /** Once the flag is set, a task anywhere but before its wakeup future cannot park any more. */
  predicate Draining(s: State) {
    |s.pcs| == 1 && s.closed && !s.pcs[0].SawOpen? && !s.pcs[0].Created? && !s.pcs[0].Parked?
  }

  lemma {:induction false} DrainingStays(s: State, k: nat)
    requires Draining(s)
    ensures Draining(Alone(s, k))
  {
    if k > 0 {
      DrainingStays(s, k - 1);
    }
  }

  lemma AloneAdds(s: State, k: nat)
    requires |s.pcs| == 1
    ensures Alone(RecvStep(s, 0), k) == Alone(s, k + 1)
  {
    if k > 0 {
      AloneAdds(s, k - 1);
    } else {
      assert Alone(s, 1) == RecvStep(Alone(s, 0), 0);
    }
  }

  /** A draining task empties the queue and returns None. */
  lemma {:induction false} DrainingEnds(s: State) returns (k: nat)
    requires Draining(s)
    ensures Alone(s, k).pcs == [Done] && (if s.pcs[0] == Done then k == 0 else Alone(s, k).queue == [])
    decreases |s.queue|, match s.pcs[0] case Woken => 4 case Ready => 3 case SawEmpty => 2 case LastPop => 1 case _ => 0
  {
    if s.pcs[0] == Done {
      k := 0;
      assert s.pcs == [Done];
    } else {
      var t := RecvStep(s, 0);
      k := DrainingEnds(t);
      AloneAdds(s, k);
      k := k + 1;
    }
  }

  lemma {:induction false} ParkedStays(s: State, k: nat)
    requires s.pcs == [Parked]
    ensures Alone(s, k) == s
  {
    if k > 0 {
      ParkedStays(s, k - 1);
    }
  }

  /** The task has read the unset flag, has no future yet, and no permit of an earlier push is left. */
  predicate Exposed(s: State) {
    s.pcs == [SawOpen] && !s.permit
  }

  ghost predicate Parks(s: State)
    requires |s.pcs| == 1
  {
    exists k: nat :: Alone(s, k).pcs == [Parked]
  }

  ghost predicate Returns(s: State)
    requires |s.pcs| == 1
  {
    exists k: nat :: Alone(s, k).pcs == [Done]
  }

  ghost predicate ReturnsDrained(s: State)
    requires |s.pcs| == 1
  {
    exists k: nat :: Alone(s, k).pcs == [Done] && Alone(s, k).queue == []
  }

  /** notify_waiters stores no permit, so it leaves an exposed task parked for good. In every other
      place the task returns None, and it has emptied the queue by then unless it had already
      returned None before frames still on the queue were pushed. */
  lemma CloseStrandsExactly(policy: BackPressurePolicy, capacity: nat, events: seq<Event>)
    ensures var s := Run(1, policy, capacity, events);
      s.closed ==>
        var t := Step(s, policy, capacity, CloseNotify);
        && |t.pcs| == 1
        && (Parks(t) <==> Exposed(s))
        && (Returns(t) <==> !Exposed(s))
        && (ReturnsDrained(t) <==> !Exposed(s) && (s.pcs == [Done] ==> s.queue == []))
  {
    OneTaskRun(policy, capacity, events);
    var s := Run(1, policy, capacity, events);
    if s.closed {
      AfterClose(s, NotifyWaiters(s));
    }
  }

  /** A push after the task has returned None leaves a frame that nobody will take. */
  lemma PushAfterNone(f: Frame) returns (events: seq<Event>)
    ensures var s := Run(1, Block, 1, events); s.closed && s.pcs == [Done] && s.queue == [f]
  {
    var s := State([], true, false, 0, [Ready]);
    assert Run(1, Block, 1, []) == Start(1) == State([], false, false, 0, [Ready]);
    StepsToNone(s, f);
    hide Run, Step;
    events := OneStep([], Start(1), CloseFlag);
    events := OneStep(events, s, Recv(0));
    events := OneStep(events, s.(pcs := [SawEmpty]), Recv(0));
    events := OneStep(events, s.(pcs := [LastPop]), Recv(0));
    events := OneStep(events, s.(pcs := [Done]), Event.Push(f, 0));
  }

  lemma StepsToNone(s: State, f: Frame)
    requires s == State([], true, false, 0, [Ready])
    ensures Step(s.(closed := false), Block, 1, CloseFlag) == s
    ensures Step(s, Block, 1, Recv(0)) == s.(pcs := [SawEmpty])
    ensures Step(s.(pcs := [SawEmpty]), Block, 1, Recv(0)) == s.(pcs := [LastPop])
    ensures Step(s.(pcs := [LastPop]), Block, 1, Recv(0)) == s.(pcs := [Done])
    ensures Step(s.(pcs := [Done]), Block, 1, Event.Push(f, 0)) == s.(queue := [f], permit := true, pcs := [Done])
  {
    forall pc: Pc ensures s.pcs[0 := pc] == [pc] {}
    assert [] + [f] == [f];
  }

  lemma OneStep(events: seq<Event>, s: State, e: Event) returns (more: seq<Event>)
    requires Run(1, Block, 1, events) == s
    ensures Run(1, Block, 1, more) == Step(s, Block, 1, e)
  {
    more := events + [e];
    RunSnoc(1, Block, 1, events, e);
  }

  lemma AfterClose(s: State, t: State)
    requires OneTask(s) && s.closed && t == NotifyWaiters(s)
    ensures |t.pcs| == 1 && (Parks(t) <==> Exposed(s)) && (Returns(t) <==> !Exposed(s))
    ensures ReturnsDrained(t) <==> !Exposed(s) && (s.pcs == [Done] ==> s.queue == [])
  {
    var pc := t.pcs[0];
    assert t.pcs == [pc];
    assert Alone(t, 0) == t && Alone(t, 1) == RecvStep(t, 0) && Alone(t, 2) == RecvStep(Alone(t, 1), 0);
    if Exposed(s) {
      assert Alone(t, 2).pcs == [Parked];
      Stranded(t);
    } else if pc.SawOpen? {
      assert Alone(t, 1).pcs == [Created(t.calls)] && Draining(Alone(t, 2)) && Alone(t, 2).pcs == [Ready];
      Drained(t, 2);
    } else if pc.Created? {
      assert Draining(Alone(t, 1)) && Alone(t, 1).pcs == [Ready];
      Drained(t, 1);
    } else if pc.Done? {
      Finished(t);
    } else {
      Drained(t, 0);
    }
  }

  lemma {:induction false} DoneStays(s: State, k: nat)
    requires s.pcs == [Done]
    ensures Alone(s, k) == s
  {
    if k > 0 {
      DoneStays(s, k - 1);
    }
  }

  lemma Finished(t: State)
    requires t.pcs == [Done]
    ensures !Parks(t) && Returns(t) && (ReturnsDrained(t) <==> t.queue == [])
  {
    hide Alone;
    forall k: nat ensures Alone(t, k) == t {
      DoneStays(t, k);
    }
    assert Alone(t, 0).pcs == [Done];
  }

  lemma Stranded(t: State)
    requires |t.pcs| == 1 && t.pcs[0] == SawOpen && Alone(t, 2).pcs == [Parked]
    ensures !Returns(t) && !ReturnsDrained(t)
  {
    hide Alone, RecvStep;
    forall k: nat ensures Alone(t, k).pcs != [Done] {
      if k < 2 {
        FirstSteps(t);
      } else {
        StrandedFrom(t, k);
      }
    }
  }

  lemma StrandedFrom(t: State, k: nat)
    requires k >= 2 && |t.pcs| == 1 && Alone(t, 2).pcs == [Parked]
    ensures Alone(t, k).pcs == [Parked]
  {
    hide Alone, RecvStep;
    AloneSum(t, 2, k - 2);
    ParkedStays(Alone(t, 2), k - 2);
  }

  lemma FirstSteps(t: State)
    requires |t.pcs| == 1 && t.pcs[0] == SawOpen
    ensures Alone(t, 0).pcs == [SawOpen] && Alone(t, 1).pcs == [Created(t.calls)]
  {
    assert Alone(t, 0) == t && Alone(t, 1) == RecvStep(t, 0);
  }

  lemma Drained(t: State, skip: nat)
    requires |t.pcs| == 1 && Draining(Alone(t, skip)) && Alone(t, skip).pcs != [Done]
    requires forall j: nat | j < skip :: Alone(t, j).pcs != [Parked]
    ensures !Parks(t) && Returns(t) && ReturnsDrained(t)
  {
    hide RecvStep, Alone;
    var u := Alone(t, skip);
    var k := DrainingEnds(u);
    assert u.pcs == [u.pcs[0]];
    AloneSum(t, skip, k);
    forall j: nat ensures Alone(t, j).pcs != [Parked] {
      if j >= skip {
        AloneSum(t, skip, j - skip);
        DrainingStays(u, j - skip);
      }
    }
  }

  lemma {:induction false} AloneSum(s: State, j: nat, k: nat)
    requires |s.pcs| == 1
    ensures Alone(Alone(s, j), k) == Alone(s, j + k)
  {
    hide RecvStep;
    if k > 0 {
      AloneSum(s, j, k - 1);
    }
  }
}
