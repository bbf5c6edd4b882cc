/** What holds in every reachable state of the bus, however its operations interleave. */
module BusTheorems {
  import opened Word
  import opened Wrappers
  import opened LinFrame
  import opened SubQueue
  import opened BusMachine

  // ---------------------------------------------------------------------------
  // Registered subscriptions
  // ---------------------------------------------------------------------------

  predicate Distinct(subs: seq<nat>) {
    forall i, j | 0 <= i < j < |subs| :: subs[i] != subs[j]
  }

  /** The list holds every subscription that has not been removed, once. */
  predicate Keyed(cells: seq<Cell>, subs: seq<nat>) {
    && (forall k | k in subs :: k < |cells|)
    && (forall k | 0 <= k < |cells| :: k in subs <==> cells[k].death == None)
    && Distinct(subs)
  }

  lemma {:induction false} LiveKeeps(cells: seq<Cell>, subs: seq<nat>)
    requires Distinct(subs)
    ensures forall k :: k in Live(cells, subs) <==> k in subs && IsOpen(cells, k)
    ensures Distinct(Live(cells, subs))
  {
    hide IsOpen;
    if |subs| > 0 {
      var front, last := subs[..|subs| - 1], subs[|subs| - 1];
      assert subs == front + [last];
      LiveKeeps(cells, front);
      assert last !in front;
    }
  }

  lemma GcKeyed(s: Bus)
    requires Keyed(s.cells, s.subs)
    ensures Keyed(Gc(s).cells, Gc(s).subs)
  {
    LiveKeeps(s.cells, s.subs);
  }

  lemma TransmitKeyed(s: Bus, f: Frame, clock: nat -> nat)
    requires Keyed(s.cells, s.subs)
    ensures Keyed(Transmit(s, f, clock).cells, Transmit(s, f, clock).subs)
  {
    hide Pushed, Takes;
  }

  lemma SendKeyed(s: Bus, id: u8)
    requires Keyed(s.cells, s.subs)
    ensures Keyed(SendLocked(s, id).cells, SendLocked(s, id).subs)
  {
    GcKeyed(s);
    hide Gc, Answer, Keyed;
  }

  lemma EnterKeyed(s: Bus, q: Pending, clock: nat -> nat)
    requires Keyed(s.cells, s.subs)
    ensures Keyed(Enter(s, q, clock).cells, Enter(s, q, clock).subs)
  {
    hide SendLocked, Store, NewCell;
    match q
    case SendReady(id) => SendKeyed(s, id);
    case SubscribeReady(filters, opts) =>
      assert |s.cells| !in s.subs;
      NewCellLives(filters, opts, clock(|s.cells|), |s.log|);
    case _ =>
  }

  lemma NewCellLives(filters: seq<Filter>, opts: SubscriberOptions, now: nat, birth: nat)
    ensures NewCell(filters, opts, now, birth).death == None
  {}

  lemma StepKeyed(s: Bus, e: Event)
    requires Keyed(s.cells, s.subs)
    ensures Keyed(Step(s, e).cells, Step(s, e).subs)
  {
    hide Enter, Transmit, Count, CheckPublish, CheckSend, Without, Rest;
    match e
    case Proceed(i, clock) =>
      if i < |s.pending| {
        EnterKeyed(s.(pending := Without(s.pending, i)), s.pending[i], clock);
      }
    case Hold(clock) => if s.lock.Sending? { TransmitKeyed(s, s.lock.frame, clock); }
    case _ =>
  }

  // ---------------------------------------------------------------------------
  // What a subscriber sees
  // ---------------------------------------------------------------------------

  /** No filter at all, a filter for everything, or one for the identifier. */
  predicate Wanted(filters: seq<Filter>, id: u8) {
    |filters| == 0 || exists g | g in filters :: g.all || g.id == id
  }

  lemma MatchesWanted(filters: seq<Filter>, f: Frame)
    ensures Matches(filters, f) <==> Wanted(filters, f.id)
  {
    if Matches(filters, f) && |filters| > 0 {
      var i :| 0 <= i < |filters| && filters[i].Matches(f);
      assert filters[i] in filters;
    }
  }

  function Pass(filters: seq<Filter>, f: Frame): seq<Frame> {
    if Wanted(filters, f.id) then [f] else []
  }

  /** The broadcast frames a filter list lets through, in order. */
  function Filtered(log: seq<Entry>, filters: seq<Filter>): seq<Frame> {
    if |log| == 0 then []
    else Filtered(log[..|log| - 1], filters) + Pass(filters, log[|log| - 1].frame)
  }

  function End(c: Cell, log: seq<Entry>): nat {
    match c.death case None => |log| case Some(d) => d
  }

  /** The broadcasts meant for the subscription, from its registration to its removal. */
  predicate SawItsLog(c: Cell, log: seq<Entry>) {
    && c.birth <= End(c, log) <= |log|
    && c.attempts == Filtered(log[c.birth..End(c, log)], c.filters)
  }

  /** What the queue did with the frames pushed at it. */
  predicate Flow(c: Cell) {
    && c.sub.capacity > 0
    && Subsequence(c.received + c.sub.queue, c.attempts)
    && (c.sub.policy == Block && c.sub.rateLimit == 0 ==> c.received + c.sub.queue == c.attempts)
    && (c.sub.policy != Block ==> |c.sub.queue| <= c.sub.capacity)
    && (c.sub.policy != DropOldest ==> c.accepted == |c.received| + |c.sub.queue|)
  }

  predicate Views(cells: seq<Cell>, log: seq<Entry>) {
    forall k | 0 <= k < |cells| :: SawItsLog(cells[k], log) && Flow(cells[k])
  }

  lemma {:induction false} SubsequenceRefl(xs: seq<Frame>)
    ensures Subsequence(xs, xs)
  {
    if |xs| > 0 {
      SubsequenceRefl(xs[..|xs| - 1]);
    }
  }

  lemma {:induction false} DropOne(a: seq<Frame>, b: seq<Frame>)
    requires |b| > 0
    ensures Subsequence(a + b[1..], a + b)
  {
    var m := |b| - 1;
    if m == 0 {
      SubsequenceRefl(a);
      SubsequenceExtend(a, a, b);
      assert a + b[1..] == a;
    } else {
      DropOne(a, b[..m]);
      SubsequenceSnoc(a + b[..m][1..], a + b[..m], b[m]);
      assert a + b[1..] == a + b[..m][1..] + [b[m]] && a + b == a + b[..m] + [b[m]];
    }
  }

  /** A push leaves the queue alone, appends, or appends after evicting the oldest frame. */
  lemma PushOutcome(s: Sub, f: Frame, now: nat)
    requires s.capacity > 0 && (s.policy != Block ==> |s.queue| <= s.capacity)
    ensures var (t, ok) := Pushed(s, f, now); var q := s.queue;
      && t.capacity == s.capacity && t.policy == s.policy && t.rateLimit == s.rateLimit && t.closed == s.closed
      && (!ok ==> t.queue == q)
      && (ok ==> t.queue == q + [f] || (|q| > 0 && t.queue == q[1..] + [f]))
      && (s.policy == Block && s.rateLimit == 0 ==> ok && t.queue == q + [f])
      && (s.policy != DropOldest && ok ==> t.queue == q + [f])
      && (s.policy != Block ==> |t.queue| <= s.capacity)
  {}

  lemma PushFlow(c: Cell, f: Frame, now: nat)
    requires Flow(c)
    ensures Flow(PushAt(c, f, now))
  {
    PushOutcome(c.sub, f, now);
    hide Pushed, Subsequence;
    var d := PushAt(c, f, now);
    var flow, q := c.received + c.sub.queue, c.sub.queue;
    if d.sub.queue == q {
      SubsequenceExtend(flow, c.attempts, [f]);
    } else if d.sub.queue == q + [f] {
      SubsequenceSnoc(flow, c.attempts, f);
      assert d.received + d.sub.queue == flow + [f];
    } else {
      DropOne(c.received, q);
      SubsequenceTransitive(c.received + q[1..], flow, c.attempts);
      SubsequenceSnoc(c.received + q[1..], c.attempts, f);
      assert d.received + d.sub.queue == c.received + q[1..] + [f];
    }
  }

  lemma PopFlow(c: Cell)
    requires Flow(c)
    ensures Flow(PopAt(c))
  {
    if c.sub.queue != [] {
      assert c.received + c.sub.queue == c.received + [c.sub.queue[0]] + c.sub.queue[1..];
    }
  }

  lemma FilteredSnoc(log: seq<Entry>, e: Entry, birth: nat, filters: seq<Filter>)
    requires birth <= |log|
    ensures Filtered((log + [e])[birth..], filters)
         == Filtered(log[birth..], filters) + Pass(filters, e.frame)
  {
    assert (log + [e])[birth..] == log[birth..] + [e];
    assert (log[birth..] + [e])[..|log| - birth] == log[birth..];
  }

  lemma GcViews(s: Bus)
    requires Keyed(s.cells, s.subs) && Views(s.cells, s.log)
    ensures Views(Gc(s).cells, s.log)
  {
    hide Live, Filtered, Subsequence;
  }

  lemma TransmitView(c: Cell, log: seq<Entry>, e: Entry, taken: bool, now: nat)
    requires SawItsLog(c, log) && Flow(c)
    requires taken <==> c.death == None && Matches(c.filters, e.frame)
    ensures var d := if taken then PushAt(c, e.frame, now) else c;
      SawItsLog(d, log + [e]) && Flow(d)
  {
    MatchesWanted(c.filters, e.frame);
    hide Matches, Wanted;
    if c.death == None {
      FilteredSnoc(log, e, c.birth, c.filters);
    } else {
      assert (log + [e])[c.birth..End(c, log)] == log[c.birth..End(c, log)];
    }
    hide Filtered, Flow, Pushed;
    if taken {
      PushFlow(c, e.frame, now);
    }
    assert log[c.birth..] == log[c.birth..|log|] && (log + [e])[c.birth..] == (log + [e])[c.birth..|log| + 1];
  }

  lemma TransmitViews(s: Bus, f: Frame, clock: nat -> nat)
    requires Keyed(s.cells, s.subs) && Views(s.cells, s.log)
    ensures Views(Transmit(s, f, clock).cells, Transmit(s, f, clock).log)
  {
    var e := Entry(f, |s.pubs|, Fanout(s, f, |s.cells|));
    hide SawItsLog, Flow, Matches, PushAt;
    forall k: nat | k < |s.cells|
      ensures var d := Transmit(s, f, clock).cells[k]; SawItsLog(d, s.log + [e]) && Flow(d)
    {
      TransmitView(s.cells[k], s.log, e, Takes(s, f, k), clock(k));
    }
  }

  lemma SendViews(s: Bus, id: u8)
    requires Keyed(s.cells, s.subs) && Views(s.cells, s.log)
    ensures Views(SendLocked(s, id).cells, SendLocked(s, id).log)
  {
    GcViews(s);
    assert Gc(s).log == s.log;
    hide Gc, Answer, Views, Keyed;
  }

  lemma CloseViews(s: Bus)
    requires Keyed(s.cells, s.subs) && Views(s.cells, s.log)
    ensures Views(CloseLocked(s).cells, s.log)
  {
    hide Filtered, Subsequence;
  }

  lemma EnterViews(s: Bus, q: Pending, clock: nat -> nat)
    requires Keyed(s.cells, s.subs) && Views(s.cells, s.log)
    ensures Views(Enter(s, q, clock).cells, Enter(s, q, clock).log)
  {
    hide SendLocked, CloseLocked, Store, Filtered, Subsequence, NewCell, Keyed;
    match q
    case SendReady(id) => SendViews(s, id);
    case SubscribeReady(filters, opts) => NewCellView(filters, opts, clock(|s.cells|), s.log);
    case CloseReady => CloseViews(s); CloseLog(s);
    case _ =>
  }

  lemma StepViews(s: Bus, e: Event)
    requires Keyed(s.cells, s.subs) && Views(s.cells, s.log)
    ensures Views(Step(s, e).cells, Step(s, e).log)
  {
    hide Enter, Transmit, Count, CheckPublish, CheckSend, Filtered, Subsequence;
    match e
    case Proceed(i, clock) =>
      if i < |s.pending| {
        EnterViews(s.(pending := Without(s.pending, i)), s.pending[i], clock);
      }
    case Hold(clock) => if s.lock.Sending? { TransmitViews(s, s.lock.frame, clock); }
    case Receive(k) => if k < |s.cells| { PopFlow(s.cells[k]); }
    case _ =>
  }

  lemma CloseLog(s: Bus)
    ensures CloseLocked(s).log == s.log
  {}

  lemma NewCellView(filters: seq<Filter>, opts: SubscriberOptions, now: nat, log: seq<Entry>)
    ensures var c := NewCell(filters, opts, now, |log|); SawItsLog(c, log) && Flow(c)
  {
    assert log[|log|..] == [];
  }

  lemma {:induction false} RunViews(events: seq<Event>)
    ensures Keyed(Run(events).cells, Run(events).subs) && Views(Run(events).cells, Run(events).log)
  {
    hide Step, Keyed, Views;
    if |events| > 0 {
      var s, e := Run(events[..|events| - 1]), events[|events| - 1];
      RunViews(events[..|events| - 1]);
      StepKeyed(s, e);
      StepViews(s, e);
    } else {
      EmptyViews();
    }
  }

  lemma EmptyViews()
    ensures Keyed(EMPTY.cells, EMPTY.subs) && Views(EMPTY.cells, EMPTY.log)
  {}

  /** In every interleaving, the frames offered to a subscriber's queue are exactly the broadcasts
      between its registration and its removal that its filters let through, in order. What it has
      received and still has queued is, in order and without additions, part of them; an unlimited
      Block subscriber gets all of them, and the other policies never hold more than the capacity. */
  lemma SubscriberView(events: seq<Event>, k: nat)
    requires k < |Run(events).cells|
    ensures var s := Run(events); var c := s.cells[k]; var from, to := c.birth, End(c, s.log);
      && from <= to <= |s.log|
      && (k in s.subs <==> c.death == None)
      && c.attempts == Filtered(s.log[from..to], c.filters)
      && Subsequence(c.received + c.sub.queue, c.attempts)
      && (c.sub.policy == Block && c.sub.rateLimit == 0 ==> c.received + c.sub.queue == c.attempts)
      && (c.sub.policy != Block ==> |c.sub.queue| <= c.sub.capacity)
      && (c.sub.policy != DropOldest ==> c.accepted == |c.received| + |c.sub.queue|)
  {
    hide Run, Subsequence, Filtered;
    RunViews(events);
  }

  // ---------------------------------------------------------------------------
  // After close
  // ---------------------------------------------------------------------------

  function RunFrom(s: Bus, events: seq<Event>): Bus {
    if |events| == 0 then s else Step(RunFrom(s, events[..|events| - 1]), events[|events| - 1])
  }

  predicate SubscribePending(s: Bus) {
    exists i | 0 <= i < |s.pending| :: s.pending[i].SubscribeReady?
  }

  /** Closed, with nobody registered and nobody about to be. */
  predicate Final(s: Bus) {
    s.closed && s.subs == [] && !SubscribePending(s)
  }

  lemma EnterFinal(s: Bus, q: Pending, clock: nat -> nat)
    requires Final(s) && !q.SubscribeReady?
    ensures Final(Enter(s, q, clock))
  {
    hide Answer, Store;
    assert Live(s.cells, s.subs) == [];
  }

  lemma RestFinal(pending: seq<Pending>, i: nat)
    requires i < |pending| && forall j | 0 <= j < |pending| :: !pending[j].SubscribeReady?
    ensures forall j | 0 <= j < |pending| - 1 :: !Without(pending, i)[j].SubscribeReady?
    ensures IsTally(pending[i]) ==> forall q | q in Rest(pending, i) :: !q.SubscribeReady?
  {}

  lemma StepFinal(s: Bus, e: Event)
    requires Final(s)
    ensures Final(Step(s, e))
  {
    hide Enter, Broadcast, TallyOf, Fanout, Count, CheckPublish, CheckSend;
    match e {
      case Proceed(i, clock) =>
        if i < |s.pending| {
          RestFinal(s.pending, i);
          var t := s.(pending := Without(s.pending, i));
          if IsTally(s.pending[i]) {
            hide Rest;
          } else {
            EnterFinal(t, s.pending[i], clock);
          }
        }
      case Hold(clock) => TallyKind(s, clock);
      case _ =>
    }
  }

  lemma TallyKind(s: Bus, clock: nat -> nat)
    ensures s.lock.Sending? ==> TallyOf(s, s.lock.frame, clock).SendTally?
  {}

  lemma {:induction false} RunFinal(s: Bus, events: seq<Event>)
    requires Final(s)
    ensures Final(RunFrom(s, events))
  {
    hide Final, Step;
    if |events| > 0 {
      RunFinal(s, events[..|events| - 1]);
      StepFinal(RunFrom(s, events[..|events| - 1]), events[|events| - 1]);
    }
  }

  /** Once close has cleared the list, somebody can still get registered exactly if a subscribe
      had already passed its closed check. */
  lemma CloseIsFinal(s: Bus)
    requires s.closed && s.subs == []
    ensures (exists events :: RunFrom(s, events).subs != []) <==> SubscribePending(s)
  {
    if SubscribePending(s) {
      LateSubscriber(s);
    } else {
      hide RunFrom, SubscribePending;
      forall events ensures RunFrom(s, events).subs == [] {
        RunFinal(s, events);
      }
    }
  }

  lemma HeldKeepsPending(s: Bus, clock: nat -> nat)
    ensures var t := Held(s, clock); |s.pending| <= |t.pending| && t.pending[..|s.pending|] == s.pending
  {
    hide Broadcast, TallyOf, Fanout;
  }

  /** Two steps are enough for a header to give up the lock. */
  lemma LockIsReleased(s: Bus, clock: nat -> nat)
    ensures Held(Held(s, clock), clock).lock.Free?
  {
    hide Broadcast, TallyOf, Fanout;
  }

  lemma LateSubscriber(s: Bus)
    requires SubscribePending(s)
    ensures exists events :: RunFrom(s, events).subs != []
  {
    var i :| 0 <= i < |s.pending| && s.pending[i].SubscribeReady?;
    var clock: nat -> nat := _ => 0;
    var h, e := Hold(clock), Proceed(i, clock);
    var t := Held(s, clock);
    var u := Held(t, clock);
    HeldKeepsPending(s, clock);
    HeldKeepsPending(t, clock);
    LockIsReleased(s, clock);
    hide Held;
    assert u.pending[i] == t.pending[i] == s.pending[i];
    assert |u.cells| in Step(u, e).subs;
    ThreeSteps(s, h, h, e);
    hide RunFrom, Step;
    assert RunFrom(s, [h, h, e]).subs != [];
  }

  lemma ThreeSteps(s: Bus, a: Event, b: Event, c: Event)
    ensures RunFrom(s, [a, b, c]) == Step(Step(Step(s, a), b), c)
  {
    hide Step;
    assert [a, b, c][..2] == [a, b] && [a, b][..1] == [a];
    assert RunFrom(s, [a]) == Step(RunFrom(s, []), a);
    assert RunFrom(s, [a, b]) == Step(RunFrom(s, [a]), b);
  }

  lemma RunSnoc(events: seq<Event>, e: Event)
    ensures Run(events + [e]) == Step(Run(events), e)
  {
    assert (events + [e])[..|events|] == events;
  }

  /** The bus after a subscribe and a close were both called, in that order. */
  lemma BothCalled(filters: seq<Filter>, opts: SubscriberOptions)
    ensures Run([SubscribeCall(filters, opts), CloseCall])
      == EMPTY.(closed := true, pending := [SubscribeReady(filters, opts), CloseReady])
  {
    var e := SubscribeCall(filters, opts);
    RunSnoc([], e);
    RunSnoc([e], CloseCall);
    assert [] + [e] == [e] && [e] + [CloseCall] == [e, CloseCall];
  }

  /** So when close takes the lock before a subscribe it raced with, the closed bus ends up with
      a registered subscriber whose queue nobody has closed. */
  lemma SubscriberOutlivesClose(filters: seq<Filter>, opts: SubscriberOptions, clock: nat -> nat)
    ensures var s := Run([SubscribeCall(filters, opts), CloseCall] + [Proceed(1, clock)] + [Proceed(0, clock)]);
      s.closed && s.pending == [] && s.subs == [0] && s.cells == [NewCell(filters, opts, clock(0), 0)]
  {
    var start := [SubscribeCall(filters, opts), CloseCall];
    BothCalled(filters, opts);
    RunSnoc(start, Proceed(1, clock));
    RunSnoc(start + [Proceed(1, clock)], Proceed(0, clock));
    hide Run, NewCell;
    var s := EMPTY.(closed := true, pending := [SubscribeReady(filters, opts), CloseReady]);
    assert Without(s.pending, 1) == [SubscribeReady(filters, opts)];
    assert Step(s, Proceed(1, clock)) == s.(pending := [SubscribeReady(filters, opts)]);
  }
}
