/** What the bus counters add up to. */
module BusMetrics {
  import opened Word
  import opened Wrappers
  import opened LinFrame
  import opened SubQueue
  import opened BusMachine
  import BusTheorems
  import opened BusTraffic

  /** Pushes accepted, and payload bytes in them, over the first n subscriptions. */
  function AcceptedIn(cells: seq<Cell>, n: nat): nat
    requires n <= |cells|
  {
    if n == 0 then 0 else AcceptedIn(cells, n - 1) + cells[n - 1].accepted
  }

  function AcceptedBytesIn(cells: seq<Cell>, n: nat): nat
    requires n <= |cells|
  {
    if n == 0 then 0 else AcceptedBytesIn(cells, n - 1) + cells[n - 1].acceptedBytes
  }

  function AcceptedOf(cells: seq<Cell>): nat {
    AcceptedIn(cells, |cells|)
  }

  function AcceptedBytesOf(cells: seq<Cell>): nat {
    AcceptedBytesIn(cells, |cells|)
  }

  function FanoutOf(log: seq<Entry>): nat {
    if |log| == 0 then 0 else FanoutOf(log[..|log| - 1]) + log[|log| - 1].fanout
  }

  function BytesOf(log: seq<Entry>): nat {
    if |log| == 0 then 0 else BytesOf(log[..|log| - 1]) + |log[|log| - 1].frame.data|
  }

  /** What the headers that have given up the lock have not counted yet; early is the part of
      the bytes whose deliveries are already counted. */
  datatype Tally = Tally(delivered: nat, dropped: nat, bytes: nat, early: nat)

  const NONE := Tally(0, 0, 0, 0)

  function One(q: Pending): Tally {
    match q
    case SendTally(d, x, b) => Tally(d, x, b, 0)
    case SendDrops(x, b) => Tally(0, x, b, b)
    case SendBytes(b) => Tally(0, 0, b, b)
    case _ => NONE
  }

  function Plus(a: Tally, b: Tally): Tally {
    Tally(a.delivered + b.delivered, a.dropped + b.dropped, a.bytes + b.bytes, a.early + b.early)
  }

  function Outstanding(pending: seq<Pending>): Tally {
    if |pending| == 0 then NONE else Plus(Outstanding(pending[..|pending| - 1]), One(pending[|pending| - 1]))
  }

  /** The write counters account for every broadcast, and for the header that holds the lock as
      far as it got. */
  predicate Writes(m: Metrics, lock: Lock, log: seq<Entry>) {
    && m.writeCount == |log| + (if lock.Sending? then 1 else 0)
    && m.bytesWritten == BytesOf(log) + (if lock.Free? then 0 else |lock.frame.data|)
  }

  /** The delivery counters with what is outstanding account for every accepted and refused push. */
  predicate Adds(m: Metrics, t: Tally, accepted: nat, bytes: nat, fanout: nat) {
    && m.deliverCount + t.delivered == accepted
    && m.deliverCount + m.dropCount + t.delivered + t.dropped == fanout
    && m.bytesDelivered + t.bytes == bytes
  }

  predicate Balanced(s: Bus) {
    && Writes(s.metrics, s.lock, s.log)
    && Adds(s.metrics, Outstanding(s.pending), AcceptedOf(s.cells), AcceptedBytesOf(s.cells), FanoutOf(s.log))
  }

  lemma {:induction false} OutstandingAppend(x: seq<Pending>, y: seq<Pending>)
    ensures Outstanding(x + y) == Plus(Outstanding(x), Outstanding(y))
  {
    hide One;
    if |y| == 0 {
      assert x + y == x;
    } else {
      var front, q := y[..|y| - 1], y[|y| - 1];
      OutstandingAppend(x, front);
      OutstandingSnoc(x + front, q);
      OutstandingSnoc(front, q);
      assert y == front + [q] && x + y == x + front + [q];
      hide Outstanding;
    }
  }

  lemma OutstandingSnoc(pending: seq<Pending>, q: Pending)
    ensures Outstanding(pending + [q]) == Plus(Outstanding(pending), One(q))
  {
    assert (pending + [q])[..|pending|] == pending;
  }

  lemma OutstandingWithout(pending: seq<Pending>, i: nat)
    requires i < |pending|
    ensures Outstanding(pending) == Plus(Outstanding(Without(pending, i)), One(pending[i]))
  {
    hide Outstanding, One;
    var x, y := pending[..i], pending[i + 1..];
    assert pending == x + [pending[i]] + y;
    OutstandingAppend(x + [pending[i]], y);
    OutstandingSnoc(x, pending[i]);
    OutstandingAppend(x, y);
  }

  /** Counting one counter moves its part from what is outstanding into the counters. */
  lemma OutstandingRest(pending: seq<Pending>, i: nat)
    requires i < |pending| && IsTally(pending[i])
    ensures var before, after := Outstanding(pending), Outstanding(Rest(pending, i));
      && before.bytes == after.bytes + (if pending[i].SendBytes? then pending[i].bytes else 0)
      && before.dropped == after.dropped + (if pending[i].SendDrops? then pending[i].dropped else 0)
      && before.delivered == after.delivered + (if pending[i].SendTally? then pending[i].delivered else 0)
      && before.early + (if pending[i].SendTally? then pending[i].bytes else 0)
           == after.early + (if pending[i].SendBytes? then pending[i].bytes else 0)
  {
    hide Outstanding, Without;
    OutstandingWithout(pending, i);
    match pending[i]
    case SendTally(_, x, b) => OutstandingUpdate(pending, i, SendDrops(x, b));
    case SendDrops(_, b) => OutstandingUpdate(pending, i, SendBytes(b));
    case SendBytes(_) =>
  }

  lemma OutstandingUpdate(pending: seq<Pending>, i: nat, q: Pending)
    requires i < |pending|
    ensures Outstanding(pending[i := q]) == Plus(Outstanding(Without(pending, i)), One(q))
  {
    OutstandingWithout(pending[i := q], i);
    assert Without(pending[i := q], i) == Without(pending, i);
  }

  predicate SameCounts(x: seq<Cell>, y: seq<Cell>) {
    |x| == |y| && forall k | 0 <= k < |x| :: x[k].accepted == y[k].accepted && x[k].acceptedBytes == y[k].acceptedBytes
  }

  lemma {:induction false} SameSumsIn(x: seq<Cell>, y: seq<Cell>, n: nat)
    requires SameCounts(x, y) && n <= |x|
    ensures AcceptedIn(x, n) == AcceptedIn(y, n) && AcceptedBytesIn(x, n) == AcceptedBytesIn(y, n)
  {
    if n > 0 {
      SameSumsIn(x, y, n - 1);
    }
  }

  lemma SameSums(x: seq<Cell>, y: seq<Cell>)
    requires SameCounts(x, y)
    ensures AcceptedOf(x) == AcceptedOf(y) && AcceptedBytesOf(x) == AcceptedBytesOf(y)
  {
    SameSumsIn(x, y, |x|);
  }

  /** The payload bytes of the accepted pushes among the first n subscriptions. */
  function DeliveredBytes(s: Bus, f: Frame, clock: nat -> nat, n: nat): nat
    requires n <= |s.cells|
  {
    if n == 0 then 0 else DeliveredBytes(s, f, clock, n - 1) + if Accepts(s, f, clock, n - 1) then |f.data| else 0
  }

  lemma {:induction false} DeliveredBytesProduct(s: Bus, f: Frame, clock: nat -> nat, n: nat)
    requires n <= |s.cells|
    ensures DeliveredBytes(s, f, clock, n) == |f.data| * Delivered(s, f, clock, n)
  {
    if n > 0 {
      DeliveredBytesProduct(s, f, clock, n - 1);
      hide Accepts;
      var a, x, y := |f.data|, Delivered(s, f, clock, n - 1), if Accepts(s, f, clock, n - 1) then 1 else 0;
      assert a * (x + y) == a * x + a * y;
    }
  }

  lemma {:induction false} BroadcastSumsIn(s: Bus, f: Frame, clock: nat -> nat, n: nat)
    requires n <= |s.cells|
    ensures AcceptedIn(Broadcast(s, f, clock), n) == AcceptedIn(s.cells, n) + Delivered(s, f, clock, n)
    ensures AcceptedBytesIn(Broadcast(s, f, clock), n) == AcceptedBytesIn(s.cells, n) + DeliveredBytes(s, f, clock, n)
  {
    if n > 0 {
      BroadcastSumsIn(s, f, clock, n - 1);
      CellCounts(s, f, clock, n - 1);
      hide Broadcast, Accepts;
    }
  }

  /** A broadcast raises the accepted counts by exactly what broadcast returns as delivered. */
  lemma BroadcastSums(s: Bus, f: Frame, clock: nat -> nat)
    ensures AcceptedOf(Broadcast(s, f, clock)) == AcceptedOf(s.cells) + Delivered(s, f, clock, |s.cells|)
    ensures AcceptedBytesOf(Broadcast(s, f, clock)) == AcceptedBytesOf(s.cells) + DeliveredBytes(s, f, clock, |s.cells|)
  {
    BroadcastSumsIn(s, f, clock, |s.cells|);
  }

  lemma {:induction false} PrefixSums(cells: seq<Cell>, c: Cell, n: nat)
    requires n <= |cells|
    ensures AcceptedIn(cells + [c], n) == AcceptedIn(cells, n)
      && AcceptedBytesIn(cells + [c], n) == AcceptedBytesIn(cells, n)
  {
    if n > 0 {
      PrefixSums(cells, c, n - 1);
    }
  }

  lemma CellsSnoc(cells: seq<Cell>, c: Cell)
    ensures AcceptedOf(cells + [c]) == AcceptedOf(cells) + c.accepted
    ensures AcceptedBytesOf(cells + [c]) == AcceptedBytesOf(cells) + c.acceptedBytes
  {
    PrefixSums(cells, c, |cells|);
  }

  lemma CellCounts(s: Bus, f: Frame, clock: nat -> nat, k: nat)
    requires k < |s.cells|
    ensures var b, ok := Broadcast(s, f, clock)[k], Accepts(s, f, clock, k);
      && b.accepted == s.cells[k].accepted + (if ok then 1 else 0)
      && b.acceptedBytes == s.cells[k].acceptedBytes + (if ok then |f.data| else 0)
  {
    hide Pushed, Matches;
  }

  lemma LogSnoc(log: seq<Entry>, e: Entry)
    ensures FanoutOf(log + [e]) == FanoutOf(log) + e.fanout
    ensures BytesOf(log + [e]) == BytesOf(log) + |e.frame.data|
  {
    assert (log + [e])[..|log|] == log;
  }

  lemma TransmitBalanced(s: Bus, clock: nat -> nat)
    requires Balanced(s) && s.lock.Sending?
    ensures Balanced(Transmit(s, s.lock.frame, clock))
  {
    hide AcceptedOf, AcceptedBytesOf, FanoutOf, BytesOf, Outstanding, Broadcast, Fanout, Delivered,
      DeliveredBytes, TallyOf;
    var f, n := s.lock.frame, |s.cells|;
    BroadcastSums(s, f, clock);
    TallyShape(s, f, clock);
    OutstandingSnoc(s.pending, TallyOf(s, f, clock));
    LogSnoc(s.log, Entry(f, |s.pubs|, Fanout(s, f, n)));
  }

  lemma TallyShape(s: Bus, f: Frame, clock: nat -> nat)
    ensures var n := |s.cells|; var ok := Delivered(s, f, clock, n);
      TallyOf(s, f, clock) == SendTally(ok, Fanout(s, f, n) - ok, DeliveredBytes(s, f, clock, n))
  {
    DeliveredBytesProduct(s, f, clock, |s.cells|);
  }

  lemma GcCounts(s: Bus)
    ensures SameCounts(s.cells, Gc(s).cells)
    ensures Gc(s).metrics == s.metrics && Gc(s).log == s.log && Gc(s).pending == s.pending && Gc(s).lock == s.lock
  {}

  lemma SendBalanced(s: Bus, id: u8)
    requires Balanced(s) && s.lock.Free?
    ensures Balanced(SendLocked(s, id))
  {
    hide Gc, Answer, AcceptedOf, AcceptedBytesOf, FanoutOf, BytesOf, Outstanding;
    GcCounts(s);
    SameSums(s.cells, Gc(s).cells);
  }

  lemma CloseCounts(s: Bus)
    ensures var t := CloseLocked(s);
      && SameCounts(s.cells, t.cells)
      && t.metrics == s.metrics && t.log == s.log && t.pending == s.pending && t.lock == s.lock
  {}

  lemma EnterBalanced(s: Bus, q: Pending, clock: nat -> nat)
    requires Balanced(s) && s.lock.Free?
    ensures Balanced(Enter(s, q, clock))
  {
    hide SendLocked, CloseLocked, Store, NewCell, AcceptedOf, AcceptedBytesOf, FanoutOf, BytesOf, Outstanding;
    match q
    case SendReady(id) =>
      SendBalanced(s, id);
    case SubscribeReady(filters, opts) =>
      CellsSnoc(s.cells, NewCell(filters, opts, clock(|s.cells|), |s.log|));
      EmptyCounts(filters, opts, clock(|s.cells|), |s.log|);
    case CloseReady =>
      CloseCounts(s);
      SameSums(s.cells, CloseLocked(s).cells);
    case _ =>
  }

  lemma AdvanceBalanced(s: Bus, i: nat, clock: nat -> nat)
    requires Balanced(s) && i < |s.pending|
    ensures Balanced(Advance(s, i, clock))
  {
    hide Enter, Rest, Without, AcceptedOf, AcceptedBytesOf, FanoutOf, BytesOf, Outstanding;
    if IsTally(s.pending[i]) {
      OutstandingRest(s.pending, i);
    } else if s.lock.Free? {
      OutstandingWithout(s.pending, i);
      EnterBalanced(s.(pending := Without(s.pending, i)), s.pending[i], clock);
    }
  }

  lemma EmptyCounts(filters: seq<Filter>, opts: SubscriberOptions, now: nat, birth: nat)
    ensures var c := NewCell(filters, opts, now, birth); c.accepted == 0 && c.acceptedBytes == 0
  {}

  lemma ErrorBalanced(s: Bus)
    requires Balanced(s)
    ensures Balanced(CountError(s))
  {
    hide AcceptedOf, AcceptedBytesOf, FanoutOf, BytesOf, Outstanding;
  }

  lemma HeldBalanced(s: Bus, clock: nat -> nat)
    requires Balanced(s)
    ensures Balanced(Held(s, clock))
  {
    hide Transmit, AcceptedOf, AcceptedBytesOf, FanoutOf, BytesOf, Outstanding;
    if s.lock.Sending? {
      TransmitBalanced(s, clock);
    }
  }

  /** A new operation has nothing to count yet. */
  lemma CallBalanced(s: Bus, q: Pending, closed: bool)
    requires Balanced(s) && !IsTally(q)
    ensures Balanced(s.(pending := s.pending + [q], closed := closed))
  {
    OutstandingSnoc(s.pending, q);
    hide AcceptedOf, AcceptedBytesOf, FanoutOf, BytesOf, Outstanding;
  }

  lemma CellsBalanced(s: Bus, cells: seq<Cell>)
    requires Balanced(s) && SameCounts(s.cells, cells)
    ensures Balanced(s.(cells := cells))
  {
    SameSums(s.cells, cells);
    hide AcceptedOf, AcceptedBytesOf, FanoutOf, BytesOf, Outstanding, SameCounts;
  }

  lemma StepBalanced(s: Bus, e: Event)
    requires Balanced(s)
    ensures Balanced(Step(s, e))
  {
    hide Advance, Held, CountError, Balanced, CheckPublish, CheckSend;
    match e
    case Proceed(i, clock) => if i < |s.pending| { AdvanceBalanced(s, i, clock); }
    case Hold(clock) => HeldBalanced(s, clock);
    case PublishCall(id, data, ct) =>
      ErrorBalanced(s);
      CallBalanced(s, PublishReady(Publication(id, data, StoredType(id, ct))), s.closed);
    case SubscribeCall(filters, opts) => CallBalanced(s, SubscribeReady(filters, opts), s.closed);
    case SendCall(id) =>
      ErrorBalanced(s);
      CallBalanced(s, SendReady(id), s.closed);
    case CloseCall => CallBalanced(s, CloseReady, true);
    case Receive(_) => CellsBalanced(s, Step(s, e).cells);
    case CloseReceiver(_) => CellsBalanced(s, Step(s, e).cells);
  }

  lemma EmptyBalanced()
    ensures Balanced(EMPTY)
  {}

  lemma {:induction false} RunBalanced(events: seq<Event>)
    ensures Balanced(Run(events))
  {
    hide Step, Balanced;
    if |events| > 0 {
      RunBalanced(events[..|events| - 1]);
      StepBalanced(Run(events[..|events| - 1]), events[|events| - 1]);
    } else {
      EmptyBalanced();
    }
  }

  lemma {:induction false} LogBytes(log: seq<Entry>)
    requires forall e | e in log :: 1 <= |e.frame.data| <= 8
    ensures |log| <= BytesOf(log) <= 8 * |log|
  {
    if |log| > 0 {
      var front := log[..|log| - 1];
      assert log[|log| - 1] in log;
      forall e | e in front ensures 1 <= |e.frame.data| <= 8 { assert e in log; }
      LogBytes(front);
    }
  }

  /** Delivered bytes stay between one and eight per delivered frame, once the bytes of the
      deliveries counted early are added. */
  predicate ByteBounds(m: Metrics, pending: seq<Pending>) {
    && m.deliverCount <= m.bytesDelivered + Outstanding(pending).early <= 8 * m.deliverCount
    && forall q | q in pending && q.SendTally? :: q.delivered <= q.bytes <= 8 * q.delivered
  }

  lemma TallyBytes(s: Bus, f: Frame, clock: nat -> nat)
    requires 1 <= |f.data| <= 8
    ensures var q := TallyOf(s, f, clock); q.SendTally? && q.delivered <= q.bytes <= 8 * q.delivered
  {
    BoundedProduct(|f.data|, Delivered(s, f, clock, |s.cells|));
  }

  lemma BoundedProduct(a: nat, d: nat)
    requires 1 <= a <= 8
    ensures d <= a * d <= 8 * d
  {}

  lemma OthersKept(pending: seq<Pending>, i: nat)
    requires i < |pending|
    ensures forall q | q in Without(pending, i) :: q in pending
    ensures IsTally(pending[i]) ==> forall q | q in Rest(pending, i) && q.SendTally? :: q in pending
  {}

  lemma AdvanceBytes(s: Bus, i: nat, clock: nat -> nat)
    requires ByteBounds(s.metrics, s.pending) && i < |s.pending|
    ensures ByteBounds(Advance(s, i, clock).metrics, Advance(s, i, clock).pending)
  {
    hide Outstanding, Rest, Without;
    OthersKept(s.pending, i);
    if IsTally(s.pending[i]) {
      assert s.pending[i] in s.pending;
      OutstandingRest(s.pending, i);
    } else if s.lock.Free? {
      OutstandingWithout(s.pending, i);
      EnterKeeps(s.(pending := Without(s.pending, i)), s.pending[i], clock);
      hide Enter;
    }
  }

  lemma EnterKeeps(s: Bus, q: Pending, clock: nat -> nat)
    ensures var t := Enter(s, q, clock);
      && t.pending == s.pending
      && t.metrics.deliverCount == s.metrics.deliverCount && t.metrics.bytesDelivered == s.metrics.bytesDelivered
  {
    hide Answer, Store, NewCell, Live;
  }

  lemma StepBytes(s: Bus, e: Event)
    requires ByteBounds(s.metrics, s.pending) && (s.lock.Sending? ==> 1 <= |s.lock.frame.data| <= 8)
    ensures ByteBounds(Step(s, e).metrics, Step(s, e).pending)
  {
    hide Advance, Outstanding, TallyOf, Broadcast, Fanout, PopAt, CheckPublish, CheckSend;
    match e
    case Proceed(i, clock) =>
      if i < |s.pending| { AdvanceBytes(s, i, clock); }
    case Hold(clock) =>
      if s.lock.Sending? {
        TallyBytes(s, s.lock.frame, clock);
        OutstandingSnoc(s.pending, TallyOf(s, s.lock.frame, clock));
      }
    case PublishCall(id, data, ct) =>
      OutstandingSnoc(s.pending, PublishReady(Publication(id, data, StoredType(id, ct))));
    case SubscribeCall(filters, opts) => OutstandingSnoc(s.pending, SubscribeReady(filters, opts));
    case SendCall(id) => OutstandingSnoc(s.pending, SendReady(id));
    case CloseCall => OutstandingSnoc(s.pending, CloseReady);
    case _ =>
  }

  lemma {:induction false} RunBytes(events: seq<Event>)
    ensures ByteBounds(Run(events).metrics, Run(events).pending)
  {
    hide Step, Traffic;
    if |events| > 0 {
      var s := Run(events[..|events| - 1]);
      hide ByteBounds;
      RunBytes(events[..|events| - 1]);
      RunTraffic(events[..|events| - 1]);
      HeldFrame(s);
      StepBytes(s, events[|events| - 1]);
    }
  }

  lemma HeldFrame(s: Bus)
    requires Traffic(s)
    ensures !s.lock.Free? ==> 1 <= |s.lock.frame.data| <= 8
    ensures forall e | e in s.log :: 1 <= |e.frame.data| <= 8
  {
    hide TableIsLast, Admissible, LastPublish, CalcChecksum, ProtectId;
    forall e | e in s.log ensures 1 <= |e.frame.data| <= 8 {
      assert GoodEntry(e, s.pubs);
    }
  }

  /** A header is somewhere between its first and its last counter. */
  predicate InFlight(s: Bus) {
    !s.lock.Free? || exists q | q in s.pending :: IsTally(q)
  }

  /** In every interleaving, with no header in flight: writes are the broadcasts made, deliveries
      are the pushes accepted by all subscriptions ever made, deliveries with drops are the
      matching registered subscribers summed over the broadcasts, and there are one to eight
      bytes to a frame. */
  lemma MetricsConservation(events: seq<Event>)
    ensures var s := Run(events); var m := s.metrics;
      !InFlight(s) ==>
        && m.writeCount == |s.log| && m.bytesWritten == BytesOf(s.log)
        && m.deliverCount == AcceptedOf(s.cells) && m.bytesDelivered == AcceptedBytesOf(s.cells)
        && m.deliverCount + m.dropCount == FanoutOf(s.log)
        && m.writeCount <= m.bytesWritten <= 8 * m.writeCount
        && m.deliverCount <= m.bytesDelivered <= 8 * m.deliverCount
  {
    var s := Run(events);
    InFlightBounds(events);
    RunBalanced(events);
    hide Run, BytesOf, FanoutOf, AcceptedOf, AcceptedBytesOf, Outstanding;
    if !InFlight(s) {
      NothingOutstanding(s.pending);
    }
  }

  /** What is left of that at any moment: the counters with what is outstanding still add up,
      a write is never counted before its bytes and a byte never before its delivery, and the
      bounds in the other direction miss by no more than the header that holds the lock, and by
      the bytes whose deliveries are counted already. */
  lemma InFlightBounds(events: seq<Event>)
    ensures var s := Run(events); var m, t := s.metrics, Outstanding(s.pending);
      && Balanced(s)
      && m.writeCount <= m.bytesWritten <= 8 * m.writeCount + (if s.lock.Writing? then 8 else 0)
      && (s.lock.Writing? ==> m.bytesWritten > m.writeCount)
      && m.bytesDelivered <= 8 * m.deliverCount && m.deliverCount <= m.bytesDelivered + t.early
  {
    var s := Run(events);
    RunBalanced(events);
    RunBytes(events);
    RunTraffic(events);
    HeldFrame(s);
    hide Run, BytesOf, FanoutOf, AcceptedOf, AcceptedBytesOf, Outstanding, Traffic;
    LogBytes(s.log);
  }

  /** The first header of a bus, caught between its two write counters: bytes without a write. */
  lemma CountersDisagree(f: Frame)
    requires ValidateFrame(f).Ok? && f.checksum == CalcChecksum(ProtectId(f.id), f.data, f.checksumType)
    ensures var publish := [PublishCall(f.id, Some(f.data), f.checksumType), Proceed(0, _ => 0)];
      var m := Run(publish + [SendCall(f.id)] + [Proceed(0, _ => 0)]).metrics;
      m.writeCount == 0 && m.bytesWritten == |f.data| > 0
  {
    hide Step, CalcChecksum, ProtectId;
    var publish := [PublishCall(f.id, Some(f.data), f.checksumType), Proceed(0, _ => 0)];
    Published(f);
    BusTheorems.RunSnoc(publish, SendCall(f.id));
    BusTheorems.RunSnoc(publish + [SendCall(f.id)], Proceed(0, _ => 0));
    hide Run;
    HeaderSteps(Run(publish), f);
  }

  lemma {:induction false} NothingOutstanding(pending: seq<Pending>)
    requires forall q | q in pending :: !IsTally(q)
    ensures Outstanding(pending) == NONE
  {
    if |pending| > 0 {
      var front := pending[..|pending| - 1];
      assert pending[|pending| - 1] in pending;
      forall q | q in front ensures !IsTally(q) { assert q in pending; }
      NothingOutstanding(front);
    }
  }

  // ---------------------------------------------------------------------------
  // Reading the counters
  // ---------------------------------------------------------------------------

  predicate AtMost(a: Metrics, b: Metrics) {
    && a.writeCount <= b.writeCount && a.deliverCount <= b.deliverCount && a.dropCount <= b.dropCount
    && a.bytesWritten <= b.bytesWritten && a.bytesDelivered <= b.bytesDelivered && a.errorCount <= b.errorCount
  }

  lemma EnterGrows(s: Bus, q: Pending, clock: nat -> nat)
    ensures AtMost(s.metrics, Enter(s, q, clock).metrics)
  {
    hide Answer, Store, NewCell, Live;
  }

  lemma StepGrows(s: Bus, e: Event)
    ensures AtMost(s.metrics, Step(s, e).metrics)
  {
    hide Enter, Broadcast, TallyOf, Fanout, PopAt, CheckPublish, CheckSend, Without, Rest;
    if e.Proceed? && e.i < |s.pending| {
      EnterGrows(s.(pending := Without(s.pending, e.i)), s.pending[e.i], e.clock);
    }
  }

  lemma {:induction false} RunGrows(events: seq<Event>, i: nat)
    requires i <= |events|
    ensures AtMost(Run(events[..i]).metrics, Run(events).metrics)
  {
    if i < |events| {
      var front := events[..|events| - 1];
      hide Step;
      RunGrows(front, i);
      assert front[..i] == events[..i];
      StepGrows(Run(front), events[|events| - 1]);
    } else {
      assert events[..i] == events;
    }
  }

  /** metrics() loads the six counters one after the other, at six moments of the run. */
  function Snapshot(events: seq<Event>, at: seq<nat>): Metrics
    requires |at| == 6 && forall k | 0 <= k < 6 :: at[k] <= |events|
  {
    Metrics(Run(events[..at[0]]).metrics.writeCount, Run(events[..at[1]]).metrics.deliverCount,
            Run(events[..at[2]]).metrics.dropCount, Run(events[..at[3]]).metrics.bytesWritten,
            Run(events[..at[4]]).metrics.bytesDelivered, Run(events[..at[5]]).metrics.errorCount)
  }

  /** What metrics() returns lies, counter by counter, between the counters at its first load and
      at its last; so it is exact when nothing was counted in between. */
  lemma SnapshotBetween(events: seq<Event>, at: seq<nat>)
    requires |at| == 6 && (forall j, k | 0 <= j <= k < 6 :: at[j] <= at[k]) && at[5] <= |events|
    ensures AtMost(Run(events[..at[0]]).metrics, Snapshot(events, at))
    ensures AtMost(Snapshot(events, at), Run(events[..at[5]]).metrics)
  {
    hide Run;
    forall k | 0 <= k < 6 ensures AtMost(Run(events[..at[0]]).metrics, Run(events[..at[k]]).metrics) {
      RunGrows(events[..at[k]], at[0]);
      assert events[..at[k]][..at[0]] == events[..at[0]];
    }
    forall k | 0 <= k < 6 ensures AtMost(Run(events[..at[k]]).metrics, Run(events[..at[5]]).metrics) {
      RunGrows(events[..at[5]], at[k]);
      assert events[..at[5]][..at[k]] == events[..at[k]];
    }
  }

  // ---------------------------------------------------------------------------
  // Errors
  // ---------------------------------------------------------------------------

  /** A call that is refused, or a header that finds no published response. */
  predicate Fails(s: Bus, e: Event) {
    match e
    case PublishCall(id, data, _) => s.closed || id > LIN_MAX_ID || (data.Some? && |data.value| > LIN_MAX_DATA_LEN)
    case SendCall(id) => s.closed || id > LIN_MAX_ID
    case Proceed(i, _) =>
      i < |s.pending| && s.pending[i].SendReady? && s.lock.Free? && Stored(LastPublish(s.pubs, s.pending[i].id)) == None
    case _ => false
  }

  function Failures(events: seq<Event>): nat {
    if |events| == 0 then 0
    else
      var front := events[..|events| - 1];
      Failures(front) + if Fails(Run(front), events[|events| - 1]) then 1 else 0
  }

  lemma SendErrors(s: Bus, id: u8)
    ensures SendLocked(s, id).metrics.errorCount == s.metrics.errorCount + if id in s.responses then 0 else 1
  {
    hide Live, Response;
  }

  lemma StepErrors(s: Bus, e: Event)
    requires TableIsLast(s.responses, s.pubs)
    ensures Step(s, e).metrics.errorCount == s.metrics.errorCount + if Fails(s, e) then 1 else 0
  {
    hide SendLocked, Store, LastPublish, NewCell, PopAt, Broadcast, TallyOf, Fanout, Rest;
    if e.Proceed? && e.i < |s.pending| && s.pending[e.i].SendReady? {
      var id := s.pending[e.i].id;
      assert TableAt(s.responses, id) == Stored(LastPublish(s.pubs, id));
      SendErrors(s.(pending := Without(s.pending, e.i)), id);
    }
  }

  /** In every interleaving the error counter is the number of refused calls and unanswered
      headers; a header answered with an empty frame is not counted. */
  lemma {:induction false} ErrorsCounted(events: seq<Event>)
    ensures Run(events).metrics.errorCount == Failures(events)
  {
    if |events| > 0 {
      var front := events[..|events| - 1];
      hide Step, Fails, TableIsLast;
      ErrorsCounted(front);
      RunTraffic(front);
      StepErrors(Run(front), events[|events| - 1]);
    }
  }
}
