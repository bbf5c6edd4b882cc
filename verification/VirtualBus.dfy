/** The in-process bus. Each method is the sequence of steps the bus machine takes for it when
    nothing comes in between; the machine explores the interleavings. */
module VirtualBus {
  import opened Word
  import opened Wrappers
  import opened LinFrame
  import opened SubQueue
  import opened BusMachine
  import opened BusTheorems

  datatype VirtualSub = VirtualSub(filters: seq<Filter>, inner: SubInner)

  // The whole run of an operation that nothing interrupts: its call, then each of its steps.

  function AfterPublish(s: Bus, id: u8, data: Option<seq<u8>>, requested: ChecksumType): Bus {
    var called := Step(s, PublishCall(id, data, requested));
    if CheckPublish(s.closed, id, data).Err? then called else Step(called, Proceed(0, _ => 0))
  }

  function AfterSubscribe(s: Bus, filters: seq<Filter>, opts: SubscriberOptions, now: nat): Bus {
    var called := Step(s, SubscribeCall(filters, opts));
    if s.closed then called else Step(called, Proceed(0, _ => now))
  }

  function AfterSend(s: Bus, id: u8, clock: nat -> nat): Bus {
    var called := Step(s, SendCall(id));
    if CheckSend(s.closed, id).Err? then called
    else
      var entered := Step(called, Proceed(0, clock));
      if Answer(s.responses, id).Ok? then AfterTallies(Step(Step(entered, Hold(clock)), Hold(clock)), clock)
        else entered
  }

  /** The three counters a header updates after it has given up the lock. */
  function AfterTallies(s: Bus, clock: nat -> nat): Bus {
    Step(Step(Step(s, Proceed(0, clock)), Proceed(0, clock)), Proceed(0, clock))
  }

  function AfterClose(s: Bus): Bus {
    var called := Step(s, CloseCall);
    if s.closed then called else Step(called, Proceed(0, _ => 0))
  }

  /** The bus as if only the first n registered subscriptions existed. */
  function Prefix(s: Bus, n: nat): Bus
    requires n <= |s.subs|
  {
    s.(subs := s.subs[..n])
  }

  ghost function Position(subs: seq<nat>, key: nat): (i: nat)
    requires key in subs
    ensures i < |subs| && subs[i] == key
  {
    var i :| 0 <= i < |subs| && subs[i] == key;
    i
  }

  /** The clock reading of each subscription when the i-th registered one reads readings(i). */
  ghost function ClockOf(subs: seq<nat>, readings: nat -> nat): nat -> nat {
    (key: nat) => (var t: nat := if key in subs then readings(Position(subs, key)) else 0; t)
  }

  /** The subscriptions are distinct objects, and each is in the state its cell records. */
  ghost predicate SameQueues(queues: set<SubInner>, all: seq<VirtualSub>, cells: seq<Cell>)
    reads queues
  {
    && |all| == |cells|
    && (forall v | v in all :: v.inner in queues)
    && (forall i, j | 0 <= i < j < |all| :: all[i].inner != all[j].inner)
    && (forall k | 0 <= k < |all| :: all[k].inner.Valid())
    && (forall k | 0 <= k < |all| :: all[k].filters == cells[k].filters && all[k].inner.State() == cells[k].sub)
  }

  /** The registered subscriptions are the ones the machine's list points at. */
  ghost predicate SameList(subs: seq<VirtualSub>, all: seq<VirtualSub>, keys: seq<nat>) {
    && |subs| == |keys|
    && (forall i | 0 <= i < |subs| :: keys[i] < |all| && subs[i] == all[keys[i]])
  }

  /** The subscriptions of the bus are those of the model, with no operation half done. */
  ghost predicate Linked(queues: set<SubInner>, subs: seq<VirtualSub>, all: seq<VirtualSub>, s: Bus)
    reads queues
  {
    && Keyed(s.cells, s.subs)
    && s.pending == [] && s.lock.Free?
    && SameQueues(queues, all, s.cells)
    && SameList(subs, all, s.subs)
  }

  class VirtualBus {
    var closed: bool
    var responses: map<u8, SlaveResponse>
    var subs: seq<VirtualSub>
    var writeCount: nat
    var deliverCount: nat
    var dropCount: nat
    var bytesWritten: nat
    var bytesDelivered: nat
    var errorCount: nat
    /** Every subscription ever made; the machine's cells are numbered like it. */
    ghost var all: seq<VirtualSub>
    ghost var queues: set<SubInner>

    function GetMetrics(): Metrics
      reads this
    {
      Metrics(writeCount, deliverCount, dropCount, bytesWritten, bytesDelivered, errorCount)
    }

    /** The fields of the bus itself are those of the machine. */
    ghost predicate SameFields(s: Bus)
      reads this
    {
      closed == s.closed && responses == s.responses && GetMetrics() == s.metrics
    }

    /** The bus is in the state s of the machine. */
    ghost predicate Models(s: Bus)
      reads this, queues
    {
      SameFields(s) && Linked(queues, subs, all, s)
    }

    constructor ()
      ensures Models(EMPTY) && all == [] && queues == {}
    {
      closed, responses, subs := false, map[], [];
      writeCount, deliverCount, dropCount, bytesWritten, bytesDelivered, errorCount := 0, 0, 0, 0, 0, 0;
      all, queues := [], {};
    }

    /** A rejected call counts as an error and changes nothing else. */
    method Fail(ghost s: Bus)
      requires Models(s)
      modifies this`errorCount
      ensures Models(CountError(s))
    {
      SameLinks(queues, subs, all, s, CountError(s));
      hide Linked;
      errorCount := errorCount + 1;
    }

    method Publish(id: u8, data: Option<seq<u8>>, requested: ChecksumType, ghost s: Bus) returns (r: Result<(), Error>)
      requires Models(s)
      modifies this`responses, this`errorCount
      ensures r == CheckPublish(s.closed, id, data)
      ensures Models(AfterPublish(s, id, data, requested))
    {
      PublishEffect(s, id, data, requested);
      hide AfterPublish, Linked, Store, CountError;
      var ct := if id == LIN_DIAG_REQUEST_ID || id == LIN_DIAG_RESPONSE_ID then Classic else requested;
      if closed {
        Fail(s);
        return Err(Closed);
      }
      if id > LIN_MAX_ID {
        Fail(s);
        return Err(InvalidFrame);
      }
      if data.Some? && |data.value| > LIN_MAX_DATA_LEN {
        Fail(s);
        return Err(PayloadTooLarge);
      }
      SameLinks(queues, subs, all, s, AfterPublish(s, id, data, requested));
      StoreCases(responses, id, data, ct);
      match data {
        case Some(d) => responses := responses[id := SlaveResponse(d, ct)];
        case None => responses := responses - {id};
      }
      r := Ok(());
    }

    method Subscribe(filters: seq<Filter>, opts: SubscriberOptions, now: nat, ghost s: Bus)
      returns (r: Result<SubInner, Error>)
      requires Models(s)
      modifies this`subs, this`all, this`queues
      ensures r.Err? <==> s.closed
      ensures r.Err? ==> r.error == Closed && all == old(all) && queues == old(queues)
      ensures r.Ok? ==>
        fresh(r.value) && all == old(all) + [VirtualSub(filters, r.value)] && queues == old(queues) + {r.value}
      ensures Models(AfterSubscribe(s, filters, opts, now))
    {
      hide AfterSubscribe, Linked, NewSub;
      if closed {
        SubscribeRefused(s, filters, opts, now);
        return Err(Closed);
      }
      var inner := new SubInner(opts.ChanDepth(DEFAULT_DEPTH), opts.backPressure, opts.rateLimitPerSec, now);
      LinkNew(queues, subs, all, s, VirtualSub(filters, inner), filters, opts, now);
      subs := subs + [VirtualSub(filters, inner)];
      all := all + [VirtualSub(filters, inner)];
      queues := queues + {inner};
      r := Ok(inner);
    }

    /** Delivered and dropped counts, with every matching queue pushed once. */
    method BroadcastFrame(frame: Frame, readings: nat -> nat, ghost s: Bus) returns (delivered: nat, dropped: nat)
      requires Linked(queues, subs, all, s)
      modifies queues
      ensures Linked(queues, subs, all, Sent(s, frame, ClockOf(s.subs, readings)))
      ensures delivered == Delivered(s, frame, ClockOf(s.subs, readings), |s.cells|)
      ensures delivered + dropped == Fanout(s, frame, |s.cells|)
    {
      hide SameQueues, Pushed, Broadcast, Delivered, Fanout, Keyed, ClockOf, PushAt, Sent;
      delivered, dropped := 0, 0;
      ghost var clock := ClockOf(s.subs, readings);
      SameFilters(queues, all, s.cells);
      NoKeys(s, frame, clock, |all|);
      NoPushes(s, frame, clock);
      for i := 0 to |subs|
        invariant SameQueues(queues, all, Broadcast(Prefix(s, i), frame, clock))
        invariant delivered == Delivered(Prefix(s, i), frame, clock, |all|)
        invariant delivered + dropped == Fanout(Prefix(s, i), frame, |all|)
      {
        ghost var key := s.subs[i];
        KeyedSubs(s);
        ClockAt(s.subs, readings, i);
        NextKey(s, frame, clock, i, |all|);
        NextCells(s, frame, clock, i);
        if Matches(subs[i].filters, frame) {
          var ok := PushTo(subs[i].inner, key, Broadcast(Prefix(s, i), frame, clock), frame, readings(i));
          if ok {
            delivered := delivered + 1;
          } else {
            dropped := dropped + 1;
          }
        }
      }
      assert Prefix(s, |subs|) == s;
      LinkSent(queues, subs, all, s, frame, clock);
    }

    /** The subscriptions whose receiver has not closed them. */
    method KeepOpen(ghost s: Bus) returns (kept: seq<VirtualSub>)
      requires SameList(subs, all, s.subs) && |all| == |s.cells|
      requires forall k | 0 <= k < |all| :: all[k].inner.closed == s.cells[k].sub.closed
      ensures SameList(kept, all, Live(s.cells, s.subs))
    {
      kept := [];
      for i := 0 to |subs|
        invariant SameList(kept, all, Live(s.cells, s.subs[..i]))
      {
        LiveSnoc(s.cells, s.subs, i);
        hide Live;
        if !subs[i].inner.closed {
          kept := kept + [subs[i]];
        }
      }
      assert s.subs[..|subs|] == s.subs;
    }

    /** Drop the subscriptions whose receiver has closed them. */
    method CollectClosed(ghost s: Bus)
      requires Linked(queues, subs, all, s)
      modifies this`subs
      ensures Linked(queues, subs, all, Gc(s))
    {
      OpenFlags(queues, all, s.cells);
      var kept := KeepOpen(s);
      LinkGc(queues, subs, all, s, kept);
      hide Linked, Live, Gc;
      subs := kept;
    }

    /** Look up the response and build the frame. */
    method LookUp(id: u8) returns (r: Result<Frame, Error>)
      ensures r == Answer(responses, id)
    {
      hide CalcChecksum, ProtectId;
      if id !in responses {
        return Err(NoResponse);
      }
      var resp := responses[id];
      var pid := ProtectId(id);
      var checksum := ComputeChecksum(pid, resp.data, resp.checksumType);
      var frame := Frame(id, resp.data, checksum, resp.checksumType);
      if ValidateFrame(frame).Err? {
        return Err(InvalidFrame);
      }
      r := Ok(frame);
    }

    method SendHeader(id: u8, readings: nat -> nat, ghost s: Bus) returns (r: Result<Frame, Error>)
      requires Models(s)
      modifies this, queues
      ensures all == old(all) && queues == old(queues)
      ensures r == if CheckSend(s.closed, id).Err? then Err(CheckSend(s.closed, id).error) else Answer(s.responses, id)
      ensures Models(AfterSend(s, id, ClockOf(Gc(s).subs, readings)))
    {
      SendEffect(s, id, ClockOf(Gc(s).subs, readings));
      hide AfterSend, Linked, Answer, Locked, ClockOf, CountError, Gc;
      if closed {
        Fail(s);
        return Err(Closed);
      }
      if id > LIN_MAX_ID {
        Fail(s);
        return Err(InvalidFrame);
      }
      r := AnswerHeader(id, readings, s);
    }

    /** The part of send_header from the lock on. */
    method AnswerHeader(id: u8, readings: nat -> nat, ghost s: Bus) returns (r: Result<Frame, Error>)
      requires Models(s)
      modifies this`subs, this`writeCount, this`deliverCount, this`dropCount, this`bytesWritten, this`bytesDelivered,
        this`errorCount, queues
      ensures r == Answer(s.responses, id)
      ensures Models(Locked(s, id, ClockOf(Gc(s).subs, readings)))
    {
      hide Linked, Answer, Sent, ClockOf, CountError;
      CollectClosed(s);
      r := LookUp(id);
      match r {
        case Ok(frame) => TransmitFrame(frame, readings, Gc(s));
        case Err(NoResponse) => Fail(Gc(s));
        case Err(_) =>
      }
    }

    /** The part of send_header that counts the frame, broadcasts it and adds the tally. */
    method TransmitFrame(frame: Frame, readings: nat -> nat, ghost s: Bus)
      requires Models(s)
      modifies this`bytesWritten, this`writeCount, this`deliverCount, this`dropCount, this`bytesDelivered, queues
      ensures Models(Sent(s, frame, ClockOf(s.subs, readings)))
    {
      hide Linked, Broadcast, Fanout, Delivered, ClockOf;
      bytesWritten := bytesWritten + |frame.data|;
      writeCount := writeCount + 1;
      var delivered, dropped := BroadcastFrame(frame, readings, s);
      SentFields(s, frame, ClockOf(s.subs, readings), delivered, dropped);
      hide Sent;
      deliverCount := deliverCount + delivered;
      dropCount := dropCount + dropped;
      bytesDelivered := bytesDelivered + |frame.data| * delivered;
    }

    method Close(ghost s: Bus)
      requires Models(s)
      modifies this`closed, this`subs, queues
      ensures Models(AfterClose(s))
    {
      hide AfterClose, CloseLocked, SameQueues, SameList, Keyed;
      CloseEffect(s);
      hide Linked;
      if closed {
        return;
      }
      closed := true;
      CloseQueues(s);
      subs := [];
    }

    /** The part of close under the lock, before the list is cleared. */
    method CloseQueues(ghost s: Bus)
      requires Linked(queues, subs, all, s) && !s.closed
      modifies queues
      ensures Linked(queues, [], all, AfterClose(s))
    {
      hide SameQueues, Keyed, AfterClose;
      NoneClosed(s);
      SameFilters(queues, all, s.cells);
      for i := 0 to |subs|
        invariant SameQueues(queues, all, ClosedCells(Prefix(s, i)))
      {
        KeyedSubs(s);
        NextClosed(s, i);
        CloseOne(subs[i].inner, s.subs[i], ClosedCells(Prefix(s, i)));
      }
      assert Prefix(s, |subs|) == s;
      LinkClosed(queues, subs, all, s);
    }

    /** One queue is closed, the others stay as they are. */
    method CloseOne(inner: SubInner, ghost key: nat, ghost cells: seq<Cell>)
      requires SameQueues(queues, all, cells) && key < |all| && all[key].inner == inner
      modifies inner
      ensures SameQueues(queues, all, cells[key := CloseCell(cells[key])])
    {
      inner.Close();
    }

    /** The pop of a receiver, on the queue of the key-th subscription. */
    method Receive(inner: SubInner, ghost key: nat, ghost s: Bus) returns (r: Option<Frame>)
      requires Models(s) && key < |all| && all[key].inner == inner
      modifies inner
      ensures r == if s.cells[key].sub.queue == [] then None else Some(s.cells[key].sub.queue[0])
      ensures Models(Step(s, Event.Receive(key)))
    {
      CellOf(queues, all, s.cells, key);
      r := PopFrom(inner, key, s.cells);
      LinkReceived(queues, subs, all, s, key);
    }

    method PopFrom(inner: SubInner, ghost key: nat, ghost cells: seq<Cell>) returns (r: Option<Frame>)
      requires SameQueues(queues, all, cells) && key < |all| && all[key].inner == inner
      modifies inner
      ensures SameQueues(queues, all, cells[key := PopAt(cells[key])])
      ensures r == if cells[key].sub.queue == [] then None else Some(cells[key].sub.queue[0])
    {
      r := inner.Pop();
    }

    /** The close of a receiver. */
    method CloseReceiver(inner: SubInner, ghost key: nat, ghost s: Bus)
      requires Models(s) && key < |all| && all[key].inner == inner
      modifies inner
      ensures Models(Step(s, Event.CloseReceiver(key)))
    {
      CellOf(queues, all, s.cells, key);
      CloseOne(inner, key, s.cells);
      LinkClosedReceiver(queues, subs, all, s, key);
    }

    /** One queue is pushed, the others stay as they are. */
    method PushTo(inner: SubInner, ghost key: nat, ghost cells: seq<Cell>, frame: Frame, now: nat) returns (ok: bool)
      requires SameQueues(queues, all, cells) && key < |all| && all[key].inner == inner
      modifies inner
      ensures SameQueues(queues, all, cells[key := PushAt(cells[key], frame, now)])
      ensures ok == Pushed(cells[key].sub, frame, now).1
    {
      hide Pushed;
      ok := inner.Push(frame, now);
    }
  }

  lemma PublishEffect(s: Bus, id: u8, data: Option<seq<u8>>, requested: ChecksumType)
    requires s.pending == [] && s.lock.Free?
    ensures AfterPublish(s, id, data, requested)
      == (if CheckPublish(s.closed, id, data).Err? then CountError(s)
          else
            var p := Publication(id, data, StoredType(id, requested));
            s.(responses := Store(s.responses, p), pubs := s.pubs + [p]))
  {
    hide Store;
  }

  lemma StoreCases(responses: map<u8, SlaveResponse>, id: u8, data: Option<seq<u8>>, ct: ChecksumType)
    ensures Store(responses, Publication(id, data, ct))
      == match data case Some(d) => responses[id := SlaveResponse(d, ct)] case None => responses - {id}
  {}

  lemma SameLinks(queues: set<SubInner>, subs: seq<VirtualSub>, all: seq<VirtualSub>, s: Bus, t: Bus)
    requires Linked(queues, subs, all, s)
    requires t.cells == s.cells && t.subs == s.subs && t.pending == s.pending && t.lock == s.lock
    ensures Linked(queues, subs, all, t)
  {}

  lemma LinkNew(queues: set<SubInner>, subs: seq<VirtualSub>, all: seq<VirtualSub>, s: Bus, v: VirtualSub,
                filters: seq<Filter>, opts: SubscriberOptions, now: nat)
    requires Linked(queues, subs, all, s) && v.inner.Valid() && v.inner !in queues
    requires v.filters == filters && !s.closed
    requires v.inner.State() == NewSub(opts.ChanDepth(DEFAULT_DEPTH), opts.backPressure, opts.rateLimitPerSec, now)
    ensures var t := AfterSubscribe(s, filters, opts, now);
      && Linked(queues + {v.inner}, subs + [v], all + [v], t)
      && t.closed == s.closed && t.responses == s.responses && t.metrics == s.metrics
  {
    var c := NewCell(filters, opts, now, |s.log|);
    OneMoreQueue(queues, all, s.cells, v, c);
    KeyedSnoc(s.cells, s.subs, c);
    SubscribeEffect(s, filters, opts, now);
    hide Keyed, SameQueues, AfterSubscribe;
  }

  lemma KeyedSnoc(cells: seq<Cell>, subs: seq<nat>, c: Cell)
    requires Keyed(cells, subs) && c.death == None
    ensures Keyed(cells + [c], subs + [|cells|])
  {
    assert |cells| !in subs;
  }

  lemma LinkGc(queues: set<SubInner>, subs: seq<VirtualSub>, all: seq<VirtualSub>, s: Bus, kept: seq<VirtualSub>)
    requires Linked(queues, subs, all, s) && SameList(kept, all, Live(s.cells, s.subs))
    ensures Linked(queues, kept, all, Gc(s))
  {
    GcKeyed(s);
    GcQueues(queues, all, s);
    hide Keyed, SameQueues, Live;
  }

  /** The list stays as it is when the queues take what is broadcast. */
  lemma LinkSent(queues: set<SubInner>, subs: seq<VirtualSub>, all: seq<VirtualSub>, s: Bus, f: Frame,
    clock: nat -> nat)
    requires Keyed(s.cells, s.subs) && s.pending == [] && s.lock.Free? && SameList(subs, all, s.subs)
    requires SameQueues(queues, all, Broadcast(s, f, clock))
    ensures Linked(queues, subs, all, Sent(s, f, clock))
  {
    TransmitKeyed(s, f, clock);
    hide Keyed, SameQueues, Broadcast, Fanout, Delivered, SameList;
  }

  lemma OpenFlags(queues: set<SubInner>, all: seq<VirtualSub>, cells: seq<Cell>)
    requires SameQueues(queues, all, cells)
    ensures |all| == |cells| && forall k | 0 <= k < |all| :: all[k].inner.closed == cells[k].sub.closed
  {}

  lemma OneMoreQueue(queues: set<SubInner>, all: seq<VirtualSub>, cells: seq<Cell>, v: VirtualSub, c: Cell)
    requires SameQueues(queues, all, cells)
    requires v.inner.Valid() && v.filters == c.filters && v.inner.State() == c.sub && v.inner !in queues
    ensures SameQueues(queues + {v.inner}, all + [v], cells + [c])
  {}

  lemma KeyedSubs(s: Bus)
    requires Keyed(s.cells, s.subs)
    ensures Distinct(s.subs) && forall i | 0 <= i < |s.subs| :: s.subs[i] < |s.cells|
  {
    assert forall i | 0 <= i < |s.subs| :: s.subs[i] in s.subs;
  }

  lemma SameFilters(queues: set<SubInner>, all: seq<VirtualSub>, cells: seq<Cell>)
    requires SameQueues(queues, all, cells)
    ensures |all| == |cells|
    ensures forall k | 0 <= k < |all| :: all[k].filters == cells[k].filters && all[k].inner in queues
  {}

  /** Each registered subscription reads its own clock. */
  lemma ClockAt(subs: seq<nat>, readings: nat -> nat, i: nat)
    requires Distinct(subs) && i < |subs|
    ensures ClockOf(subs, readings)(subs[i]) == readings(i)
  {
    assert subs[i] in subs;
    assert Position(subs, subs[i]) == i;
  }

  /** The bus after a broadcast whose counters have been updated. */
  function Sent(s: Bus, f: Frame, clock: nat -> nat): Bus {
    var u := Transmit(s, f, clock);
    var m, ok := s.metrics, Delivered(s, f, clock, |s.cells|);
    u.(pending := s.pending,
       metrics := Metrics(m.writeCount + 1, m.deliverCount + ok, m.dropCount + (Fanout(s, f, |s.cells|) - ok),
                          m.bytesWritten + |f.data|, m.bytesDelivered + |f.data| * ok, m.errorCount))
  }

  /** The bus after a header that got as far as the lock. */
  function Locked(s: Bus, id: u8, clock: nat -> nat): Bus {
    match Answer(s.responses, id)
    case Ok(f) => Sent(Gc(s), f, clock)
    case Err(NoResponse) => CountError(Gc(s))
    case Err(_) => Gc(s)
  }

  lemma SentFields(s: Bus, f: Frame, clock: nat -> nat, delivered: nat, dropped: nat)
    requires delivered == Delivered(s, f, clock, |s.cells|)
    requires delivered + dropped == Fanout(s, f, |s.cells|)
    ensures var u, m, t := Sent(s, f, clock), s.metrics, Transmit(s, f, clock);
      && u.metrics == Metrics(m.writeCount + 1, m.deliverCount + delivered, m.dropCount + dropped,
                              m.bytesWritten + |f.data|, m.bytesDelivered + |f.data| * delivered, m.errorCount)
      && u.cells == Broadcast(s, f, clock) == t.cells && u.subs == s.subs == t.subs
      && u.closed == s.closed && u.responses == s.responses && u.pending == s.pending
  {
    hide Broadcast, Fanout, Delivered;
  }

  lemma SendEffect(s: Bus, id: u8, clock: nat -> nat)
    requires s.pending == [] && s.lock.Free?
    ensures AfterSend(s, id, clock)
      == if CheckSend(s.closed, id).Err? then CountError(s) else Locked(s, id, clock)
  {
    hide Answer, Broadcast, Fanout, Delivered, Live, AfterTallies;
    var called := Step(s, SendCall(id));
    if CheckSend(s.closed, id).Ok? {
      assert called.pending == [SendReady(id)] && Without(called.pending, 0) == [];
      assert called.(pending := []) == s;
      assert Step(called, Proceed(0, clock)) == SendLocked(s, id);
      if Answer(s.responses, id).Ok? {
        HoldEffect(Gc(s), Answer(s.responses, id).value, clock);
      }
    }
  }

  /** From the first counter to the last. */
  lemma HoldEffect(s: Bus, f: Frame, clock: nat -> nat)
    requires s.pending == [] && s.lock.Free?
    ensures var t := s.(metrics := s.metrics.(bytesWritten := s.metrics.bytesWritten + |f.data|), lock := Writing(f));
      AfterTallies(Step(Step(t, Hold(clock)), Hold(clock)), clock) == Sent(s, f, clock)
  {
    var t := s.(metrics := s.metrics.(bytesWritten := s.metrics.bytesWritten + |f.data|), lock := Writing(f));
    var v := t.(metrics := t.metrics.(writeCount := t.metrics.writeCount + 1), lock := Sending(f));
    var w := Transmit(v, f, clock);
    assert Step(Step(t, Hold(clock)), Hold(clock)) == w;
    SameBroadcast(s, v, f, clock);
    hide Broadcast, Fanout, Delivered, AfterTallies, Step;
    assert w.pending == [SendTally(Delivered(s, f, clock, |s.cells|),
      Fanout(s, f, |s.cells|) - Delivered(s, f, clock, |s.cells|),
                                   |f.data| * Delivered(s, f, clock, |s.cells|))];
    TallyEffect(w, Delivered(s, f, clock, |s.cells|), Fanout(s, f, |s.cells|) - Delivered(s, f, clock, |s.cells|),
                |f.data| * Delivered(s, f, clock, |s.cells|), clock);
  }

  lemma {:induction false} SameDeliveries(s: Bus, t: Bus, f: Frame, clock: nat -> nat, n: nat)
    requires t.cells == s.cells && t.subs == s.subs && n <= |s.cells|
    ensures Delivered(t, f, clock, n) == Delivered(s, f, clock, n) && Fanout(t, f, n) == Fanout(s, f, n)
  {
    if n > 0 {
      SameDeliveries(s, t, f, clock, n - 1);
      hide Pushed, Matches;
    }
  }

  lemma SameBroadcast(s: Bus, t: Bus, f: Frame, clock: nat -> nat)
    requires t.cells == s.cells && t.subs == s.subs
    ensures Broadcast(t, f, clock) == Broadcast(s, f, clock)
    ensures Delivered(t, f, clock, |s.cells|) == Delivered(s, f, clock, |s.cells|)
    ensures Fanout(t, f, |s.cells|) == Fanout(s, f, |s.cells|)
  {
    hide PushAt, Matches;
    SameDeliveries(s, t, f, clock, |s.cells|);
    var x, y := Broadcast(t, f, clock), Broadcast(s, f, clock);
    forall k: nat | k < |s.cells| ensures x[k] == y[k] {
      assert Takes(t, f, k) == Takes(s, f, k);
    }
  }

  lemma TallyEffect(s: Bus, delivered: nat, dropped: nat, bytes: nat, clock: nat -> nat)
    requires s.pending == [SendTally(delivered, dropped, bytes)]
    ensures AfterTallies(s, clock)
      == s.(pending := [], metrics := s.metrics.(deliverCount := s.metrics.deliverCount + delivered,
              dropCount := s.metrics.dropCount + dropped, bytesDelivered := s.metrics.bytesDelivered + bytes))
  {
    hide Enter;
    assert s.pending[0 := SendDrops(dropped, bytes)] == [SendDrops(dropped, bytes)];
    var t := Step(s, Proceed(0, clock));
    assert t.pending == [SendDrops(dropped, bytes)] && t.pending[0 := SendBytes(bytes)] == [SendBytes(bytes)];
    var u := Step(t, Proceed(0, clock));
    assert u.pending == [SendBytes(bytes)] && Without(u.pending, 0) == [];
  }

  lemma LiveSnoc(cells: seq<Cell>, subs: seq<nat>, i: nat)
    requires i < |subs|
    ensures Live(cells, subs[..i + 1]) == Live(cells, subs[..i]) + if IsOpen(cells, subs[i]) then [subs[i]] else []
  {
    assert subs[..i + 1][..i] == subs[..i];
  }

  lemma GcQueues(queues: set<SubInner>, all: seq<VirtualSub>, s: Bus)
    requires SameQueues(queues, all, s.cells)
    ensures SameQueues(queues, all, Gc(s).cells)
  {}

  lemma SubscribeRefused(s: Bus, filters: seq<Filter>, opts: SubscriberOptions, now: nat)
    requires s.closed
    ensures AfterSubscribe(s, filters, opts, now) == s
  {}

  lemma SubscribeEffect(s: Bus, filters: seq<Filter>, opts: SubscriberOptions, now: nat)
    requires s.pending == [] && s.lock.Free? && !s.closed
    ensures AfterSubscribe(s, filters, opts, now)
      == s.(cells := s.cells + [NewCell(filters, opts, now, |s.log|)], subs := s.subs + [|s.cells|])
  {}

  lemma NoPushes(s: Bus, f: Frame, clock: nat -> nat)
    ensures Broadcast(Prefix(s, 0), f, clock) == s.cells
  {
    assert forall k: nat | k < |s.cells| :: !Takes(Prefix(s, 0), f, k);
  }

  lemma {:induction false} NoKeys(s: Bus, f: Frame, clock: nat -> nat, n: nat)
    requires n <= |s.cells|
    ensures Delivered(Prefix(s, 0), f, clock, n) == Fanout(Prefix(s, 0), f, n) == 0
  {
    if n > 0 {
      NoKeys(s, f, clock, n - 1);
    }
  }

  /** One more registered subscription adds its own push to the counts. */
  lemma {:induction false} NextKey(s: Bus, f: Frame, clock: nat -> nat, i: nat, n: nat)
    requires Keyed(s.cells, s.subs) && i < |s.subs| && n <= |s.cells|
    ensures var key := s.subs[i]; var hit := key < n && Matches(s.cells[key].filters, f);
      && Fanout(Prefix(s, i + 1), f, n) == Fanout(Prefix(s, i), f, n) + (if hit then 1 else 0)
      && Delivered(Prefix(s, i + 1), f, clock, n)
           == Delivered(Prefix(s, i), f, clock, n) + (if hit && Pushed(s.cells[key].sub, f, clock(key)).1 then 1 else 0)
  {
    if n > 0 {
      NextKey(s, f, clock, i, n - 1);
      NextTakes(s, f, i, n - 1);
      hide Pushed, Matches;
    }
  }

  lemma NextTakes(s: Bus, f: Frame, i: nat, k: nat)
    requires Keyed(s.cells, s.subs) && i < |s.subs| && k < |s.cells|
    ensures Takes(Prefix(s, i + 1), f, k)
      <==> Takes(Prefix(s, i), f, k) || (k == s.subs[i] && Matches(s.cells[k].filters, f))
    ensures k == s.subs[i] ==> !Takes(Prefix(s, i), f, k)
  {
    assert s.subs[..i + 1] == s.subs[..i] + [s.subs[i]];
  }

  lemma NextCells(s: Bus, f: Frame, clock: nat -> nat, i: nat)
    requires Keyed(s.cells, s.subs) && i < |s.subs|
    ensures var key, before := s.subs[i], Broadcast(Prefix(s, i), f, clock);
      && key < |s.cells| == |before| && before[key] == s.cells[key]
      && Broadcast(Prefix(s, i + 1), f, clock)
         == (if Matches(s.cells[key].filters, f) then before[key := PushAt(s.cells[key], f, clock(key))] else before)
  {
    var key, before, after := s.subs[i], Broadcast(Prefix(s, i), f, clock), Broadcast(Prefix(s, i + 1), f, clock);
    assert key in s.subs;
    var c := s.cells[key];
    hide PushAt, Matches;
    NextTakes(s, f, i, key);
    assert before[key] == c && after[key] == if Matches(c.filters, f) then PushAt(c, f, clock(key)) else c;
    forall k: nat | k < |s.cells| && k != key ensures after[k] == before[k] {
      NextTakes(s, f, i, k);
    }
  }

  // ---------------------------------------------------------------------------
  // Close
  // ---------------------------------------------------------------------------

  function CloseCell(c: Cell): Cell {
    c.(sub := c.sub.(closed := true))
  }

  /** The cells with every registered queue closed. */
  function ClosedCells(s: Bus): seq<Cell> {
    seq(|s.cells|, k requires 0 <= k < |s.cells| => if k in s.subs then CloseCell(s.cells[k]) else s.cells[k])
  }

  lemma CloseEffect(s: Bus)
    requires s.pending == [] && s.lock.Free?
    ensures var t := AfterClose(s);
      if s.closed then t == s
      else t.closed && t.responses == s.responses && t.metrics == s.metrics && t.pending == [] && t.subs == []
           && t.cells == CloseLocked(s).cells && t.lock.Free?
  {}

  lemma NoneClosed(s: Bus)
    ensures ClosedCells(Prefix(s, 0)) == s.cells
  {}

  lemma NextClosed(s: Bus, i: nat)
    requires Keyed(s.cells, s.subs) && i < |s.subs|
    ensures var key, before := s.subs[i], ClosedCells(Prefix(s, i));
      && key < |s.cells| == |before|
      && ClosedCells(Prefix(s, i + 1)) == before[key := CloseCell(before[key])]
  {
    assert s.subs[..i + 1] == s.subs[..i] + [s.subs[i]];
    assert s.subs[i] in s.subs;
  }

  lemma ClosedKeyed(s: Bus)
    requires Keyed(s.cells, s.subs)
    ensures Keyed(CloseLocked(s).cells, [])
  {}

  lemma SameSubs(queues: set<SubInner>, all: seq<VirtualSub>, cells: seq<Cell>, others: seq<Cell>)
    requires SameQueues(queues, all, cells) && |others| == |cells|
    requires forall k | 0 <= k < |cells| :: others[k].filters == cells[k].filters && others[k].sub == cells[k].sub
    ensures SameQueues(queues, all, others)
  {}

  lemma EmptyLinked(queues: set<SubInner>, all: seq<VirtualSub>, s: Bus)
    requires Keyed(s.cells, []) && s.subs == [] && s.pending == [] && s.lock.Free? && SameQueues(queues, all, s.cells)
    ensures Linked(queues, [], all, s)
  {
    hide SameQueues, Keyed;
  }

  lemma ClosedAlike(s: Bus)
    ensures |CloseLocked(s).cells| == |ClosedCells(s)| == |s.cells|
    ensures forall k | 0 <= k < |s.cells| :: var c, d := ClosedCells(s)[k], CloseLocked(s).cells[k];
      d.filters == c.filters && d.sub == c.sub
  {}

  lemma LinkClosed(queues: set<SubInner>, subs: seq<VirtualSub>, all: seq<VirtualSub>, s: Bus)
    requires Keyed(s.cells, s.subs) && s.pending == [] && s.lock.Free? && !s.closed
    requires SameQueues(queues, all, ClosedCells(s))
    ensures Linked(queues, [], all, AfterClose(s))
  {
    hide SameQueues, Keyed, AfterClose, CloseLocked, ClosedCells, Linked;
    ClosedKeyed(s);
    CloseEffect(s);
    ClosedAlike(s);
    SameSubs(queues, all, ClosedCells(s), CloseLocked(s).cells);
    EmptyLinked(queues, all, AfterClose(s));
  }

  // ---------------------------------------------------------------------------
  // Receivers
  // ---------------------------------------------------------------------------

  lemma CellOf(queues: set<SubInner>, all: seq<VirtualSub>, cells: seq<Cell>, key: nat)
    requires SameQueues(queues, all, cells) && key < |all|
    ensures key < |cells|
  {}

  lemma KeyedUpdate(cells: seq<Cell>, subs: seq<nat>, key: nat, c: Cell)
    requires Keyed(cells, subs) && key < |cells| && c.death == cells[key].death
    ensures Keyed(cells[key := c], subs)
  {}

  lemma LinkReceived(queues: set<SubInner>, subs: seq<VirtualSub>, all: seq<VirtualSub>, s: Bus, key: nat)
    requires Keyed(s.cells, s.subs) && s.pending == [] && s.lock.Free? && SameList(subs, all, s.subs) && key < |s.cells|
    requires SameQueues(queues, all, s.cells[key := PopAt(s.cells[key])])
    ensures Linked(queues, subs, all, Step(s, Receive(key)))
    ensures var t := Step(s, Receive(key)); t.closed == s.closed && t.responses == s.responses && t.metrics == s.metrics
  {
    KeyedUpdate(s.cells, s.subs, key, PopAt(s.cells[key]));
    hide Keyed, SameQueues, SameList, PopAt;
  }

  lemma LinkClosedReceiver(queues: set<SubInner>, subs: seq<VirtualSub>, all: seq<VirtualSub>, s: Bus, key: nat)
    requires Keyed(s.cells, s.subs) && s.pending == [] && s.lock.Free? && SameList(subs, all, s.subs) && key < |s.cells|
    requires SameQueues(queues, all, s.cells[key := CloseCell(s.cells[key])])
    ensures Linked(queues, subs, all, Step(s, CloseReceiver(key)))
    ensures var t := Step(s, CloseReceiver(key));
      t.closed == s.closed && t.responses == s.responses && t.metrics == s.metrics
  {
    KeyedUpdate(s.cells, s.subs, key, CloseCell(s.cells[key]));
    hide Keyed, SameQueues, SameList;
  }

  // ---------------------------------------------------------------------------
  // What holds of the machine holds of the object
  // ---------------------------------------------------------------------------

  ghost predicate Reachable(s: Bus) {
    exists events :: Run(events) == s
  }

  lemma StepReachable(s: Bus, e: Event)
    requires Reachable(s)
    ensures Reachable(Step(s, e))
  {
    var events :| Run(events) == s;
    RunSnoc(events, e);
  }

  lemma TalliesReachable(s: Bus, clock: nat -> nat)
    requires Reachable(s)
    ensures Reachable(AfterTallies(s, clock))
  {
    hide Step, Reachable;
    StepReachable(s, Proceed(0, clock));
    StepReachable(Step(s, Proceed(0, clock)), Proceed(0, clock));
    StepReachable(Step(Step(s, Proceed(0, clock)), Proceed(0, clock)), Proceed(0, clock));
  }

  /** A new bus models a reachable state, and every uninterrupted operation leads from one to
      another, so the theorems about all interleavings apply to the object. */
  lemma OperationsReachable(s: Bus, id: u8, data: Option<seq<u8>>, ct: ChecksumType, filters: seq<Filter>,
                            opts: SubscriberOptions, now: nat, clock: nat -> nat, key: nat)
    requires Reachable(s)
    ensures Reachable(EMPTY) && Reachable(AfterPublish(s, id, data, ct)) && Reachable(AfterClose(s))
    ensures Reachable(AfterSubscribe(s, filters, opts, now)) && Reachable(AfterSend(s, id, clock))
    ensures Reachable(Step(s, Receive(key))) && Reachable(Step(s, CloseReceiver(key)))
  {
    assert Run([]) == EMPTY;
    hide Step, Reachable;
    StepReachable(s, PublishCall(id, data, ct));
    StepReachable(Step(s, PublishCall(id, data, ct)), Proceed(0, _ => 0));
    StepReachable(s, SubscribeCall(filters, opts));
    StepReachable(Step(s, SubscribeCall(filters, opts)), Proceed(0, _ => now));
    StepReachable(s, SendCall(id));
    StepReachable(Step(s, SendCall(id)), Proceed(0, clock));
    var entered := Step(Step(s, SendCall(id)), Proceed(0, clock));
    StepReachable(entered, Hold(clock));
    StepReachable(Step(entered, Hold(clock)), Hold(clock));
    TalliesReachable(Step(Step(entered, Hold(clock)), Hold(clock)), clock);
    StepReachable(s, Receive(key));
    StepReachable(s, CloseReceiver(key));
    StepReachable(s, CloseCall);
    StepReachable(Step(s, CloseCall), Proceed(0, _ => 0));
  }
}
