/** Every frame on the bus is well formed and carries the last published data. */
module BusTraffic {
  import opened Word
  import opened Wrappers
  import opened LinFrame
  import opened SubQueue
  import opened BusMachine
  import opened BusTheorems

  /** The last publish for an identifier, in lock order. */
  function LastPublish(pubs: seq<Publication>, id: u8): Option<Publication> {
    if |pubs| == 0 then None
    else if pubs[|pubs| - 1].id == id then Some(pubs[|pubs| - 1])
    else LastPublish(pubs[..|pubs| - 1], id)
  }

  /** What the checks before the lock guarantee of a publish. */
  predicate Admissible(p: Publication) {
    && p.id <= LIN_MAX_ID
    && (p.data.Some? ==> |p.data.value| <= LIN_MAX_DATA_LEN)
    && (IsDiagnostic(p.id) ==> p.checksumType == Classic)
  }

  /** The table holds, for each identifier, the last publish if that one carried data. */
  ghost predicate TableIsLast(responses: map<u8, SlaveResponse>, pubs: seq<Publication>) {
    forall id: u8 :: TableAt(responses, id) == Stored(LastPublish(pubs, id))
  }

  function TableAt(responses: map<u8, SlaveResponse>, id: u8): Option<SlaveResponse> {
    if id in responses then Some(responses[id]) else None
  }

  function Stored(p: Option<Publication>): Option<SlaveResponse> {
    if p.Some? && p.value.data.Some? then Some(SlaveResponse(p.value.data.value, p.value.checksumType)) else None
  }

  /** A frame that passes validation, with the checksum and protected identifier of the LIN
      specification, holding what the last publish before it stored for its identifier. */
  ghost predicate WellFormed(f: Frame, pubs: seq<Publication>) {
    && f.id <= LIN_MAX_ID && 1 <= |f.data| <= LIN_MAX_DATA_LEN
    && (IsDiagnostic(f.id) ==> f.checksumType == Classic)
    && f.checksum == CalcChecksum(ProtectId(f.id), f.data, f.checksumType)
    && Stored(LastPublish(pubs, f.id)) == Some(SlaveResponse(f.data, f.checksumType))
  }

  ghost predicate GoodEntry(e: Entry, pubs: seq<Publication>) {
    e.published <= |pubs| && WellFormed(e.frame, pubs[..e.published])
  }

  ghost predicate Traffic(s: Bus) {
    && (forall p | p in s.pubs :: Admissible(p))
    && (forall q | q in s.pending && q.PublishReady? :: Admissible(q.p))
    && TableIsLast(s.responses, s.pubs)
    && (forall e | e in s.log :: GoodEntry(e, s.pubs))
    && (!s.lock.Free? ==> WellFormed(s.lock.frame, s.pubs))
  }

  lemma StoreIsLast(responses: map<u8, SlaveResponse>, pubs: seq<Publication>, p: Publication)
    requires TableIsLast(responses, pubs)
    ensures TableIsLast(Store(responses, p), pubs + [p])
  {
    forall id: u8 ensures TableAt(Store(responses, p), id) == Stored(LastPublish(pubs + [p], id)) {
      assert (pubs + [p])[..|pubs|] == pubs;
      assert TableAt(responses, id) == Stored(LastPublish(pubs, id));
    }
  }

  lemma MorePublishes(e: Entry, pubs: seq<Publication>, p: Publication)
    requires GoodEntry(e, pubs)
    ensures GoodEntry(e, pubs + [p])
  {
    assert (pubs + [p])[..e.published] == pubs[..e.published];
  }

  lemma {:induction false} LastIsAdmissible(pubs: seq<Publication>, id: u8)
    requires forall p | p in pubs :: Admissible(p)
    ensures LastPublish(pubs, id).Some?
      ==> Admissible(LastPublish(pubs, id).value) && LastPublish(pubs, id).value.id == id
  {
    if |pubs| > 0 {
      assert pubs[|pubs| - 1] in pubs;
      forall p | p in pubs[..|pubs| - 1] ensures Admissible(p) { assert p in pubs; }
      LastIsAdmissible(pubs[..|pubs| - 1], id);
    }
  }

  lemma AnswerIsWellFormed(responses: map<u8, SlaveResponse>, pubs: seq<Publication>, id: u8)
    requires TableIsLast(responses, pubs) && forall p | p in pubs :: Admissible(p)
    ensures Answer(responses, id).Ok? ==> WellFormed(Answer(responses, id).value, pubs)
  {
    assert TableAt(responses, id) == Stored(LastPublish(pubs, id));
    LastIsAdmissible(pubs, id);
    hide CalcChecksum, ProtectId, LastPublish;
  }

  lemma PublishTraffic(s: Bus, p: Publication)
    requires Traffic(s) && Admissible(p) && s.lock.Free?
    ensures Traffic(s.(responses := Store(s.responses, p), pubs := s.pubs + [p]))
  {
    StoreIsLast(s.responses, s.pubs, p);
    hide Store, TableIsLast, GoodEntry, Admissible;
    forall e | e in s.log ensures GoodEntry(e, s.pubs + [p]) {
      MorePublishes(e, s.pubs, p);
    }
  }

  /** The header takes up the frame it found; no publish can come before its broadcast. */
  lemma SendTraffic(s: Bus, id: u8)
    requires Traffic(s)
    ensures Traffic(SendLocked(s, id))
  {
    AnswerIsWellFormed(s.responses, s.pubs, id);
    hide Answer, WellFormed, TableIsLast, Admissible, GoodEntry, Live;
  }

  lemma TransmitTraffic(s: Bus, clock: nat -> nat)
    requires Traffic(s) && s.lock.Sending?
    ensures Traffic(Transmit(s, s.lock.frame, clock))
  {
    assert s.pubs[..|s.pubs|] == s.pubs;
    hide WellFormed, TableIsLast, Admissible, Fanout, Delivered, Broadcast;
  }

  lemma EnterTraffic(s: Bus, q: Pending, clock: nat -> nat)
    requires Traffic(s) && s.lock.Free? && (q.PublishReady? ==> Admissible(q.p))
    ensures Traffic(Enter(s, q, clock))
  {
    hide SendLocked, Store, TableIsLast, GoodEntry, NewCell, Admissible, WellFormed;
    match q
    case SendReady(id) => SendTraffic(s, id);
    case PublishReady(p) => PublishTraffic(s, p);
    case _ =>
  }

  lemma StepTraffic(s: Bus, e: Event)
    requires Traffic(s)
    ensures Traffic(Step(s, e))
  {
    hide Enter, Transmit, Count, TableIsLast, GoodEntry, WellFormed, PopAt;
    match e
    case Proceed(i, clock) =>
      if i < |s.pending| {
        assert s.pending[i] in s.pending;
        if s.lock.Free? {
          EnterTraffic(s.(pending := Without(s.pending, i)), s.pending[i], clock);
        }
      }
    case Hold(clock) => if s.lock.Sending? { TransmitTraffic(s, clock); }
    case _ =>
  }

  lemma {:induction false} RunTraffic(events: seq<Event>)
    ensures Traffic(Run(events))
  {
    hide Step, Traffic;
    if |events| > 0 {
      RunTraffic(events[..|events| - 1]);
      StepTraffic(Run(events[..|events| - 1]), events[|events| - 1]);
    } else {
      NoTraffic();
    }
  }

  lemma NoTraffic()
    ensures Traffic(EMPTY)
  {}

  lemma {:induction false} SubsequenceMember(xs: seq<Frame>, ys: seq<Frame>, f: Frame)
    requires Subsequence(xs, ys) && f in xs
    ensures f in ys
    decreases |ys|
  {
    var front := ys[..|ys| - 1];
    assert ys == front + [ys[|ys| - 1]];
    if Subsequence(xs, front) {
      SubsequenceMember(xs, front, f);
    } else if f != ys[|ys| - 1] {
      assert xs == xs[..|xs| - 1] + [xs[|xs| - 1]];
      SubsequenceMember(xs[..|xs| - 1], front, f);
    }
  }

  lemma {:induction false} FilteredMember(log: seq<Entry>, filters: seq<Filter>, f: Frame) returns (i: nat)
    requires f in Filtered(log, filters)
    ensures i < |log| && log[i].frame == f && Wanted(filters, f.id)
  {
    var front, last := log[..|log| - 1], log[|log| - 1];
    if f in Filtered(front, filters) {
      i := FilteredMember(front, filters, f);
    } else {
      i := |log| - 1;
      assert f in Pass(filters, last.frame);
    }
  }

  lemma WellFormedIsValid(f: Frame, pubs: seq<Publication>)
    requires WellFormed(f, pubs)
    ensures ValidateFrame(f) == Ok(())
  {
    hide CalcChecksum, LastPublish;
  }

  /** A frame that is part of what the filters let through of a stretch of the log. */
  lemma WindowMember(log: seq<Entry>, from: nat, to: nat, filters: seq<Filter>, xs: seq<Frame>, f: Frame)
    returns (i: nat)
    requires from <= to <= |log| && Subsequence(xs, Filtered(log[from..to], filters)) && f in xs
    ensures from <= i < to && log[i].frame == f && Wanted(filters, f.id)
  {
    hide Subsequence, Filtered, Wanted;
    SubsequenceMember(xs, Filtered(log[from..to], filters), f);
    var j := FilteredMember(log[from..to], filters, f);
    i := from + j;
  }

  /** In every interleaving, each frame a subscriber holds or has received was broadcast while it
      was registered, passes its filters, and is well formed with the data of the last publish
      before that broadcast. */
  lemma WellFormedTraffic(events: seq<Event>, k: nat, f: Frame) returns (i: nat)
    requires k < |Run(events).cells|
    requires f in Run(events).cells[k].received + Run(events).cells[k].sub.queue
    ensures var s := Run(events); var c := s.cells[k];
      && c.birth <= i < End(c, s.log) <= |s.log| && s.log[i].frame == f
      && s.log[i].published <= |s.pubs| && WellFormed(f, s.pubs[..s.log[i].published])
      && ValidateFrame(f) == Ok(()) && Wanted(c.filters, f.id)
  {
    hide Run, Subsequence, Filtered, TableIsLast, WellFormed, Admissible, ValidateFrame, Wanted;
    var s := Run(events);
    var c := s.cells[k];
    SubscriberView(events, k);
    i := WindowMember(s.log, c.birth, End(c, s.log), c.filters, c.received + c.sub.queue, f);
    RunTraffic(events);
    assert GoodEntry(s.log[i], s.pubs);
    WellFormedIsValid(f, s.pubs[..s.log[i].published]);
  }

  /** In every interleaving, what a header is answered follows from the last publish for its
      identifier alone: nothing without one or after a withdrawal, an invalid frame when it was
      empty, and otherwise the frame with its data. */
  lemma HeaderAnswers(events: seq<Event>, id: u8)
    requires id <= LIN_MAX_ID
    ensures var s := Run(events);
      Answer(s.responses, id) == match Stored(LastPublish(s.pubs, id))
                                 case None => Err(NoResponse)
                                 case Some(r) => if r.data == [] then Err(InvalidFrame) else Ok(Response(id, r))
  {
    hide Run, CalcChecksum, ProtectId, LastPublish;
    RunTraffic(events);
    var s := Run(events);
    assert TableAt(s.responses, id) == Stored(LastPublish(s.pubs, id));
    LastIsAdmissible(s.pubs, id);
  }

  // ---------------------------------------------------------------------------
  // What the bus can broadcast
  // ---------------------------------------------------------------------------

  /** A publish and a header for it, one after the other on a new bus. */
  function PublishAndSend(f: Frame): seq<Event> {
    [PublishCall(f.id, Some(f.data), f.checksumType), Proceed(0, _ => 0)] + [SendCall(f.id)] + [Proceed(0, _ => 0)]
    + [Hold(_ => 0)] + [Hold(_ => 0)]
  }

  lemma PublishSteps(f: Frame)
    requires ValidateFrame(f).Ok?
    ensures Step(Step(EMPTY, PublishCall(f.id, Some(f.data), f.checksumType)), Proceed(0, _ => 0))
      == EMPTY.(responses := map[f.id := SlaveResponse(f.data, f.checksumType)],
                pubs := [Publication(f.id, Some(f.data), f.checksumType)])
  {
    hide SendLocked, CloseLocked, NewCell, Count, Held;
    var p := Publication(f.id, Some(f.data), f.checksumType);
    assert Step(EMPTY, PublishCall(f.id, Some(f.data), f.checksumType)) == EMPTY.(pending := [PublishReady(p)]);
    assert Without([PublishReady(p)], 0) == [];
  }

  lemma Published(f: Frame)
    requires ValidateFrame(f).Ok?
    ensures Run([PublishCall(f.id, Some(f.data), f.checksumType), Proceed(0, _ => 0)])
      == EMPTY.(responses := map[f.id := SlaveResponse(f.data, f.checksumType)],
                pubs := [Publication(f.id, Some(f.data), f.checksumType)])
  {
    hide Step, ValidateFrame;
    var call := PublishCall(f.id, Some(f.data), f.checksumType);
    assert Run([]) == EMPTY;
    RunSnoc([], call);
    RunSnoc([call], Proceed(0, _ => 0));
    assert [] + [call] == [call] && [call] + [Proceed(0, _ => 0)] == [call, Proceed(0, _ => 0)];
    PublishSteps(f);
  }

  lemma HeaderSteps(s: Bus, f: Frame)
    requires s == EMPTY.(responses := map[f.id := SlaveResponse(f.data, f.checksumType)], pubs := s.pubs)
    requires ValidateFrame(f).Ok? && f.checksum == CalcChecksum(ProtectId(f.id), f.data, f.checksumType)
    ensures var t := Step(Step(s, SendCall(f.id)), Proceed(0, _ => 0));
      t.lock == Writing(f) && t.log == [] && t.metrics.writeCount == 0 && t.metrics.bytesWritten == |f.data|
  {
    hide CalcChecksum, ProtectId, Live;
    var t := Step(s, SendCall(f.id));
    assert t == s.(pending := [SendReady(f.id)]) && Without(t.pending, 0) == [];
    assert Response(f.id, SlaveResponse(f.data, f.checksumType)) == f;
    assert Answer(s.responses, f.id) == Ok(f);
    assert Step(t, Proceed(0, _ => 0)) == SendLocked(s, f.id);
  }

  lemma LastSteps(s: Bus, f: Frame, clock: nat -> nat)
    requires s.lock == Writing(f) && s.log == []
    ensures var t := Step(Step(s, Hold(clock)), Hold(clock)); |t.log| == 1 && t.log[0].frame == f
  {
    hide Broadcast, TallyOf, Fanout;
  }

  lemma SentAfterPublish(f: Frame)
    requires ValidateFrame(f).Ok? && f.checksum == CalcChecksum(ProtectId(f.id), f.data, f.checksumType)
    ensures |Run(PublishAndSend(f)).log| == 1 && Run(PublishAndSend(f)).log[0].frame == f
  {
    hide Step, CalcChecksum, ProtectId, ValidateFrame;
    var start := [PublishCall(f.id, Some(f.data), f.checksumType), Proceed(0, _ => 0)];
    var clock: nat -> nat := _ => 0;
    Published(f);
    RunSnoc(start, SendCall(f.id));
    RunSnoc(start + [SendCall(f.id)], Proceed(0, clock));
    RunSnoc(start + [SendCall(f.id)] + [Proceed(0, clock)], Hold(clock));
    RunSnoc(start + [SendCall(f.id)] + [Proceed(0, clock)] + [Hold(clock)], Hold(clock));
    hide Run;
    HeaderSteps(Run(start), f);
    LastSteps(Run(start + [SendCall(f.id)] + [Proceed(0, clock)]), f, clock);
  }

  lemma Broadcastable(f: Frame)
    ensures (exists events :: exists e :: e in Run(events).log && e.frame == f)
       <==> (ValidateFrame(f) == Ok(()) && f.checksum == CalcChecksum(ProtectId(f.id), f.data, f.checksumType))
  {
    hide Run, CalcChecksum, ProtectId, LastPublish;
    forall events, e | e in Run(events).log && e.frame == f
      ensures ValidateFrame(f) == Ok(()) && f.checksum == CalcChecksum(ProtectId(f.id), f.data, f.checksumType)
    {
      RunTraffic(events);
      assert GoodEntry(e, Run(events).pubs);
    }
    if ValidateFrame(f) == Ok(()) && f.checksum == CalcChecksum(ProtectId(f.id), f.data, f.checksumType) {
      SentAfterPublish(f);
      assert Run(PublishAndSend(f)).log[0] in Run(PublishAndSend(f)).log;
    }
  }

  /** The frames that some run of the bus broadcasts are exactly those with a six-bit identifier,
      one to eight bytes, a Classic checksum on diagnostic identifiers, and as checksum the
      complement of their bytes, the protected identifier counted in the Enhanced case. */
  lemma BroadcastableExactly(f: Frame)
    ensures (exists events :: exists e :: e in Run(events).log && e.frame == f)
       <==> (&& f.id < 64 && 1 <= |f.data| <= 8 && (f.id == 60 || f.id == 61 ==> f.checksumType == Classic)
             && f.checksum == Complement(Total(f.data) + if f.checksumType == Classic then 0 else ProtectId(f.id)))
  {
    ValidExactly(f);
    ChecksumClosedForm(ProtectId(f.id), f.data, f.checksumType);
    Broadcastable(f);
    hide Run, CalcChecksum, ProtectId, Complement, Total, ValidateFrame;
  }
}
