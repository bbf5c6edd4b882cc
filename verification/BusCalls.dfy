/** What single calls on the bus do, from their arguments to their effect. */
module BusCalls {
  import opened Word
  import opened Wrappers
  import opened LinFrame
  import opened SubQueue
  import opened BusMachine
  import opened BusTheorems

  /** Open, with no call under way. */
  predicate Quiet(s: Bus) {
    !s.closed && s.pending == [] && s.lock.Free?
  }

  // ---------------------------------------------------------------------------
  // Refused calls
  // ---------------------------------------------------------------------------

  /** Why a publish or a header is refused, in this order: a closed bus, an identifier of more than
      six bits, a payload of more than eight bytes. A refused call only counts an error. */
  lemma RefusedCalls(s: Bus, id: u8, data: Option<seq<u8>>, ct: ChecksumType)
    ensures CheckPublish(s.closed, id, data) == Err(Closed) <==> s.closed
    ensures CheckPublish(s.closed, id, data) == Err(InvalidFrame) <==> !s.closed && id >= 64
    ensures CheckPublish(s.closed, id, data) == Err(PayloadTooLarge)
       <==> !s.closed && id < 64 && data.Some? && |data.value| > 8
    ensures CheckSend(s.closed, id) == Err(Closed) <==> s.closed
    ensures CheckSend(s.closed, id) == Err(InvalidFrame) <==> !s.closed && id >= 64
    ensures var counted := s.(metrics := s.metrics.(errorCount := s.metrics.errorCount + 1));
      && (s.closed || id >= 64 ==> Step(s, SendCall(id)) == counted)
      && (s.closed || id >= 64 || (data.Some? && |data.value| > 8) ==> Step(s, PublishCall(id, data, ct)) == counted)
  {}

  // ---------------------------------------------------------------------------
  // Publish, then a header
  // ---------------------------------------------------------------------------

  /** Diagnostic identifiers are answered with a Classic checksum whatever was asked for. */
  function TypeFor(id: u8, ct: ChecksumType): ChecksumType {
    if id == 60 || id == 61 then Classic else ct
  }

  /** The frame a header is answered with after data was published for its identifier. */
  function Echo(id: u8, data: seq<u8>, ct: ChecksumType): Frame
    requires id < 64
  {
    var t := TypeFor(id, ct);
    Frame(id, data, Complement(Total(data) + if t == Classic then 0 else ProtectId(id)), t)
  }

  lemma EchoIsValid(id: u8, data: seq<u8>, ct: ChecksumType)
    requires id < 64
    ensures Response(id, SlaveResponse(data, StoredType(id, ct))) == Echo(id, data, ct)
    ensures 1 <= |data| <= 8 ==> ValidateFrame(Echo(id, data, ct)) == Ok(())
    ensures |data| == 0 ==> ValidateFrame(Echo(id, data, ct)).Err?
  {
    hide CalcChecksum, Complement, Total, ProtectId, ValidateFrame;
    assert StoredType(id, ct) == TypeFor(id, ct);
    ChecksumClosedForm(ProtectId(id), data, TypeFor(id, ct));
    hide StoredType, TypeFor;
    EchoValidity(id, data, ct);
  }

  lemma EchoValidity(id: u8, data: seq<u8>, ct: ChecksumType)
    requires id < 64
    ensures 1 <= |data| <= 8 ==> ValidateFrame(Echo(id, data, ct)) == Ok(())
    ensures |data| == 0 ==> ValidateFrame(Echo(id, data, ct)).Err?
  {
    hide Complement, Total, ProtectId, ValidateFrame;
    ValidExactly(Echo(id, data, ct));
  }

  /** What a header is answered with right after a publish for its identifier. */
  function AnswerAfter(id: u8, data: Option<seq<u8>>, ct: ChecksumType): Result<Frame, Error>
    requires id < 64
  {
    match data
    case None => Err(NoResponse)
    case Some(d) => if d == [] then Err(InvalidFrame) else Ok(Echo(id, d, ct))
  }

  /** An uninterrupted publish decides the answer for its identifier and for no other. */
  lemma PublishDecides(s: Bus, id: u8, data: Option<seq<u8>>, ct: ChecksumType, clock: nat -> nat)
    requires Quiet(s) && id < 64 && (data.Some? ==> |data.value| <= 8)
    ensures var t := Step(Step(s, PublishCall(id, data, ct)), Proceed(0, clock));
      && Quiet(t) && t.log == s.log && t.cells == s.cells && t.subs == s.subs
      && Answer(t.responses, id) == AnswerAfter(id, data, ct)
      && forall other: u8 | other != id :: Answer(t.responses, other) == Answer(s.responses, other)
  {
    var p := Publication(id, data, StoredType(id, ct));
    var u := Step(s, PublishCall(id, data, ct));
    assert u == s.(pending := [PublishReady(p)]) && Without(u.pending, 0) == [];
    assert Step(u, Proceed(0, clock)) == s.(responses := Store(s.responses, p), pubs := s.pubs + [p]);
    if data.Some? {
      EchoIsValid(id, data.value, ct);
    }
    hide Response, ValidateFrame, Echo, StoredType;
  }

  /** The registered subscriptions among the first n whose filters want the identifier. */
  function Audience(s: Bus, id: u8, n: nat): set<nat>
    requires n <= |s.cells|
  {
    set k: nat | k < n && k in s.subs && Wanted(s.cells[k].filters, id)
  }

  /** A broadcast is for each of its audience once. */
  lemma {:induction false} FanoutExactly(s: Bus, f: Frame, n: nat)
    requires n <= |s.cells|
    ensures Fanout(s, f, n) == |Audience(s, f.id, n)|
  {
    hide Wanted, Matches;
    if n > 0 {
      FanoutExactly(s, f, n - 1);
      MatchesWanted(s.cells[n - 1].filters, f);
      if Takes(s, f, n - 1) {
        assert Audience(s, f.id, n) == Audience(s, f.id, n - 1) + {n - 1};
      } else {
        assert Audience(s, f.id, n) == Audience(s, f.id, n - 1);
      }
    }
  }

  /** An uninterrupted header broadcasts what it answers to everyone whose filters want it, and
      nothing when it answers an error. */
  lemma HeaderBroadcasts(s: Bus, id: u8, clock: nat -> nat)
    requires Quiet(s) && id < 64
    ensures var t := Step(Step(s, SendCall(id)), Proceed(0, clock));
      match Answer(s.responses, id)
      case Ok(f) =>
        var u := Step(Step(t, Hold(clock)), Hold(clock));
        u.lock.Free? && u.responses == s.responses && |u.log| == |s.log| + 1 && u.log[..|s.log|] == s.log
        && u.log[|s.log|].frame == f && u.log[|s.log|].fanout == |Audience(t, id, |t.cells|)|
      case Err(_) => Quiet(t) && t.log == s.log && t.responses == s.responses
  {
    hide Answer, Live, Broadcast, TallyOf, Fanout;
    var u := Step(s, SendCall(id));
    assert u == s.(pending := [SendReady(id)]) && Without(u.pending, 0) == [];
    assert Step(u, Proceed(0, clock)) == SendLocked(s, id);
    if Answer(s.responses, id).Ok? {
      var t := SendLocked(s, id);
      var f := Answer(s.responses, id).value;
      AnswersOwnId(s.responses, id);
      FanoutExactly(t, f, |t.cells|);
      SameFanout(t, Step(t, Hold(clock)), f, |t.cells|);
    }
  }

  lemma AnswersOwnId(responses: map<u8, SlaveResponse>, id: u8)
    ensures Answer(responses, id).Ok? ==> Answer(responses, id).value.id == id
  {
    hide CalcChecksum, ProtectId, ValidateFrame;
  }

  lemma {:induction false} SameFanout(s: Bus, t: Bus, f: Frame, n: nat)
    requires n <= |s.cells| && t.cells == s.cells && t.subs == s.subs
    ensures Fanout(t, f, n) == Fanout(s, f, n)
  {
    hide Matches;
    if n > 0 {
      SameFanout(s, t, f, n - 1);
    }
  }

  /** So after a publish of up to eight bytes the next header for the identifier broadcasts them,
      with the checksum LIN defines for them. */
  lemma PublishThenHeader(s: Bus, id: u8, data: seq<u8>, ct: ChecksumType, clock: nat -> nat)
    requires Quiet(s) && id < 64 && 1 <= |data| <= 8
    ensures var t := Step(Step(s, PublishCall(id, Some(data), ct)), Proceed(0, clock));
      var u := Step(Step(Step(Step(t, SendCall(id)), Proceed(0, clock)), Hold(clock)), Hold(clock));
      |u.log| == |s.log| + 1 && u.log[|s.log|].frame == Echo(id, data, ct)
  {
    PublishDecides(s, id, Some(data), ct, clock);
    var t := Step(Step(s, PublishCall(id, Some(data), ct)), Proceed(0, clock));
    hide Step, Answer, Echo;
    HeaderBroadcasts(t, id, clock);
  }

  // ---------------------------------------------------------------------------
  // Subscriptions
  // ---------------------------------------------------------------------------

  /** An uninterrupted subscribe adds one open, empty queue with the options it was given; a depth
      of zero stands for 64. */
  lemma NewSubscription(s: Bus, filters: seq<Filter>, opts: SubscriberOptions, clock: nat -> nat)
    requires Quiet(s)
    ensures var t := Step(Step(s, SubscribeCall(filters, opts)), Proceed(0, clock)); var k := |s.cells|;
      && Quiet(t) && |t.cells| == k + 1 && t.cells[..k] == s.cells && t.subs == s.subs + [k]
      && var c := t.cells[k];
      && c.filters == filters && !c.sub.closed && c.sub.queue == [] && c.birth == |s.log|
      && c.sub.capacity == (if opts.channelDepth == 0 then 64 else opts.channelDepth)
      && c.sub.policy == opts.backPressure && c.sub.rateLimit == opts.rateLimitPerSec
      && c.sub.rate.windowStart == clock(k) && c.sub.rate.count == 0
  {
    var u := Step(s, SubscribeCall(filters, opts));
    assert u == s.(pending := [SubscribeReady(filters, opts)]) && Without(u.pending, 0) == [];
    var c := NewCell(filters, opts, clock(|s.cells|), |s.log|);
    assert Step(u, Proceed(0, clock)) == s.(cells := s.cells + [c], subs := s.subs + [|s.cells|]);
  }

  /** The subscription exists and its receiver has not closed it. */
  predicate Listening(cells: seq<Cell>, k: nat) {
    k < |cells| && !cells[k].sub.closed
  }

  /** What is left of a list without the subscriptions that are closed: the rest, in order. */
  predicate Thinned(rest: seq<nat>, subs: seq<nat>, cells: seq<Cell>) {
    if |subs| == 0 then rest == []
    else
      var front, last := subs[..|subs| - 1], subs[|subs| - 1];
      if Listening(cells, last) then
        |rest| > 0 && rest[|rest| - 1] == last && Thinned(rest[..|rest| - 1], front, cells)
      else Thinned(rest, front, cells)
  }

  lemma {:induction false} LiveThins(cells: seq<Cell>, subs: seq<nat>)
    ensures Thinned(Live(cells, subs), subs, cells)
  {
    if |subs| > 0 {
      var front, last := subs[..|subs| - 1], subs[|subs| - 1];
      LiveThins(cells, front);
      if Listening(cells, last) {
        assert Live(cells, subs) == Live(cells, front) + [last];
        assert Live(cells, subs)[..|Live(cells, front)|] == Live(cells, front);
      } else {
        assert Live(cells, subs) == Live(cells, front);
      }
    }
  }

  lemma GcThins(s: Bus)
    requires Keyed(s.cells, s.subs)
    ensures var t := Gc(s); Thinned(t.subs, s.subs, s.cells) && |t.cells| == |s.cells|
    ensures forall k: nat :: k in Gc(s).subs <==> k in s.subs && Listening(s.cells, k)
  {
    LiveKeeps(s.cells, s.subs);
    LiveThins(s.cells, s.subs);
    hide Live, Thinned;
  }

  /** A header first drops the subscriptions whose receivers have closed them, and only those, so
      what it then broadcasts does not reach them any more. */
  lemma HeaderCollects(s: Bus, i: nat, id: u8, clock: nat -> nat)
    requires Keyed(s.cells, s.subs) && s.lock.Free? && i < |s.pending| && s.pending[i] == SendReady(id)
    ensures var t := Step(s, Proceed(i, clock)); Thinned(t.subs, s.subs, s.cells) && |t.cells| == |s.cells|
    ensures var t := Step(s, Proceed(i, clock)); forall k: nat :: k in t.subs <==> k in s.subs && Listening(s.cells, k)
    ensures var t := Step(s, Proceed(i, clock));
      forall k: nat, f: Frame | k < |t.cells| && !Listening(s.cells, k) :: !Takes(t, f, k)
  {
    hide Answer, Matches, Thinned, Listening, Gc, Keyed;
    var u := s.(pending := Without(s.pending, i));
    GcThins(u);
    assert Step(s, Proceed(i, clock)) == SendLocked(u, id);
  }
}
