/** The virtual bus as a shared state machine. An operation first reads the closed flag and
    checks its arguments, then takes the bus lock. A header keeps the lock over three steps, its
    two write counters and its broadcast, and then updates three delivery counters without it.
    Anything that does not need the lock may come between any two of these steps. */
module BusMachine {
  import opened Word
  import opened Wrappers
  import opened LinFrame
  import opened SubQueue

  const DEFAULT_DEPTH := 64

  datatype SlaveResponse = SlaveResponse(data: seq<u8>, checksumType: ChecksumType)

  datatype Metrics = Metrics(writeCount: nat, deliverCount: nat, dropCount: nat,
                             bytesWritten: nat, bytesDelivered: nat, errorCount: nat)

  /** A publish as the lock saw it, with the checksum type it was stored under. */
  datatype Publication = Publication(id: u8, data: Option<seq<u8>>, checksumType: ChecksumType)

  /** A broadcast: the frame, how many publishes preceded it, how many subscribers it was for. */
  datatype Entry = Entry(frame: Frame, published: nat, fanout: nat)

  /** A subscription with its history: the frames pushed at it, the frames its receiver got, how
      many frames and bytes it accepted, and the broadcasts between which it was registered. */
  datatype Cell = Cell(filters: seq<Filter>, sub: Sub, attempts: seq<Frame>, received: seq<Frame>,
                       accepted: nat, acceptedBytes: nat, birth: nat, death: Option<nat>)

  /** Where an operation that has not returned yet stands. */
  datatype Pending =
    | PublishReady(p: Publication)
    | SubscribeReady(filters: seq<Filter>, opts: SubscriberOptions)
    | SendReady(id: u8)
    | SendTally(delivered: nat, dropped: nat, bytes: nat) // about to count the deliveries
    | SendDrops(dropped: nat, bytes: nat)                 // about to count the drops
    | SendBytes(bytes: nat)                               // about to count the delivered bytes
    | CloseReady

  /** Who holds the bus lock between steps: nobody, or a header that has counted its bytes and
      then its write. */
  datatype Lock = Free | Writing(frame: Frame) | Sending(frame: Frame)

  /** subs holds the positions in cells of the registered subscriptions, in order. */
  datatype Bus = Bus(closed: bool, responses: map<u8, SlaveResponse>, cells: seq<Cell>, subs: seq<nat>,
                     metrics: Metrics, lock: Lock, pending: seq<Pending>, log: seq<Entry>, pubs: seq<Publication>)

  const EMPTY := Bus(false, map[], [], [], Metrics(0, 0, 0, 0, 0, 0), Free, [], [], [])

  datatype Event =
    | PublishCall(id: u8, data: Option<seq<u8>>, ct: ChecksumType)
    | SubscribeCall(filters: seq<Filter>, opts: SubscriberOptions)
    | SendCall(id: u8)
    | CloseCall
    | Proceed(i: nat, clock: nat -> nat) // the i-th unfinished operation takes its next step
    | Hold(clock: nat -> nat)            // the header that holds the lock takes its next step
    | Receive(k: nat)
    | CloseReceiver(k: nat)

  // ---------------------------------------------------------------------------
  // Checks made before the lock is taken
  // ---------------------------------------------------------------------------

  function StoredType(id: u8, ct: ChecksumType): ChecksumType {
    if IsDiagnostic(id) then Classic else ct
  }

  function CheckPublish(closed: bool, id: u8, data: Option<seq<u8>>): Result<(), Error> {
    if closed then Err(Closed)
    else if id > LIN_MAX_ID then Err(InvalidFrame)
    else if data.Some? && |data.value| > LIN_MAX_DATA_LEN then Err(PayloadTooLarge)
    else Ok(())
  }

  function CheckSend(closed: bool, id: u8): Result<(), Error> {
    if closed then Err(Closed) else if id > LIN_MAX_ID then Err(InvalidFrame) else Ok(())
  }

  // ---------------------------------------------------------------------------
  // Steps under the lock
  // ---------------------------------------------------------------------------

  function Store(responses: map<u8, SlaveResponse>, p: Publication): map<u8, SlaveResponse> {
    match p.data
    case Some(d) => responses[p.id := SlaveResponse(d, p.checksumType)]
    case None => responses - {p.id}
  }

  predicate Matches(filters: seq<Filter>, f: Frame) {
    |filters| == 0 || exists i | 0 <= i < |filters| :: filters[i].Matches(f)
  }

  function NewCell(filters: seq<Filter>, opts: SubscriberOptions, now: nat, birth: nat): Cell {
    Cell(filters, NewSub(opts.ChanDepth(DEFAULT_DEPTH), opts.backPressure, opts.rateLimitPerSec, now),
         [], [], 0, 0, birth, None)
  }

  predicate IsOpen(cells: seq<Cell>, k: nat) {
    k < |cells| && !cells[k].sub.closed
  }

  /** The registered subscriptions whose receiver has not closed them. */
  function Live(cells: seq<Cell>, subs: seq<nat>): seq<nat> {
    if |subs| == 0 then []
    else Live(cells, subs[..|subs| - 1]) + if IsOpen(cells, subs[|subs| - 1]) then [subs[|subs| - 1]] else []
  }

  function Gc(s: Bus): Bus {
    s.(subs := Live(s.cells, s.subs),
       cells := seq(|s.cells|, k requires 0 <= k < |s.cells| =>
         if k in s.subs && s.cells[k].sub.closed then s.cells[k].(death := Some(|s.log|)) else s.cells[k]))
  }

  predicate Takes(s: Bus, f: Frame, k: nat)
    requires k < |s.cells|
  {
    k in s.subs && Matches(s.cells[k].filters, f)
  }

  predicate Accepts(s: Bus, f: Frame, clock: nat -> nat, k: nat)
    requires k < |s.cells|
  {
    Takes(s, f, k) && Pushed(s.cells[k].sub, f, clock(k)).1
  }

  /** Pushing a frame at one subscription. */
  function PushAt(c: Cell, f: Frame, now: nat): Cell {
    var (sub, ok) := Pushed(c.sub, f, now);
    c.(sub := sub, attempts := c.attempts + [f],
       accepted := c.accepted + if ok then 1 else 0,
       acceptedBytes := c.acceptedBytes + if ok then |f.data| else 0)
  }

  function Fanout(s: Bus, f: Frame, n: nat): nat
    requires n <= |s.cells|
  {
    if n == 0 then 0 else Fanout(s, f, n - 1) + if Takes(s, f, n - 1) then 1 else 0
  }

  function Delivered(s: Bus, f: Frame, clock: nat -> nat, n: nat): (d: nat)
    requires n <= |s.cells|
    ensures d <= Fanout(s, f, n)
  {
    if n == 0 then 0 else Delivered(s, f, clock, n - 1) + if Accepts(s, f, clock, n - 1) then 1 else 0
  }

  function Broadcast(s: Bus, f: Frame, clock: nat -> nat): seq<Cell> {
    seq(|s.cells|, k requires 0 <= k < |s.cells| =>
      if Takes(s, f, k) then PushAt(s.cells[k], f, clock(k)) else s.cells[k])
  }

  function Response(id: u8, r: SlaveResponse): Frame {
    Frame(id, r.data, CalcChecksum(ProtectId(id), r.data, r.checksumType), r.checksumType)
  }

  /** The broadcast of a header, after which it gives up the lock. */
  function Transmit(s: Bus, f: Frame, clock: nat -> nat): Bus {
    s.(cells := Broadcast(s, f, clock),
       log := s.log + [Entry(f, |s.pubs|, Fanout(s, f, |s.cells|))],
       lock := Free,
       pending := s.pending + [TallyOf(s, f, clock)])
  }

  function TallyOf(s: Bus, f: Frame, clock: nat -> nat): Pending {
    var ok := Delivered(s, f, clock, |s.cells|);
    SendTally(ok, Fanout(s, f, |s.cells|) - ok, |f.data| * ok)
  }

  /** What send_header answers once it holds the lock. */
  function Answer(responses: map<u8, SlaveResponse>, id: u8): Result<Frame, Error> {
    if id !in responses then Err(NoResponse)
    else if ValidateFrame(Response(id, responses[id])).Err? then Err(InvalidFrame)
    else Ok(Response(id, responses[id]))
  }

  function CountError(s: Bus): Bus {
    s.(metrics := s.metrics.(errorCount := s.metrics.errorCount + 1))
  }

  /** A header's first step under the lock. A missing response is counted as an error, an
      invalid frame is not; a good frame has its bytes counted. */
  function SendLocked(s: Bus, id: u8): Bus {
    var g := Gc(s);
    match Answer(g.responses, id)
    case Ok(f) => g.(metrics := g.metrics.(bytesWritten := g.metrics.bytesWritten + |f.data|), lock := Writing(f))
    case Err(NoResponse) => CountError(g)
    case Err(_) => g
  }

  /** The next step of the header that holds the lock. */
  function Held(s: Bus, clock: nat -> nat): Bus {
    match s.lock
    case Free => s
    case Writing(f) => s.(metrics := s.metrics.(writeCount := s.metrics.writeCount + 1), lock := Sending(f))
    case Sending(f) => Transmit(s, f, clock)
  }

  function CloseLocked(s: Bus): Bus {
    s.(subs := [],
       cells := seq(|s.cells|, k requires 0 <= k < |s.cells| =>
         if k in s.subs then s.cells[k].(sub := s.cells[k].sub.(closed := true), death := Some(|s.log|))
         else s.cells[k]))
  }

  // ---------------------------------------------------------------------------
  // Events
  // ---------------------------------------------------------------------------

  function Without(pending: seq<Pending>, i: nat): seq<Pending>
    requires i < |pending|
  {
    pending[..i] + pending[i + 1..]
  }

  /** What an operation that was waiting for the lock does when it gets it. */
  function Enter(s: Bus, q: Pending, clock: nat -> nat): Bus {
    match q
    case PublishReady(p) => s.(responses := Store(s.responses, p), pubs := s.pubs + [p])
    case SubscribeReady(filters, opts) =>
      s.(cells := s.cells + [NewCell(filters, opts, clock(|s.cells|), |s.log|)], subs := s.subs + [|s.cells|])
    case SendReady(id) => SendLocked(s, id)
    case CloseReady => CloseLocked(s)
    case _ => s
  }

  predicate IsTally(q: Pending) {
    q.SendTally? || q.SendDrops? || q.SendBytes?
  }

  /** One counter of a header that has given up the lock. */
  function Count(m: Metrics, q: Pending): Metrics
    requires IsTally(q)
  {
    match q
    case SendTally(d, _, _) => m.(deliverCount := m.deliverCount + d)
    case SendDrops(x, _) => m.(dropCount := m.dropCount + x)
    case SendBytes(b) => m.(bytesDelivered := m.bytesDelivered + b)
  }

  /** The counters such a header still has to update. */
  function Rest(pending: seq<Pending>, i: nat): seq<Pending>
    requires i < |pending| && IsTally(pending[i])
  {
    match pending[i]
    case SendTally(_, x, b) => pending[i := SendDrops(x, b)]
    case SendDrops(_, b) => pending[i := SendBytes(b)]
    case SendBytes(_) => Without(pending, i)
  }

  /** An operation that needs the lock waits while a header holds it. */
  function Advance(s: Bus, i: nat, clock: nat -> nat): Bus
    requires i < |s.pending|
  {
    if IsTally(s.pending[i]) then s.(metrics := Count(s.metrics, s.pending[i]), pending := Rest(s.pending, i))
    else if s.lock.Free? then Enter(s.(pending := Without(s.pending, i)), s.pending[i], clock)
    else s
  }

  function PopAt(c: Cell): Cell {
    if c.sub.queue == [] then c
    else c.(sub := c.sub.(queue := c.sub.queue[1..]), received := c.received + [c.sub.queue[0]])
  }

  function Step(s: Bus, e: Event): Bus {
    match e
    case PublishCall(id, data, ct) =>
      if CheckPublish(s.closed, id, data).Err? then CountError(s)
      else s.(pending := s.pending + [PublishReady(Publication(id, data, StoredType(id, ct)))])
    case SubscribeCall(filters, opts) =>
      if s.closed then s else s.(pending := s.pending + [SubscribeReady(filters, opts)])
    case SendCall(id) =>
      if CheckSend(s.closed, id).Err? then CountError(s) else s.(pending := s.pending + [SendReady(id)])
    case CloseCall =>
      if s.closed then s else s.(closed := true, pending := s.pending + [CloseReady])
    case Proceed(i, clock) => if i < |s.pending| then Advance(s, i, clock) else s
    case Hold(clock) => Held(s, clock)
    case Receive(k) => if k < |s.cells| then s.(cells := s.cells[k := PopAt(s.cells[k])]) else s
    case CloseReceiver(k) =>
      if k < |s.cells| then s.(cells := s.cells[k := s.cells[k].(sub := s.cells[k].sub.(closed := true))]) else s
  }

  /** Every interleaving: an arbitrary sequence of events. */
  function Run(events: seq<Event>): Bus {
    if |events| == 0 then EMPTY else Step(Run(events[..|events| - 1]), events[|events| - 1])
  }
}
