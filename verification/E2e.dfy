/** End-to-end protection of LIN payloads: the sender prepends a ten-byte header holding two
    identifiers, a sequence counter and a CRC, and the receiver checks it. */
module E2e {
  import opened Word
  import opened Wrappers
  import opened Crc

  const HEADER_SIZE := 10
  const COUNTERS := 0x1_0000_0000

  datatype Config = Config(dataId: u16, sourceId: u16)

  datatype ErrorKind = CrcMismatch | SequenceGap | HeaderTooShort | IdentifierMismatch

  datatype E2eError = E2eError(kind: ErrorKind, counter: u32)

  type Outcome = Result<seq<u8>, E2eError>

  function Succ(counter: u32): u32 {
    (counter + 1) % COUNTERS
  }

  /** The two identifiers and the counter, the first eight bytes on the wire. */
  function Identity(cfg: Config, counter: u32): (h: seq<u8>)
    ensures |h| == 8
  {
    U16ToLe(cfg.dataId) + U16ToLe(cfg.sourceId) + U32ToLe(counter)
  }

  /** The bytes under the CRC: the header with its CRC slot zeroed, then the payload. */
  function Covered(head: seq<u8>, payload: seq<u8>): seq<u8> {
    head + [0, 0] + payload
  }

  function BuildProtected(cfg: Config, counter: u32, payload: seq<u8>): (frame: seq<u8>)
    ensures |frame| == HEADER_SIZE + |payload|
  {
    var head := Identity(cfg, counter);
    head + U16ToLe(Crc16(Covered(head, payload))) + payload
  }

  /** The layout of a protected frame, byte by byte: little-endian identifiers, counter and CRC,
      the CRC over the first eight bytes, two zero bytes and the payload. */
  predicate OnWire(frame: seq<u8>, cfg: Config, counter: u32, payload: seq<u8>) {
    && |frame| == 10 + |payload| && frame[10..] == payload
    && frame[0] + 0x100 * (frame[1] as int) == cfg.dataId
    && frame[2] + 0x100 * (frame[3] as int) == cfg.sourceId
    && frame[4] + 0x100 * (frame[5] as int) + 0x1_0000 * (frame[6] as int) + 0x100_0000 * (frame[7] as int) == counter
    && frame[8] + 0x100 * (frame[9] as int) == Crc16(frame[..8] + [0, 0] + payload)
  }

  /** s with the bytes from position at on replaced. */
  function Overwritten(s: seq<u8>, at: nat, bytes: seq<u8>): (r: seq<u8>)
    requires at + |bytes| <= |s|
    ensures |r| == |s|
  {
    s[..at] + bytes + s[at + |bytes|..]
  }

  lemma IdentityFilled(cfg: Config, counter: u32)
    ensures var first := Overwritten(seq(HEADER_SIZE, _ => 0), 0, U16ToLe(cfg.dataId));
      var ids := Overwritten(first, 2, U16ToLe(cfg.sourceId));
      Overwritten(ids, 4, U32ToLe(counter)) == Identity(cfg, counter) + [0, 0]
  {
    hide U16ToLe, U32ToLe;
    var first := Overwritten(seq(HEADER_SIZE, _ => 0), 0, U16ToLe(cfg.dataId));
    assert first == U16ToLe(cfg.dataId) + seq(8, _ => 0);
    var ids := Overwritten(first, 2, U16ToLe(cfg.sourceId));
    assert ids == U16ToLe(cfg.dataId) + U16ToLe(cfg.sourceId) + seq(6, _ => 0);
  }

  lemma SlotFilled(head: seq<u8>, crc: seq<u8>)
    requires |head| == 8 && |crc| == 2
    ensures Overwritten(head + [0, 0], 8, crc) == head + crc
  {}

  method CopyInto(a: array<u8>, at: nat, src: seq<u8>)
    requires at + |src| <= a.Length
    modifies a
    ensures a[..] == Overwritten(old(a[..]), at, src)
  {
    forall i | 0 <= i < |src| {
      a[at + i] := src[i];
    }
  }

  /** The header is filled in place: identifiers and counter, then the CRC over the zeroed slot. */
  method WriteProtected(cfg: Config, counter: u32, payload: seq<u8>) returns (out: seq<u8>)
    ensures out == BuildProtected(cfg, counter, payload) && OnWire(out, cfg, counter, payload)
  {
    hide Crc16, U16ToLe, U32ToLe, Overwritten;
    var hdr := new u8[HEADER_SIZE](_ => 0);
    assert hdr[..] == seq(HEADER_SIZE, _ => 0);
    CopyInto(hdr, 0, U16ToLe(cfg.dataId));
    CopyInto(hdr, 2, U16ToLe(cfg.sourceId));
    CopyInto(hdr, 4, U32ToLe(counter));
    IdentityFilled(cfg, counter);
    var crc := ComputeCrc16(hdr[..] + payload);
    CopyInto(hdr, 8, U16ToLe(crc));
    SlotFilled(Identity(cfg, counter), U16ToLe(crc));
    out := hdr[..] + payload;
    hide OnWire;
    LayoutIsFrame(cfg, counter, payload, out);
  }

  class Protector {
    const cfg: Config
    var counter: u32

    constructor (cfg: Config)
      ensures this.cfg == cfg && counter == 0
    {
      this.cfg := cfg;
      counter := 0;
    }

    method Protect(payload: seq<u8>) returns (frame: seq<u8>)
      modifies this
      ensures frame == BuildProtected(cfg, old(counter), payload) && OnWire(frame, cfg, old(counter), payload)
      ensures counter == Succ(old(counter))
    {
      var c := counter;
      counter := Succ(c);
      frame := WriteProtected(cfg, c, payload);
    }
  }

  // ---------------------------------------------------------------------------
  // Receiver
  // ---------------------------------------------------------------------------

  datatype ReceiverState = ReceiverState(lastSeq: u32, first: bool)

  const FRESH := ReceiverState(0, true)

  function WireCounter(data: seq<u8>): u32
    requires |data| >= HEADER_SIZE
  {
    U32FromLe(data[4..8])
  }

  function WireConfig(data: seq<u8>): Config
    requires |data| >= HEADER_SIZE
  {
    Config(U16FromLe(data[0..2]), U16FromLe(data[2..4]))
  }

  function WireCrc(data: seq<u8>): u16
    requires |data| >= HEADER_SIZE
  {
    U16FromLe(data[8..10])
  }

  /** The bytes of a received frame that its CRC covers. */
  function Checked(data: seq<u8>): seq<u8>
    requires |data| >= HEADER_SIZE
  {
    Covered(data[..8], data[HEADER_SIZE..])
  }

  predicate CrcHolds(data: seq<u8>)
    requires |data| >= HEADER_SIZE
  {
    Crc16(Checked(data)) == WireCrc(data)
  }

  /** One call of the receiver: its answer and its next state. */
  function Unwrapped(cfg: Config, s: ReceiverState, data: seq<u8>): (Outcome, ReceiverState) {
    if |data| < HEADER_SIZE then (Err(E2eError(HeaderTooShort, 0)), s)
    else
      var counter := WireCounter(data);
      if !CrcHolds(data) then (Err(E2eError(CrcMismatch, counter)), s)
      else if WireConfig(data) != cfg then (Err(E2eError(IdentifierMismatch, counter)), s)
      else if !s.first && counter != Succ(s.lastSeq) then (Err(E2eError(SequenceGap, counter)), s)
      else (Ok(data[HEADER_SIZE..]), ReceiverState(counter, false))
  }

  class Receiver {
    const cfg: Config
    var lastSeq: u32
    var first: bool

    function State(): ReceiverState
      reads this
    {
      ReceiverState(lastSeq, first)
    }

    constructor (cfg: Config)
      ensures this.cfg == cfg && State() == FRESH
    {
      this.cfg := cfg;
      lastSeq, first := 0, true;
    }

    method Unwrap(data: seq<u8>) returns (r: Outcome)
      modifies this
      ensures (r, State()) == Unwrapped(cfg, old(State()), data)
      ensures r.Err? ==> State() == old(State())
    {
      if |data| < HEADER_SIZE {
        return Err(E2eError(HeaderTooShort, 0));
      }
      var counter := U32FromLe(data[4..8]);
      var crcWire := U16FromLe(data[8..10]);
      var payload := data[HEADER_SIZE..];

      var tmp := new u8[HEADER_SIZE](i requires 0 <= i < HEADER_SIZE => data[i]);
      tmp[8] := 0;
      tmp[9] := 0;
      assert tmp[..] == data[..8] + [0, 0];
      var crcCalc := ComputeCrc16(tmp[..] + payload);
      if crcCalc != crcWire {
        return Err(E2eError(CrcMismatch, counter));
      }
      if U16FromLe(data[0..2]) != cfg.dataId || U16FromLe(data[2..4]) != cfg.sourceId {
        return Err(E2eError(IdentifierMismatch, counter));
      }
      if !first && counter != Succ(lastSeq) {
        return Err(E2eError(SequenceGap, counter));
      }
      lastSeq := counter;
      first := false;
      r := Ok(payload);
    }
  }

  // ---------------------------------------------------------------------------
  // The receiver's check inverts the sender's header
  // ---------------------------------------------------------------------------

  /** The wire fields of a byte string are those of a protected frame exactly when it is that frame. */
  lemma FieldsDetermineFrame(cfg: Config, counter: u32, data: seq<u8>)
    requires |data| >= HEADER_SIZE
    ensures data == BuildProtected(cfg, counter, data[HEADER_SIZE..])
       <==> CrcHolds(data) && WireConfig(data) == cfg && WireCounter(data) == counter
  {
    var p := data[HEADER_SIZE..];
    U16RoundTrip(cfg.dataId, data[0..2]);
    U16RoundTrip(cfg.sourceId, data[2..4]);
    U32RoundTrip(counter, data[4..8]);
    assert data[..8] == data[0..2] + data[2..4] + data[4..8];
    var head := Identity(cfg, counter);
    SameParts(data[0..2], data[2..4], data[4..8], U16ToLe(cfg.dataId), U16ToLe(cfg.sourceId), U32ToLe(counter));
    assert data[..8] == head <==> WireConfig(data) == cfg && WireCounter(data) == counter;
    U16RoundTrip(Crc16(Covered(data[..8], p)), data[8..10]);
    assert data == data[..8] + data[8..10] + p;
    var f := BuildProtected(cfg, counter, p);
    assert f[..8] == head && f[8..10] == U16ToLe(Crc16(Covered(head, p))) && f[HEADER_SIZE..] == p;
  }

  /** The fields the receiver reads, byte by byte. */
  lemma FieldsOnWire(data: seq<u8>)
    requires |data| >= 10
    ensures WireConfig(data).dataId == data[0] + 0x100 * (data[1] as int)
    ensures WireConfig(data).sourceId == data[2] + 0x100 * (data[3] as int)
    ensures WireCounter(data)
      == data[4] + 0x100 * (data[5] as int) + 0x1_0000 * (data[6] as int) + 0x100_0000 * (data[7] as int)
    ensures WireCrc(data) == data[8] + 0x100 * (data[9] as int)
  {
    assert data[4..8][..2] == data[4..6] && data[4..8][2..] == data[6..8];
  }

  /** A byte string is the protected frame of a payload exactly when it has its layout. */
  lemma LayoutIsFrame(cfg: Config, counter: u32, payload: seq<u8>, frame: seq<u8>)
    ensures OnWire(frame, cfg, counter, payload) <==> frame == BuildProtected(cfg, counter, payload)
  {
    hide Crc16, BuildProtected, WireConfig, WireCounter, WireCrc;
    if |frame| == 10 + |payload| && frame[10..] == payload {
      FieldsOnWire(frame);
      FieldsDetermineFrame(cfg, counter, frame);
    } else {
      TailOfFrame(cfg, counter, payload);
    }
  }

  lemma TailOfFrame(cfg: Config, counter: u32, payload: seq<u8>)
    ensures |BuildProtected(cfg, counter, payload)| == 10 + |payload|
    ensures BuildProtected(cfg, counter, payload)[10..] == payload
  {}

  lemma SameParts(a: seq<u8>, b: seq<u8>, c: seq<u8>, x: seq<u8>, y: seq<u8>, z: seq<u8>)
    requires |a| == |x| && |b| == |y| && |c| == |z|
    ensures a + b + c == x + y + z <==> a == x && b == y && c == z
  {
    if a + b + c == x + y + z {
      assert a == (a + b + c)[..|a|] && b == (a + b + c)[|a|..|a| + |b|] && c == (a + b + c)[|a| + |b|..];
    }
  }

  /** A payload is returned exactly for the frames the sender builds from it, with any counter
      on the first acceptance and with the successor counter, modulo 2^32, afterwards. */
  lemma UnwrapInvertsProtect(cfg: Config, s: ReceiverState, data: seq<u8>, payload: seq<u8>, next: ReceiverState)
    ensures Unwrapped(cfg, s, data) == (Ok(payload), next)
       <==> !next.first && (s.first || next.lastSeq == Succ(s.lastSeq))
            && data == BuildProtected(cfg, next.lastSeq, payload)
  {
    if |data| >= HEADER_SIZE {
      FieldsDetermineFrame(cfg, next.lastSeq, data);
      var f := BuildProtected(cfg, next.lastSeq, payload);
      assert f[HEADER_SIZE..] == payload;
    }
  }

  /** Which error is returned, in terms of what the byte string is; no error moves the receiver. */
  lemma RejectionReasons(cfg: Config, s: ReceiverState, data: seq<u8>)
    ensures var (r, next) := Unwrapped(cfg, s, data);
      && (r.Err? ==> next == s)
      && (r == Err(E2eError(HeaderTooShort, 0)) <==> |data| < HEADER_SIZE)
      && ((r.Err? && r.error.kind == CrcMismatch)
            <==> (|data| >= HEADER_SIZE
                  && forall c: Config, n: u32 :: data != BuildProtected(c, n, data[HEADER_SIZE..])))
      && (forall n: u32 :: r == Err(E2eError(IdentifierMismatch, n))
            <==> (exists c: Config :: c != cfg && |data| >= HEADER_SIZE
                                      && data == BuildProtected(c, n, data[HEADER_SIZE..])))
      && (forall n: u32 :: r == Err(E2eError(SequenceGap, n))
            <==> (|data| >= HEADER_SIZE && data == BuildProtected(cfg, n, data[HEADER_SIZE..])
                  && !s.first && n != Succ(s.lastSeq)))
  {
    if |data| >= HEADER_SIZE {
      forall c: Config, n: u32
        ensures data == BuildProtected(c, n, data[HEADER_SIZE..])
           <==> CrcHolds(data) && WireConfig(data) == c && WireCounter(data) == n
      {
        FieldsDetermineFrame(c, n, data);
      }
      assert CrcHolds(data) ==> data == BuildProtected(WireConfig(data), WireCounter(data), data[HEADER_SIZE..]);
    }
  }
}
