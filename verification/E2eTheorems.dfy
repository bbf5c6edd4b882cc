/** Error detection on one frame, and safety of whole sessions over a faulty channel. */
module E2eTheorems {
  import opened Word
  import opened Wrappers
  import opened Gf2
  import opened Crc
  import opened CrcTheorems
  import opened CrcOrder
  import opened E2e

  /** The receiver rejects the frame for its CRC, whatever its state, and does not move. */
  ghost predicate CrcRejected(cfg: Config, data: seq<u8>) {
    |data| >= HEADER_SIZE
    && forall s: ReceiverState :: Unwrapped(cfg, s, data) == (Err(E2eError(CrcMismatch, WireCounter(data))), s)
  }

  // ---------------------------------------------------------------------------
  // Altered frames
  // ---------------------------------------------------------------------------

  /** A frame that checked out is rejected once a burst of up to sixteen bits, in the order the
      CRC reads them, has altered its header or payload and left its CRC bytes alone. */
  lemma BurstRejected(cfg: Config, sent: seq<u8>, got: seq<u8>, start: nat)
    requires |sent| == |got| && |sent| >= HEADER_SIZE && CrcHolds(sent)
    requires sent[8..10] == got[8..10]
    requires BurstAt(BitsOf(Checked(sent)), BitsOf(Checked(got)), start)
    ensures CrcRejected(cfg, got)
  {
    BurstChangesCrc(Checked(sent), Checked(got), start);
  }

  lemma OddAppend(x: seq<u8>, y: seq<u8>)
    ensures OddOnes(BitsOf(x + y)) <==> OddOnes(BitsOf(x)) != OddOnes(BitsOf(y))
  {
    hide BitsOf, Ones;
    BitsOfAppend(x, y);
    OnesAppend(BitsOf(x), BitsOf(y));
  }

  lemma OddLe(x: u16)
    ensures OddOnes(BitsOf(U16ToLe(x))) <==> OddOnes(Bits(x, 16))
  {
    hide BitsOf, Ones, Bits;
    var low: u8, high: u8 := x % 0x100, x / 0x100;
    LowByteFirst(x, low, high);
    hide U16ToLe;
    OddAppend([low], [high]);
    BitsOfByte(low);
    BitsOfByte(high);
    BytesOfWord(x);
    OnesAppend(Bits(high, 8), Bits(low, 8));
  }

  lemma LowByteFirst(x: u16, low: u8, high: u8)
    requires x == low + 0x100 * high
    ensures U16ToLe(x) == [low] + [high]
  {}

  lemma BytesOfWord(x: u16)
    ensures Bits(x, 16) == Bits(x / 0x100, 8) + Bits(x % 0x100, 8)
  {
    Pow2Values();
    hide Pow2, Bits;
    BitsJoin(x / 0x100, x % 0x100, 8, 8);
  }

  lemma OddOfZeroSlot()
    ensures !OddOnes(BitsOf([0, 0]))
  {
    OddLe(0);
    BitsOfZero(16);
    OnesOfZeros(16);
    assert seq(16, _ => false) == Zeros(16);
  }

  /** The CRC accepts only byte strings with an even number of one bits. */
  lemma AcceptedHasEvenParity(data: seq<u8>)
    requires |data| >= HEADER_SIZE && CrcHolds(data)
    ensures !OddOnes(BitsOf(data))
  {
    hide Crc16, BitsOf, Ones, Bits;
    var head, crc, payload := data[..8], data[8..10], data[HEADER_SIZE..];
    assert data == head + crc + payload;
    OddAppend(head + crc, payload);
    OddAppend(head, crc);
    OddAppend(head + [0, 0], payload);
    OddAppend(head, [0, 0]);
    OddOfZeroSlot();
    CrcParity(Covered(head, payload));
    U16RoundTrip(Crc16(Covered(head, payload)), crc);
    OddLe(Crc16(Covered(head, payload)));
  }

  /** Every frame the sender emits has an even number of one bits. */
  lemma FramesHaveEvenParity(cfg: Config, counter: u32, payload: seq<u8>)
    ensures !OddOnes(BitsOf(BuildProtected(cfg, counter, payload)))
  {
    var f := BuildProtected(cfg, counter, payload);
    assert f[HEADER_SIZE..] == payload;
    FieldsDetermineFrame(cfg, counter, f);
    AcceptedHasEvenParity(f);
  }

  /** Flipping any odd number of bits anywhere in an accepted frame, CRC bytes included, is noticed. */
  lemma OddFlipsRejected(cfg: Config, sent: seq<u8>, got: seq<u8>)
    requires |sent| == |got| && |sent| >= HEADER_SIZE && CrcHolds(sent)
    requires OddOnes(Xor(BitsOf(sent), BitsOf(got)))
    ensures CrcRejected(cfg, got)
  {
    OddXor(BitsOf(sent), BitsOf(got));
    AcceptedHasEvenParity(sent);
    if CrcHolds(got) {
      AcceptedHasEvenParity(got);
    }
  }

  /** In how many bits two byte strings of one length differ. */
  function Flips(x: seq<u8>, y: seq<u8>): nat
    requires |x| == |y|
  {
    Ones(Xor(BitsOf(x), BitsOf(y)))
  }

  lemma FlipsAppend(a: seq<u8>, b: seq<u8>, c: seq<u8>, d: seq<u8>)
    requires |a| == |c| && |b| == |d|
    ensures Flips(a + b, c + d) == Flips(a, c) + Flips(b, d)
  {
    hide BitsOf, Ones;
    BitsOfAppend(a, b);
    BitsOfAppend(c, d);
    assert Xor(BitsOf(a + b), BitsOf(c + d)) == Xor(BitsOf(a), BitsOf(c)) + Xor(BitsOf(b), BitsOf(d));
    OnesAppend(Xor(BitsOf(a), BitsOf(c)), Xor(BitsOf(b), BitsOf(d)));
  }

  lemma NoDifference(x: seq<bool>)
    ensures Ones(Xor(x, x)) == 0
  {
    OnesOfZeros(|x|);
    assert Xor(x, x) == Zeros(|x|);
  }

  /** The bits of a word are those of its two bytes in the other order. */
  lemma FlipsInWord(b: seq<u8>, c: seq<u8>)
    requires |b| == |c| == 2
    ensures Flips(b, c) == Ones(Xor(Bits(U16FromLe(b), 16), Bits(U16FromLe(c), 16)))
  {
    hide BitsOf, Ones, Bits;
    var low, high := Xor(Bits(b[0], 8), Bits(c[0], 8)), Xor(Bits(b[1], 8), Bits(c[1], 8));
    FlipsAppend([b[0]], [b[1]], [c[0]], [c[1]]);
    assert b == [b[0]] + [b[1]] && c == [c[0]] + [c[1]];
    BitsOfByte(b[0]);
    BitsOfByte(b[1]);
    BitsOfByte(c[0]);
    BitsOfByte(c[1]);
    BytesOfWord(U16FromLe(b));
    BytesOfWord(U16FromLe(c));
    assert Xor(Bits(U16FromLe(b), 16), Bits(U16FromLe(c), 16)) == high + low;
    OnesAppend(high, low);
  }

  /** The flipped bits of a frame are those of what its CRC covers and those of the CRC. */
  lemma FlipsInFrame(sent: seq<u8>, got: seq<u8>)
    requires |sent| == |got| && |sent| >= HEADER_SIZE
    ensures |Checked(sent)| == |Checked(got)| == |sent|
    ensures Flips(sent, got)
      == Flips(Checked(sent), Checked(got)) + Ones(Xor(Bits(WireCrc(sent), 16), Bits(WireCrc(got), 16)))
  {
    var a, b, c := sent[..8], sent[8..10], sent[HEADER_SIZE..];
    var d, e, f := got[..8], got[8..10], got[HEADER_SIZE..];
    assert sent == a + b + c && got == d + e + f;
    hide Ones;
    FlipsAppend(a + b, c, d + e, f);
    FlipsAppend(a, b, d, e);
    FlipsAppend(a + [0, 0], c, d + [0, 0], f);
    FlipsAppend(a, [0, 0], d, [0, 0]);
    NoDifference(BitsOf([0, 0]));
    FlipsInWord(b, e);
  }

  lemma NoOnesSame(x: seq<bool>, y: seq<bool>)
    requires |x| == |y|
    ensures Ones(Xor(x, y)) == 0 <==> x == y
  {
    NoDifference(x);
    if Ones(Xor(x, y)) == 0 {
      forall k | 0 <= k < |x| ensures x[k] == y[k] {
        NoOnes(Xor(x, y), k);
      }
    }
  }

  lemma OneFlip(x: seq<bool>, y: seq<bool>) returns (i: nat)
    requires |x| == |y| && Ones(Xor(x, y)) == 1
    ensures FlipAt(x, y, i)
  {
    i := TheOne(Xor(x, y));
    assert forall k | 0 <= k < |x| :: Xor(x, y)[k] == (x[k] != y[k]);
  }

  lemma SameBitsSameCrc(x: seq<u8>, y: seq<u8>)
    requires BitsOf(x) == BitsOf(y)
    ensures Crc16(x) == Crc16(y)
  {
    hide Crc16, BitsOf, Bits;
    Crc16IsShiftIn(x);
    Crc16IsShiftIn(y);
    SameWord(Crc16(x), Crc16(y));
  }

  /** Two flipped bits, one of them in the CRC. */
  lemma SplitPairNoticed(sent: seq<u8>, got: seq<u8>)
    requires |sent| == |got| && HEADER_SIZE <= |sent| <= 4093 && CrcHolds(sent)
    requires |Checked(sent)| == |Checked(got)| == |sent|
    requires Flips(Checked(sent), Checked(got)) == 1
    requires Ones(Xor(Bits(WireCrc(sent), 16), Bits(WireCrc(got), 16))) == 1
    ensures !CrcHolds(got)
  {
    hide Crc16, BitsOf, Bits, Ones;
    var i := OneFlip(BitsOf(Checked(sent)), BitsOf(Checked(got)));
    var k := OneFlip(Bits(WireCrc(sent), 16), Bits(WireCrc(got), 16));
    SplitFlips(Checked(sent), Checked(got), WireCrc(got), i, k);
    assert 0 < 8 * |sent| - i + k < 32767;
  }

  /** A frame of up to 4093 bytes that checked out is rejected once one, two or three of its bits
      are flipped, wherever they are. With the CRC bytes left alone, 4095 bytes are still safe. */
  lemma FewFlipsRejected(cfg: Config, sent: seq<u8>, got: seq<u8>)
    requires |sent| == |got| && |sent| >= HEADER_SIZE && CrcHolds(sent)
    requires |sent| <= 4093 || (|sent| <= 4095 && sent[8..10] == got[8..10])
    requires 1 <= Flips(sent, got) <= 3
    ensures CrcRejected(cfg, got)
  {
    hide Crc16, BitsOf, Bits, Ones;
    FlipsInFrame(sent, got);
    var a, b := Flips(Checked(sent), Checked(got)), Ones(Xor(Bits(WireCrc(sent), 16), Bits(WireCrc(got), 16)));
    if a + b != 2 {
      OddFlipsRejected(cfg, sent, got);
    } else if a == 1 {
      NoOnesSame(Bits(WireCrc(sent), 16), Bits(WireCrc(got), 16));
      SplitPairNoticed(sent, got);
    } else if a == 0 {
      NoOnesSame(BitsOf(Checked(sent)), BitsOf(Checked(got)));
      NoOnesSame(Bits(WireCrc(sent), 16), Bits(WireCrc(got), 16));
      SameBitsSameCrc(Checked(sent), Checked(got));
    } else {
      NoOnesSame(Bits(WireCrc(sent), 16), Bits(WireCrc(got), 16));
      SameWord(WireCrc(sent), WireCrc(got));
      FewFlipsChangeCrc(Checked(sent), Checked(got));
    }
  }

  lemma OnesOfFlip(x: seq<bool>, y: seq<bool>, i: nat)
    requires FlipAt(x, y, i)
    ensures |x| == |y| && Ones(Xor(x, y)) == 1
  {
    FlipShape(x, y, i);
    hide Xor, Zeros;
    var n := |x| - i - 1;
    OnesOfZeros(i);
    OnesOfZeros(n);
    OnesAppend(Zeros(i), [true]);
    OnesAppend(Zeros(i) + [true], Zeros(n));
    assert Ones([true]) == 1;
  }

  lemma TopFlipped(b: u8) returns (c: u8)
    ensures FlipAt(Bits(b, 8), Bits(c, 8), 0)
  {
    hide Pow2, Bits;
    c := if b >= 0x80 then b - 0x80 else b + 0x80;
    TopBit();
    BitsTop(b, 7);
    BitsTop(c, 7);
  }

  lemma TopBit()
    ensures Pow2(7) == 0x80 && Pow2(8) == 0x100
  {
    Pow2Values();
  }

  lemma LowFlipped(x: u16) returns (y: u16)
    ensures FlipAt(Bits(x, 16), Bits(y, 16), 15)
  {
    y := if x % 2 == 0 then x + 1 else x - 1;
    assert y / 2 == x / 2;
    assert Bits(x, 16) == Bits(x / 2, 15) + [x % 2 == 1] && Bits(y, 16) == Bits(y / 2, 15) + [y % 2 == 1];
    hide Bits;
  }

  /** The bound cannot be raised: in every accepted frame of 4094 bytes the very first bit and the
      last bit of the CRC can be flipped unnoticed. */
  lemma FewFlipsTight(sent: seq<u8>) returns (got: seq<u8>)
    requires |sent| == 4094 && CrcHolds(sent)
    ensures |got| == |sent| && Flips(sent, got) == 2 && CrcHolds(got)
  {
    hide Crc16, BitsOf, Bits, Ones;
    var b := TopFlipped(sent[0]);
    var crc := LowFlipped(WireCrc(sent));
    var rest := sent[1..8] + [0, 0] + sent[HEADER_SIZE..];
    got := [b] + sent[1..8] + U16ToLe(crc) + sent[HEADER_SIZE..];
    assert Checked(sent) == [sent[0]] + rest && Checked(got) == [b] + rest;
    assert got[8..10] == U16ToLe(crc);
    U16RoundTrip(crc, got[8..10]);
    FirstByteFlip(sent[0], b, rest);
    OnesOfFlip(BitsOf(Checked(sent)), BitsOf(Checked(got)), 0);
    OnesOfFlip(Bits(WireCrc(sent), 16), Bits(crc, 16), 15);
    FlipsInFrame(sent, got);
    SplitFlips(Checked(sent), Checked(got), crc, 0, 15);
  }

  lemma FirstByteFlip(b: u8, c: u8, rest: seq<u8>)
    requires FlipAt(Bits(b, 8), Bits(c, 8), 0)
    ensures FlipAt(BitsOf([b] + rest), BitsOf([c] + rest), 0)
  {
    hide BitsOf, Bits;
    BitsOfAppend([b], rest);
    BitsOfAppend([c], rest);
    BitsOfByte(b);
    BitsOfByte(c);
  }

  // ---------------------------------------------------------------------------
  // The zeroed CRC slot
  // ---------------------------------------------------------------------------

  /** The CRC over the zeroed slot as well is the CRC over the first eight bytes and the payload
      exactly when the CRC of those eight bytes alone is one of two values. */
  lemma SlotCoverage(cfg: Config, counter: u32, payload: seq<u8>)
    ensures var head := Identity(cfg, counter);
      Crc16(Covered(head, payload)) == Crc16(head + payload) <==> Crc16(head) == 0 || Crc16(head) == FIXED
  {
    hide Crc16, Identity;
    ZeroSlotUnseen(Identity(cfg, counter), payload);
  }

  /** The very first frame of configuration (0, 0) is one that differs, whatever its payload. */
  lemma SlotCoverageDiffers(payload: seq<u8>)
    ensures var head := Identity(Config(0, 0), 0); Crc16(Covered(head, payload)) != Crc16(head + payload)
  {
    hide Crc16;
    var head := Identity(Config(0, 0), 0);
    assert head == [0, 0, 0, 0, 0, 0, 0, 0];
    ZeroHeaderMoves(head);
    SlotCoverage(Config(0, 0), 0, payload);
  }

  // ---------------------------------------------------------------------------
  // Sessions
  // ---------------------------------------------------------------------------

  /** What a fresh sender puts on the wire for the i-th payload it protects. */
  function Frame(cfg: Config, payloads: seq<seq<u8>>, i: nat): seq<u8>
    requires i < |payloads|
  {
    BuildProtected(cfg, i % COUNTERS, payloads[i])
  }

  /** One call of the sender per payload, each leaving the counter for the next. */
  function Emitted(cfg: Config, counter: u32, payloads: seq<seq<u8>>): seq<seq<u8>>
    decreases |payloads|
  {
    if |payloads| == 0 then []
    else [BuildProtected(cfg, counter, payloads[0])] + Emitted(cfg, Succ(counter), payloads[1..])
  }

  lemma {:induction false} EmittedFrom(cfg: Config, counter: u32, payloads: seq<seq<u8>>, i: nat)
    requires i < |payloads|
    ensures |Emitted(cfg, counter, payloads)| == |payloads|
    ensures Emitted(cfg, counter, payloads)[i] == BuildProtected(cfg, (counter + i) % COUNTERS, payloads[i])
    decreases |payloads|
  {
    hide BuildProtected, Succ;
    if i > 0 {
      EmittedFrom(cfg, Succ(counter), payloads[1..], i - 1);
      SuccPlus(counter, i);
    } else if |payloads| > 1 {
      EmittedFrom(cfg, Succ(counter), payloads[1..], 0);
    } else {
      assert Emitted(cfg, Succ(counter), payloads[1..]) == [];
    }
  }

  lemma SuccPlus(counter: u32, i: nat)
    requires i > 0
    ensures (Succ(counter) + (i - 1)) % COUNTERS == (counter + i) % COUNTERS
  {}

  /** The i-th frame of a fresh sender carries the call number modulo 2^32. */
  lemma EmittedFrames(cfg: Config, payloads: seq<seq<u8>>, i: nat)
    requires i < |payloads|
    ensures |Emitted(cfg, 0, payloads)| == |payloads| && Emitted(cfg, 0, payloads)[i] == Frame(cfg, payloads, i)
  {
    EmittedFrom(cfg, 0, payloads, i);
  }

  /** A byte string that is no protected frame of this configuration. */
  ghost predicate Foreign(cfg: Config, data: seq<u8>) {
    forall n: u32, p: seq<u8> :: data != BuildProtected(cfg, n, p)
  }

  /** The channel may drop, duplicate and reorder frames, and put in anything foreign. */
  ghost predicate Delivers(cfg: Config, payloads: seq<seq<u8>>, wire: seq<seq<u8>>) {
    forall w | w in wire :: Foreign(cfg, w) || Genuine(cfg, payloads, w)
  }

  ghost predicate Genuine(cfg: Config, payloads: seq<seq<u8>>, w: seq<u8>) {
    exists i: nat :: i < |payloads| && w == Frame(cfg, payloads, i)
  }

  /** The payloads a receiver returns on a run, and where the run leaves it. */
  function Session(cfg: Config, s: ReceiverState, wire: seq<seq<u8>>): Run {
    if |wire| == 0 then Run([], s)
    else Extend(Session(cfg, s, wire[..|wire| - 1]),
                Unwrapped(cfg, Session(cfg, s, wire[..|wire| - 1]).state, wire[|wire| - 1]))
  }

  datatype Run = Run(out: seq<seq<u8>>, state: ReceiverState)

  function Extend(run: Run, step: (Outcome, ReceiverState)): Run {
    Run(if step.0.Ok? then run.out + [step.0.value] else run.out, step.1)
  }

  lemma SessionSnoc(cfg: Config, s: ReceiverState, wire: seq<seq<u8>>, w: seq<u8>)
    ensures Session(cfg, s, wire + [w])
         == Extend(Session(cfg, s, wire), Unwrapped(cfg, Session(cfg, s, wire).state, w))
  {
    assert (wire + [w])[..|wire|] == wire;
  }

  /** out is a contiguous run of the payloads, in order and without duplicates. */
  ghost predicate Slice(out: seq<seq<u8>>, payloads: seq<seq<u8>>) {
    exists k: nat :: SliceAt(out, payloads, k)
  }

  predicate SliceAt(out: seq<seq<u8>>, payloads: seq<seq<u8>>, k: nat) {
    k + |out| <= |payloads| && out == payloads[k..k + |out|]
  }

  lemma CountersDiffer(cfg: Config, m: u32, p: seq<u8>, n: u32, q: seq<u8>)
    requires BuildProtected(cfg, m, p) == BuildProtected(cfg, n, q)
    ensures m == n && p == q
  {
    var f := BuildProtected(cfg, m, p);
    assert f[HEADER_SIZE..] == p == q;
    FieldsDetermineFrame(cfg, m, f);
    FieldsDetermineFrame(cfg, n, f);
  }

  /** What holds after every delivery: the outputs so far are a slice, and the receiver
      remembers the position of the last one. */
  predicate Follows(run: Run, payloads: seq<seq<u8>>, k: nat) {
    && SliceAt(run.out, payloads, k)
    && (run.state.first <==> run.out == [])
    && (!run.state.first ==> run.state.lastSeq == k + |run.out| - 1)
  }

  lemma AcceptedIsNext(cfg: Config, payloads: seq<seq<u8>>, s: ReceiverState, w: seq<u8>,
    next: ReceiverState, p: seq<u8>)
    returns (i: nat)
    requires |payloads| < COUNTERS && (Foreign(cfg, w) || Genuine(cfg, payloads, w))
    requires Unwrapped(cfg, s, w) == (Ok(p), next)
    requires s.first || s.lastSeq < |payloads|
    ensures i < |payloads| && payloads[i] == p && next == ReceiverState(i, false)
    ensures !s.first ==> i == s.lastSeq + 1
  {
    hide BuildProtected, Unwrapped, Genuine, Succ;
    UnwrapInvertsProtect(cfg, s, w, p, next);
    assert w == BuildProtected(cfg, next.lastSeq, p);
    i := PositionOf(cfg, payloads, w, next.lastSeq, p);
    if !s.first {
      SuccBelow(s.lastSeq);
    }
  }

  lemma SuccBelow(n: u32)
    requires n < COUNTERS - 1
    ensures Succ(n) == n + 1
  {}

  lemma PositionOf(cfg: Config, payloads: seq<seq<u8>>, w: seq<u8>, n: u32, p: seq<u8>) returns (i: nat)
    requires |payloads| < COUNTERS && Genuine(cfg, payloads, w)
    requires w == BuildProtected(cfg, n, p)
    ensures i < |payloads| && i == n && payloads[i] == p
  {
    hide BuildProtected;
    i :| i < |payloads| && w == Frame(cfg, payloads, i);
    CountersDiffer(cfg, i, payloads[i], n, p);
  }

  lemma {:induction false} SessionPosition(cfg: Config, payloads: seq<seq<u8>>, wire: seq<seq<u8>>) returns (k: nat)
    requires |payloads| < COUNTERS && Delivers(cfg, payloads, wire)
    ensures Follows(Session(cfg, FRESH, wire), payloads, k)
  {
    if |wire| == 0 {
      k := 0;
    } else {
      var front, w := wire[..|wire| - 1], wire[|wire| - 1];
      assert w in wire;
      k := SessionPosition(cfg, payloads, front);
      var run := Session(cfg, FRESH, front);
      var (r, next) := Unwrapped(cfg, run.state, w);
      SessionSnoc(cfg, FRESH, front, w);
      assert front + [w] == wire;
      if r.Ok? {
        var i := AcceptedIsNext(cfg, payloads, run.state, w, next, r.value);
        k := if run.state.first then i else k;
        SliceGrows(run.out, payloads, k, i);
      }
    }
  }

  lemma SliceGrows(out: seq<seq<u8>>, payloads: seq<seq<u8>>, k: nat, i: nat)
    requires out == [] || SliceAt(out, payloads, k)
    requires i == k + |out| < |payloads|
    ensures SliceAt(out + [payloads[i]], payloads, k)
  {
    assert payloads[k..i + 1] == payloads[k..i] + [payloads[i]];
  }

  ghost predicate SafeFor(cfg: Config, n: nat) {
    forall payloads: seq<seq<u8>>, wire: seq<seq<u8>> ::
      |payloads| == n && Delivers(cfg, payloads, wire) ==> Slice(Session(cfg, FRESH, wire).out, payloads)
  }

  /** Over every channel the receiver returns a contiguous, in-order, duplicate-free run of the
      payloads, exactly as long as the sender has made fewer than 2^32 calls. */
  lemma SessionSafety(cfg: Config, n: nat)
    ensures SafeFor(cfg, n) <==> n < COUNTERS
  {
    if n < COUNTERS {
      forall payloads: seq<seq<u8>>, wire: seq<seq<u8>> | |payloads| == n && Delivers(cfg, payloads, wire)
        ensures Slice(Session(cfg, FRESH, wire).out, payloads)
      {
        var k := SessionPosition(cfg, payloads, wire);
      }
    } else {
      var payloads, wire := WrapAmbiguity(cfg, n);
      assert |payloads| == n && Delivers(cfg, payloads, wire) && !Slice(Session(cfg, FRESH, wire).out, payloads);
    }
  }

  /** The run that goes wrong: the frame with counter 2^32 - 1, then the very first frame again. */
  lemma WrapAmbiguity(cfg: Config, n: nat) returns (payloads: seq<seq<u8>>, wire: seq<seq<u8>>)
    requires n >= COUNTERS
    ensures |payloads| == n && Delivers(cfg, payloads, wire)
    ensures !Slice(Session(cfg, FRESH, wire).out, payloads)
  {
    hide BuildProtected, Session;
    var last: u32 := COUNTERS - 1;
    payloads := seq(n, i => if i == 0 then [2] else if i == last then [1] else []);
    var a, b := Frame(cfg, payloads, last), Frame(cfg, payloads, 0);
    wire := [a, b];
    assert Genuine(cfg, payloads, a) && Genuine(cfg, payloads, b);
    TwoDeliveries(cfg, a, b, last, 0, [1], [2]);
    NotAdjacent(payloads, Session(cfg, FRESH, wire).out);
  }

  lemma NotAdjacent(payloads: seq<seq<u8>>, out: seq<seq<u8>>)
    requires out == [[1], [2]]
    requires forall i | 0 < i < |payloads| :: payloads[i] != [2]
    ensures !Slice(out, payloads)
  {
    forall k: nat ensures !SliceAt(out, payloads, k) {
      if k + 2 <= |payloads| {
        assert payloads[k..k + 2][1] == payloads[k + 1];
        assert out[1] == [2];
      }
    }
  }

  lemma TwoDeliveries(cfg: Config, a: seq<u8>, b: seq<u8>, m: u32, n: u32, p: seq<u8>, q: seq<u8>)
    requires a == BuildProtected(cfg, m, p) && b == BuildProtected(cfg, n, q) && n == Succ(m)
    ensures Session(cfg, FRESH, [a, b]).out == [p, q]
  {
    var s, t := ReceiverState(m, false), ReceiverState(n, false);
    UnwrapInvertsProtect(cfg, FRESH, a, p, s);
    UnwrapInvertsProtect(cfg, s, b, q, t);
    SessionSnoc(cfg, FRESH, [], a);
    SessionSnoc(cfg, FRESH, [a], b);
    assert [] + [a] == [a] && [a] + [b] == [a, b];
  }

  /** The frames from the k-th on, m of them. */
  function Sent(cfg: Config, payloads: seq<seq<u8>>, k: nat, m: nat): seq<seq<u8>>
    requires k + m <= |payloads|
  {
    if m == 0 then [] else Sent(cfg, payloads, k, m - 1) + [Frame(cfg, payloads, k + m - 1)]
  }

  /** The receiver after m deliveries from the k-th frame on. */
  function Joined(k: nat, m: nat): ReceiverState {
    if m == 0 then FRESH else ReceiverState((k + m - 1) % COUNTERS, false)
  }

  lemma NextAccepted(cfg: Config, k: nat, m: nat, p: seq<u8>)
    ensures Unwrapped(cfg, Joined(k, m), BuildProtected(cfg, (k + m) % COUNTERS, p)) == (Ok(p), Joined(k, m + 1))
  {
    hide BuildProtected, Unwrapped;
    if m > 0 {
      SuccOfMod(k + m);
    }
    UnwrapInvertsProtect(cfg, Joined(k, m), BuildProtected(cfg, (k + m) % COUNTERS, p), p, Joined(k, m + 1));
  }

  lemma SuccOfMod(j: nat)
    requires j > 0
    ensures j % COUNTERS == Succ((j - 1) % COUNTERS)
  {}

  /** A faithful channel delivers everything from wherever the receiver joins, across any
      number of counter wraps. */
  lemma {:induction false} LosslessDelivery(cfg: Config, payloads: seq<seq<u8>>, k: nat, m: nat)
    requires k + m <= |payloads|
    ensures Session(cfg, FRESH, Sent(cfg, payloads, k, m)) == Run(payloads[k..k + m], Joined(k, m))
  {
    hide BuildProtected, Unwrapped;
    if m > 0 {
      hide Session, Joined;
      var j := k + m - 1;
      LosslessDelivery(cfg, payloads, k, m - 1);
      SessionSnoc(cfg, FRESH, Sent(cfg, payloads, k, m - 1), Frame(cfg, payloads, j));
      NextAccepted(cfg, k, m - 1, payloads[j]);
      assert payloads[k..k + m] == payloads[k..j] + [payloads[j]];
    }
  }
}
