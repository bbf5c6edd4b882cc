/** Frames as RELAY messages and back, and the send path of the adapter. */
module Adapter {
  import opened Word
  import opened Wrappers
  import opened Text
  import opened LinFrame
  import opened BusMachine

  datatype Protocol = Can | Dds | Lin | Mqtt | Rcp | Someip

  datatype Message = Message(protocol: Protocol, id: string, payload: seq<u8>, seqNo: nat, meta: map<string, string>)

  const TYPE_KEY := "lin.checksum_type"
  const CHECKSUM_KEY := "lin.checksum"

  function ToMessage(f: Frame): Message {
    var ct := match f.checksumType case Classic => "classic" case Enhanced => "enhanced";
    Message(Lin, Decimal(f.id), f.data, 0, map[TYPE_KEY := ct, CHECKSUM_KEY := Decimal(f.checksum)])
  }

  function ParseU8(s: string): (r: Option<nat>)
    ensures r.Some? ==> r.value < 0x100
  {
    ParseUnsigned(s, 10, 0x100)
  }

  function MetaValue(meta: map<string, string>, key: string): Option<string> {
    if key in meta then Some(meta[key]) else None
  }

  /** Only a bad protocol or id is an error; the checksum fields fall back to Classic and zero. */
  function FromMessage(m: Message): Result<Frame, Error> {
    if m.protocol != Lin then Err(InvalidFrame)
    else
      match ParseU8(m.id)
      case None => Err(InvalidFrame)
      case Some(id) =>
        if id > LIN_MAX_ID then Err(InvalidFrame)
        else
          var ct := if MetaValue(m.meta, TYPE_KEY) == Some("enhanced") then Enhanced else Classic;
          var checksum := match MetaValue(m.meta, CHECKSUM_KEY) case None => None case Some(v) => ParseU8(v);
          Ok(Frame(id, m.payload, if checksum.None? then 0 else checksum.value, ct))
  }

  lemma KeysDiffer()
    ensures TYPE_KEY != CHECKSUM_KEY && "classic" != "enhanced"
  {
    assert |TYPE_KEY| == 17 && |CHECKSUM_KEY| == 12;
  }

  /** A frame survives the conversion, whatever its data, checksum and type and whatever sequence
      number the message gets, exactly when its id is valid; otherwise it is refused. */
  lemma MessageRoundTrip(f: Frame, n: nat)
    ensures FromMessage(ToMessage(f).(seqNo := n)) == if f.id <= LIN_MAX_ID then Ok(f) else Err(InvalidFrame)
  {
    KeysDiffer();
    ParsePrinted(f.id, 0x100);
    ParsePrinted(f.checksum, 0x100);
    hide Decimal, ParseUnsigned;
  }

  /** Reading a message and writing it again gives a message that reads the same. */
  lemma Normalises(m: Message)
    requires FromMessage(m).Ok?
    ensures FromMessage(ToMessage(FromMessage(m).value)) == FromMessage(m)
  {
    MessageRoundTrip(FromMessage(m).value, 0);
    assert FromMessage(m).value.id <= LIN_MAX_ID;
    hide FromMessage;
  }

  /** What a frame is written as: its numbers in decimal, its checksum type in words. */
  lemma MessageOfFrame(f: Frame)
    ensures var m := ToMessage(f);
      && m.protocol == Lin && m.id == Decimal(f.id) && m.payload == f.data && m.seqNo == 0
      && m.meta.Keys == {"lin.checksum_type", "lin.checksum"}
      && m.meta["lin.checksum"] == Decimal(f.checksum)
      && m.meta["lin.checksum_type"] == if f.checksumType == Enhanced then "enhanced" else "classic"
  {
    KeysDiffer();
  }

  /** A message is read exactly when it is a LIN message with a number of at most 63 as its id. A
      checksum type other than the word enhanced, or none, is Classic; a checksum that is no number
      below 256, or none, is zero. */
  lemma FrameOfMessage(m: Message)
    ensures FromMessage(m).Ok? <==>
      m.protocol == Lin && exists n: nat :: n < 64 && ParseUnsigned(m.id, 10, 256) == Some(n)
    ensures FromMessage(m).Err? ==> FromMessage(m) == Err(InvalidFrame)
    ensures FromMessage(m).Ok? ==>
      var f := FromMessage(m).value;
      && ParseUnsigned(m.id, 10, 256) == Some(f.id) && f.data == m.payload
      && (f.checksumType == Enhanced <==> "lin.checksum_type" in m.meta && m.meta["lin.checksum_type"] == "enhanced")
      && ("lin.checksum" !in m.meta ==> f.checksum == 0)
      && ("lin.checksum" in m.meta ==>
            f.checksum == match ParseUnsigned(m.meta["lin.checksum"], 10, 256) case None => 0 case Some(n) => n)
  {
    hide ParseUnsigned;
  }

  // ---------------------------------------------------------------------------
  // Sending
  // ---------------------------------------------------------------------------

  datatype RelayError = RelayClosed | RelayTimeout | RelayPayloadTooLarge

  function Kind(e: Error): Option<RelayError> {
    match e
    case Closed => Some(RelayClosed)
    case PayloadTooLarge => Some(RelayPayloadTooLarge)
    case NoResponse => Some(RelayTimeout)
    case InvalidFrame => None
  }

  /** A header without a response counts as a timeout; an invalid frame has no kind of its own. */
  lemma KindsExactly(e: Error)
    ensures Kind(e) == Some(RelayTimeout) <==> e == NoResponse
    ensures Kind(e) == Some(RelayPayloadTooLarge) <==> e == PayloadTooLarge
    ensures Kind(e) == Some(RelayClosed) <==> e == Closed
  {}

  /** An error without a relay kind is reported as a closed node. */
  function Reported(e: Error): RelayError {
    match Kind(e) case None => RelayClosed case Some(k) => k
  }

  /** What send answers; the publish it leads to is always one of an Enhanced response. */
  function SendAnswer(closed: bool, m: Message): Result<(), RelayError> {
    if |m.payload| > LIN_MAX_DATA_LEN then Err(RelayPayloadTooLarge)
    else
      match FromMessage(m)
      case Err(e) => Err(Reported(e))
      case Ok(f) =>
        match CheckPublish(closed, f.id, Some(f.data))
        case Err(e) => Err(Reported(e))
        case Ok(_) => Ok(())
  }

  /** Which answer means what: too large is about the payload alone, and a malformed message is
      not told apart from a closed bus. */
  lemma SendAnswers(closed: bool, m: Message)
    ensures SendAnswer(closed, m) == Err(RelayPayloadTooLarge) <==> |m.payload| > LIN_MAX_DATA_LEN
    ensures SendAnswer(closed, m) == Ok(()) <==> |m.payload| <= LIN_MAX_DATA_LEN && !closed && FromMessage(m).Ok?
    ensures SendAnswer(closed, m) == Err(RelayClosed)
      <==> |m.payload| <= LIN_MAX_DATA_LEN && (closed || FromMessage(m).Err?)
  {
    if FromMessage(m).Ok? {
      assert FromMessage(m).value.id <= LIN_MAX_ID && FromMessage(m).value.data == m.payload;
    } else {
      assert FromMessage(m) == Err(InvalidFrame);
    }
    hide FromMessage;
  }

  /** A header for the id of a sent message is answered with the frame the message described
      exactly when that frame already had the checksum the bus computes for it, and some data:
      the checksum fields of a message do not reach the bus. */
  lemma SentFrameEchoes(responses: map<u8, SlaveResponse>, m: Message)
    requires SendAnswer(false, m).Ok?
    ensures var f := FromMessage(m).value; var ct := StoredType(f.id, Enhanced);
      (Answer(Store(responses, Publication(f.id, Some(f.data), ct)), f.id) == Ok(f))
      <==> (|f.data| > 0 && f.checksumType == ct && f.checksum == CalcChecksum(ProtectId(f.id), f.data, ct))
  {
    SendAnswers(false, m);
    assert FromMessage(m).value.id <= LIN_MAX_ID && FromMessage(m).value.data == m.payload;
    hide FromMessage, CalcChecksum, ProtectId, SendAnswer;
  }
}
