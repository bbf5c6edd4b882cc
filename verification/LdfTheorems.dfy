/** What every parsed database satisfies, whatever the file, and what decoding with it means. */
module LdfTheorems {
  import opened Word
  import opened Wrappers
  import opened LdfBits
  import opened LdfParser
  import LinFrame

  // ---------------------------------------------------------------------------
  // The parsed database
  // ---------------------------------------------------------------------------

  predicate KeyedFrames(frames: map<u8, Frame>) {
    forall id | id in frames :: frames[id].id == id
  }

  predicate KeyedSignals(signals: map<string, Signal>) {
    forall name | name in signals :: signals[name].name == name
  }

  /** Every entry names a frame that exists, by an id the bus accepts. */
  predicate Resolved(entries: seq<ScheduleEntry>, frames: map<u8, Frame>) {
    forall e | e in entries :: e.id <= LinFrame.LIN_MAX_ID && e.id in frames
  }

  predicate ResolvedTables(schedules: map<string, seq<ScheduleEntry>>, frames: map<u8, Frame>) {
    forall name | name in schedules :: Resolved(schedules[name], frames)
  }

  predicate Sound(d: Tables) {
    KeyedFrames(d.frames) && KeyedSignals(d.signals) && ResolvedTables(d.schedules, d.frames)
  }

  lemma {:induction false} DeclareKeyed(signals: map<string, Signal>, body: seq<string>, h: Host)
    requires KeyedSignals(signals)
    ensures KeyedSignals(Declare(signals, body, h))
    decreases |body|
  {
    hide SignalOf;
    if |body| > 0 {
      match SignalOf(body[0], h)
      case None => DeclareKeyed(signals, body[1..], h);
      case Some(s) => DeclareKeyed(signals[s.name := s], body[1..], h);
    }
  }

  /** Frames are added or replaced, never removed. */
  lemma {:induction false} AddFramesKeyed(frames: map<u8, Frame>, blocks: seq<Block>)
    requires KeyedFrames(frames) && forall b | b in blocks :: OpensFrame(b.header)
    ensures KeyedFrames(AddFrames(frames, blocks)) && frames.Keys <= AddFrames(frames, blocks).Keys
    decreases |blocks|
  {
    if |blocks| > 0 {
      hide FrameOf, OpensFrame;
      assert blocks[0] in blocks;
      var f := FrameOf(blocks[0]);
      AddFramesKeyed(frames[f.id := f], blocks[1..]);
    }
  }

  lemma {:induction false} EntriesResolved(body: seq<string>, frames: map<u8, Frame>, section: nat, h: Host)
    requires WalksMaps(h)
    ensures Resolved(Entries(body, frames, section, h), frames)
  {
    hide DelayOf, FirstNamed;
    if |body| > 0 {
      if DelayOf(body[0], h).Some? {
        LookupFinds(h.order(section, frames), frames, DelayOf(body[0], h).value.name);
      }
      EntriesResolved(body[1..], frames, section, h);
    }
  }

  lemma {:induction false} AddTablesResolved(schedules: map<string, seq<ScheduleEntry>>, blocks: seq<Block>,
                                             frames: map<u8, Frame>, section: nat, h: Host)
    requires WalksMaps(h) && ResolvedTables(schedules, frames)
    ensures ResolvedTables(AddTables(schedules, blocks, frames, section, h), frames)
    decreases |blocks|
  {
    if |blocks| > 0 {
      EntriesResolved(blocks[0].body, frames, section, h);
      hide Entries, TableName, Resolved, WalksMaps;
      AddTablesResolved(schedules[TableName(blocks[0].header) := Entries(blocks[0].body, frames, section, h)],
                        blocks[1..], frames, section, h);
    }
  }

  lemma {:induction false} ReadNodesKeeps(d: Tables, body: seq<string>)
    ensures ReadNodes(d, body).(masterNode := d.masterNode, slaveNodes := d.slaveNodes) == d
    decreases |body|
  {
    hide MasterOf, SlavesOf;
    if |body| > 0 {
      ReadNodesKeeps(ReadNode(d, body[0]), body[1..]);
    }
  }

  lemma FramesSound(d: Tables, b: seq<string>)
    requires Sound(d)
    ensures Sound(d.(frames := ReadFrames(d.frames, b)))
  {
    BlocksOpen(b, OpensFrame);
    AddFramesKeyed(d.frames, Blocks(b, OpensFrame));
    var frames := ReadFrames(d.frames, b);
    hide AddFrames, Blocks;
    forall name | name in d.schedules ensures Resolved(d.schedules[name], frames) {
      assert Resolved(d.schedules[name], d.frames);
    }
  }

  lemma SectionSound(d: Tables, line: string, rest: seq<string>, h: Host)
    requires WalksMaps(h) && Sound(d)
    ensures Sound(ReadSection(d, line, rest, h).0)
  {
    hide WalksMaps, Quoted, Body, After, Opened, Blocks, AfterBlocks, KeyedFrames, KeyedSignals, ResolvedTables;
    hide ReadNodes, Declare, ReadFrames, AddTables;
    var b := Opened(rest);
    if "Nodes" <= line {
      ReadNodesKeeps(d, Body(b));
    } else if "Signals" <= line {
      DeclareKeyed(d.signals, Body(b), h);
    } else if "Frames" <= line {
      FramesSound(d, b);
    } else {
      AddTablesResolved(d.schedules, Blocks(b, OpensTable), d.frames, |b|, h);
    }
  }

  lemma {:induction false} ReadAllSound(d: Tables, t: seq<string>, h: Host)
    requires WalksMaps(h) && Sound(d)
    ensures Sound(ReadAll(d, t, h))
    decreases |t|
  {
    if |t| > 0 {
      SectionSound(d, t[0], t[1..], h);
      hide ReadSection, Sound, WalksMaps;
      var (e, rest) := ReadSection(d, t[0], t[1..], h);
      ReadAllSound(e, rest, h);
    }
  }

  /** Whatever the file holds and however its sections repeat or break off, each frame is filed
      under its own id, each signal under its own name, and each schedule entry has an id of at
      most 0x3F under which there is a frame. */
  lemma ParsedIsSound(raw: seq<string>, h: Host)
    requires WalksMaps(h)
    ensures Sound(ReadAll(NOTHING, Cleaned(raw), h))
  {
    ReadAllSound(NOTHING, Cleaned(raw), h);
  }

  // ---------------------------------------------------------------------------
  // Repeated declarations
  // ---------------------------------------------------------------------------

  /** The last line that declares the signal, if any. */
  function LastDeclaration(body: seq<string>, name: string, h: Host): Option<Signal> {
    if |body| == 0 then None
    else
      var s := SignalOf(body[|body| - 1], h);
      if s.Some? && s.value.name == name then s else LastDeclaration(body[..|body| - 1], name, h)
  }

  lemma {:induction false} DeclareSnoc(signals: map<string, Signal>, body: seq<string>, line: string, h: Host)
    ensures Declare(signals, body + [line], h) == Declare(Declare(signals, body, h), [line], h)
    decreases |body|
  {
    hide SignalOf;
    if |body| == 0 {
      assert [] + [line] == [line];
    } else {
      assert (body + [line])[1..] == body[1..] + [line];
      match SignalOf(body[0], h)
      case None => DeclareSnoc(signals, body[1..], line, h);
      case Some(s) => DeclareSnoc(signals[s.name := s], body[1..], line, h);
    }
  }

  /** A Signals section declares exactly what its lines say; the last line for a name wins, and a
      name it does not mention keeps its earlier declaration. */
  lemma {:induction false} LastDeclarationWins(signals: map<string, Signal>, body: seq<string>, name: string, h: Host)
    ensures var after, last := Declare(signals, body, h), LastDeclaration(body, name, h);
      && (name in after <==> last.Some? || name in signals)
      && (name in after ==> after[name] == if last.Some? then last.value else signals[name])
    decreases |body|
  {
    hide SignalOf;
    if |body| > 0 {
      var front, line := body[..|body| - 1], body[|body| - 1];
      LastDeclarationWins(signals, front, name, h);
      DeclareSnoc(signals, front, line, h);
      assert body == front + [line] && [line][1..] == [];
      hide LastDeclaration;
      assert LastDeclaration(body, name, h)
        == if SignalOf(line, h).Some? && SignalOf(line, h).value.name == name then SignalOf(line, h)
           else LastDeclaration(front, name, h);
    }
  }

  /** The last block that declares a frame with the id, if any. */
  function LastFrame(blocks: seq<Block>, id: u8): Option<Frame>
    requires forall b | b in blocks :: OpensFrame(b.header)
  {
    if |blocks| == 0 then None
    else
      var f := FrameOf(blocks[|blocks| - 1]);
      if f.id == id then Some(f) else LastFrame(blocks[..|blocks| - 1], id)
  }

  lemma {:induction false} AddFramesSnoc(frames: map<u8, Frame>, blocks: seq<Block>, b: Block)
    requires (forall c | c in blocks :: OpensFrame(c.header)) && OpensFrame(b.header)
    ensures AddFrames(frames, blocks + [b]) == AddFrames(frames, blocks)[FrameOf(b).id := FrameOf(b)]
    decreases |blocks|
  {
    hide OpensFrame, FrameOf;
    if |blocks| == 0 {
      assert [] + [b] == [b] && [b][1..] == [];
    } else {
      assert (blocks + [b])[1..] == blocks[1..] + [b];
      var f := FrameOf(blocks[0]);
      AddFramesSnoc(frames[f.id := f], blocks[1..], b);
    }
  }

  /** A Frames section files exactly the frames of its blocks; the last block for an id wins, and
      an id no block declares keeps its earlier frame. */
  lemma {:induction false} LastFrameWins(frames: map<u8, Frame>, blocks: seq<Block>, id: u8)
    requires forall b | b in blocks :: OpensFrame(b.header)
    ensures var after, last := AddFrames(frames, blocks), LastFrame(blocks, id);
      && (id in after <==> last.Some? || id in frames)
      && (id in after ==> after[id] == if last.Some? then last.value else frames[id])
  {
    hide OpensFrame, FrameOf;
    if |blocks| > 0 {
      var front, b := blocks[..|blocks| - 1], blocks[|blocks| - 1];
      assert blocks == front + [b];
      LastFrameWins(frames, front, id);
      AddFramesSnoc(frames, front, b);
    }
  }

  /** The last block for a table name, if any. */
  function LastTable(blocks: seq<Block>, name: string): Option<Block> {
    if |blocks| == 0 then None
    else if TableName(blocks[|blocks| - 1].header) == name then Some(blocks[|blocks| - 1])
    else LastTable(blocks[..|blocks| - 1], name)
  }

  lemma {:induction false} AddTablesSnoc(schedules: map<string, seq<ScheduleEntry>>, blocks: seq<Block>, b: Block,
                                         frames: map<u8, Frame>, section: nat, h: Host)
    ensures AddTables(schedules, blocks + [b], frames, section, h)
      == AddTables(schedules, blocks, frames, section, h)[TableName(b.header) := Entries(b.body, frames, section, h)]
    decreases |blocks|
  {
    hide TableName, Entries;
    if |blocks| == 0 {
      assert [] + [b] == [b] && [b][1..] == [];
    } else {
      assert (blocks + [b])[1..] == blocks[1..] + [b];
      AddTablesSnoc(schedules[TableName(blocks[0].header) := Entries(blocks[0].body, frames, section, h)],
                    blocks[1..], b, frames, section, h);
    }
  }

  /** The same for schedule tables: the last block for a name gives the whole table. */
  lemma {:induction false} LastTableWins(schedules: map<string, seq<ScheduleEntry>>, blocks: seq<Block>, name: string,
                                         frames: map<u8, Frame>, section: nat, h: Host)
    ensures var after, last := AddTables(schedules, blocks, frames, section, h), LastTable(blocks, name);
      && (name in after <==> last.Some? || name in schedules)
      && (name in after ==> after[name] == if last.Some? then Entries(last.value.body, frames, section, h)
        else schedules[name])
  {
    hide TableName, Entries;
    if |blocks| > 0 {
      var front, b := blocks[..|blocks| - 1], blocks[|blocks| - 1];
      assert blocks == front + [b];
      LastTableWins(schedules, front, name, frames, section, h);
      AddTablesSnoc(schedules, front, b, frames, section, h);
    }
  }

  // ---------------------------------------------------------------------------
  // Decoding
  // ---------------------------------------------------------------------------

  /** The reference that decides where a signal is read: the last one that names it. */
  function LastRef(refs: seq<SignalRef>, name: string): Option<SignalRef> {
    if |refs| == 0 then None
    else if refs[|refs| - 1].name == name then Some(refs[|refs| - 1])
    else LastRef(refs[..|refs| - 1], name)
  }

  lemma {:induction false} DecodedFields(refs: seq<SignalRef>, signals: map<string, Signal>, data: seq<u8>,
    name: string)
    ensures var result, last := Decoded(refs, signals, data), LastRef(refs, name);
      && (name in result <==> last.Some? && name in signals)
      && (name in result ==> result[name] == FieldValue(last.value, signals[name], data))
    decreases |refs|
  {
    hide FieldValue;
    if |refs| > 0 {
      DecodedFields(refs[..|refs| - 1], signals, data, name);
    }
  }

  /** How many bits of a signal are decoded. */
  function Decodable(s: Signal): nat {
    if s.bitWidth < 64 then s.bitWidth else 64
  }

  /** Exactly the referenced and declared signals are decoded, each to its bits of the payload at
      the last reference; that is a slice of the payload as a little-endian number, unless the
      position runs over the machine word. */
  lemma DecodedValues(refs: seq<SignalRef>, signals: map<string, Signal>, data: seq<u8>, name: string)
    ensures var result, last := Decoded(refs, signals, data), LastRef(refs, name);
      && (name in result <==> last.Some? && name in signals)
      && (name in result ==>
            var offset, n := last.value.bitOffset, Decodable(signals[name]);
            && ReadsField(result[name], data, offset, n)
            && (offset + n <= WORD ==> result[name] == LittleEndian(data) / Pow2(offset) % Pow2(n)))
  {
    hide ReadsField, Extracted, Pow2, LittleEndian;
    DecodedFields(refs, signals, data, name);
    if name in Decoded(refs, signals, data) {
      var offset, n := LastRef(refs, name).value.bitOffset, Decodable(signals[name]);
      ExtractedIsRead(data, offset, n);
      if offset + n <= WORD {
        ExtractedIsSlice(data, offset, n);
      }
    }
  }

  /** Two payloads agree on every bit that some decoded signal is read from. */
  ghost predicate SameFields(refs: seq<SignalRef>, signals: map<string, Signal>, data: seq<u8>, other: seq<u8>) {
    forall name | name in signals && LastRef(refs, name).Some? ::
      SameField(data, other, LastRef(refs, name).value.bitOffset, Min(signals[name].bitWidth, 64))
  }

  /** A payload decodes like another exactly when they agree on the bits of the signals: no bit
      outside them has any influence, and no bit inside them is ignored. */
  lemma DecodingReadsFields(refs: seq<SignalRef>, signals: map<string, Signal>, data: seq<u8>, other: seq<u8>)
    ensures Decoded(refs, signals, data) == Decoded(refs, signals, other) <==> SameFields(refs, signals, data, other)
  {
    forall name ensures (name in Decoded(refs, signals, data) <==> name in Decoded(refs, signals, other)) {
      DecodedFields(refs, signals, data, name);
      DecodedFields(refs, signals, other, name);
    }
    forall name | name in signals && LastRef(refs, name).Some?
      ensures name in Decoded(refs, signals, data) && name in Decoded(refs, signals, other)
      ensures Decoded(refs, signals, data)[name] == Decoded(refs, signals, other)[name]
         <==> SameField(data, other, LastRef(refs, name).value.bitOffset, Min(signals[name].bitWidth, 64))
    {
      DecodedFields(refs, signals, data, name);
      DecodedFields(refs, signals, other, name);
      ExtractionReadsField(data, other, LastRef(refs, name).value.bitOffset, Min(signals[name].bitWidth, 64));
    }
    forall name | name in Decoded(refs, signals, data) ensures name in signals && LastRef(refs, name).Some? {
      DecodedFields(refs, signals, data, name);
    }
  }
}
