/** The LIN description file parser: a cursor over cleaned lines that fills a database, and the
    signal decoding done with that database. */
module LdfParser {
  import opened Word
  import opened Wrappers
  import opened Text
  import opened LdfBits
  import LinFrame

  datatype SignalRef = SignalRef(name: string, bitOffset: usize)

  datatype Frame = Frame(name: string, id: u8, publisher: string, length: usize, signals: seq<SignalRef>)

  datatype Signal = Signal(name: string, bitWidth: usize, initValue: usize, publisher: string, subscribers: seq<string>)

  datatype ScheduleEntry = ScheduleEntry(id: u8, delayMs: u32)

  /** The contents of a database. The speed is kept as the text of its line. */
  datatype Tables = Tables(protocolVersion: string, languageVersion: string, speed: string, masterNode: string,
                           slaveNodes: seq<string>, frames: map<u8, Frame>, signals: map<string, Signal>,
                           schedules: map<string, seq<ScheduleEntry>>)

  const NOTHING := Tables([], [], [], [], [], map[], map[], map[])

  /** What the parser takes from its surroundings: how an unsigned number that may be written as a
      float is read, and in which order the hash map of the frames is walked in a given section. */
  datatype Host = Host(parseUint: string -> Option<usize>, order: (nat, map<u8, Frame>) -> seq<u8>)

  /** A walk over a map visits each of its keys, and nothing else, once. */
  ghost predicate Walks(order: seq<u8>, frames: map<u8, Frame>) {
    && (forall id :: id in order <==> id in frames)
    && (forall i, j | 0 <= i < j < |order| :: order[i] != order[j])
  }

  ghost predicate WalksMaps(h: Host) {
    forall section, frames :: Walks(h.order(section, frames), frames)
  }

  const UNKNOWN: u8 := 0xFF

  /** The first frame of a walk that has the name, or the unknown id. */
  function FirstNamed(order: seq<u8>, frames: map<u8, Frame>, name: string): u8 {
    if |order| == 0 then UNKNOWN
    else if order[0] in frames && frames[order[0]].name == name then order[0]
    else FirstNamed(order[1..], frames, name)
  }

  /** A lookup by name yields a frame with that name, or the unknown id when there is none. */
  predicate Finds(frames: map<u8, Frame>, name: string, id: u8) {
    || (id in frames && frames[id].name == name)
    || (id == UNKNOWN && forall k | k in frames :: frames[k].name != name)
  }

  lemma {:induction false} FirstNamedFinds(order: seq<u8>, frames: map<u8, Frame>, name: string)
    requires forall id | id in order :: id in frames
    ensures var id := FirstNamed(order, frames, name);
      || (id in order && frames[id].name == name)
      || (id == UNKNOWN && forall k | k in order :: frames[k].name != name)
  {
    if |order| > 0 {
      assert order[0] in order;
      if frames[order[0]].name != name {
        FirstNamedFinds(order[1..], frames, name);
        assert order == [order[0]] + order[1..];
      }
    }
  }

  /** The lookup is right whatever the order of the walk. */
  lemma LookupFinds(order: seq<u8>, frames: map<u8, Frame>, name: string)
    requires Walks(order, frames)
    ensures Finds(frames, name, FirstNamed(order, frames, name))
  {
    FirstNamedFinds(order, frames, name);
  }

  method FrameIdByName(order: seq<u8>, frames: map<u8, Frame>, name: string) returns (id: u8)
    requires Walks(order, frames)
    ensures id == FirstNamed(order, frames, name) && Finds(frames, name, id)
  {
    LookupFinds(order, frames, name);
    for i := 0 to |order|
      invariant FirstNamed(order, frames, name) == FirstNamed(order[i..], frames, name)
    {
      assert order[i] in order;
      assert order[i..][1..] == order[i + 1..];
      if frames[order[i]].name == name {
        return order[i];
      }
    }
    id := UNKNOWN;
  }

  // ---------------------------------------------------------------------------
  // Lines
  // ---------------------------------------------------------------------------

  const WORD_MIN_NEGATED := 0x8000_0000_0000_0000

  /** A decimal or hexadecimal 64-bit integer. */
  function ParseInt(s: string): Option<int> {
    var t := Trim(TrimEndOf(s, ';'));
    if "0x" <= t || "0X" <= t then ParseSigned(t[2..], 16, WORD_MIN_NEGATED) else ParseSigned(t, 10, WORD_MIN_NEGATED)
  }

  /** `as usize`, with zero for text that is not a number. */
  function ToUsize(v: Option<int>): usize {
    match v case None => 0 case Some(n) => n % WORD
  }

  function ToU8(n: int): u8 {
    n % 0x100
  }

  /** The text between the first two quotes. */
  function Quoted(line: string): string {
    match Find(line, '"')
    case None => []
    case Some(i) =>
      var rest := line[i + 1..];
      match Find(rest, '"')
      case None => []
      case Some(e) => rest[..e]
  }

  function MasterOf(line: string): string {
    Trim(TrimEndOf(Trim(Split(Trim(TrimStartOf(line, "Master:")), ',')[0]), ';'))
  }

  function SlavesOf(line: string): seq<string> {
    Names(Split(TrimEndOf(Trim(TrimStartOf(line, "Slaves:")), ';'), ','))
  }

  function Statement(line: string): string {
    Trim(TrimEndOf(line, ';'))
  }

  function SignalOf(line: string, h: Host): Option<Signal> {
    var s := Statement(line);
    match Find(s, ':')
    case None => None
    case Some(colon) =>
      var parts := SplitN(Trim(s[colon + 1..]), 4, ',');
      if |parts| < 3 then None
      else
        var init := h.parseUint(Trim(parts[1]));
        Some(Signal(Trim(s[..colon]), ToUsize(ParseInt(Trim(parts[0]))), if init.None? then 0 else init.value,
                    Trim(parts[2]), if |parts| > 3 then Names(Split(parts[3], ',')) else []))
  }

  function FrameHeader(line: string): Option<Frame> {
    var s := Trim(TrimEndOf(line, '{'));
    match Find(s, ':')
    case None => None
    case Some(colon) =>
      var parts := Split(Trim(s[colon + 1..]), ',');
      if |parts| < 3 then None
      else
        match ParseInt(Trim(parts[0]))
        case None => None
        case Some(id) => Some(Frame(Trim(s[..colon]), ToU8(id), Trim(parts[1]), ToUsize(ParseInt(Trim(parts[2]))), []))
  }

  function RefOf(line: string): Option<SignalRef> {
    var parts := SplitN(Statement(line), 2, ',');
    if |parts| == 2 then Some(SignalRef(Trim(parts[0]), ToUsize(ParseInt(Trim(parts[1]))))) else None
  }

  datatype Delay = Delay(name: string, ms: u32)

  function DelayOf(line: string, h: Host): Option<Delay> {
    var s := Statement(line);
    if "AssignFrameId" <= s then None
    else
      var parts := Words(s);
      if |parts| >= 3 && EqIgnoreAsciiCase(parts[1], "delay") then
        var ms := h.parseUint(parts[2]);
        Some(Delay(parts[0], if ms.None? then 0 else ms.value % 0x1_0000_0000))
      else None
  }

  predicate OpensFrame(line: string) {
    '{' in line && FrameHeader(line).Some?
  }

  predicate OpensTable(line: string) {
    |line| > 0 && line[|line| - 1] == '{'
  }

  function TableName(line: string): string {
    Trim(TrimEndOf(line, '{'))
  }

  // ---------------------------------------------------------------------------
  // Sections, as functions of the lines that are left
  // ---------------------------------------------------------------------------

  /** The lines up to the first closing brace. */
  function Body(t: seq<string>): seq<string> {
    if |t| == 0 || t[0] == "}" then [] else [t[0]] + Body(t[1..])
  }

  /** The lines after the first closing brace. */
  function After(t: seq<string>): (r: seq<string>)
    ensures |r| <= |t|
  {
    if |t| == 0 then [] else if t[0] == "}" then t[1..] else After(t[1..])
  }

  /** An opening brace on a line of its own is skipped. */
  function Opened(t: seq<string>): (r: seq<string>)
    ensures |r| <= |t|
  {
    if |t| > 0 && "{" <= t[0] then t[1..] else t
  }

  datatype Block = Block(header: string, body: seq<string>)

  /** The blocks of a section whose header lines are those that satisfy opens. */
  function Blocks(t: seq<string>, opens: string -> bool): seq<Block>
    decreases |t|
  {
    if |t| == 0 || t[0] == "}" then []
    else if opens(t[0]) then [Block(t[0], Body(t[1..]))] + Blocks(After(t[1..]), opens)
    else Blocks(t[1..], opens)
  }

  /** The lines after the brace that closes such a section. */
  function AfterBlocks(t: seq<string>, opens: string -> bool): (r: seq<string>)
    ensures |r| <= |t|
    decreases |t|
  {
    if |t| == 0 then []
    else if t[0] == "}" then t[1..]
    else if opens(t[0]) then AfterBlocks(After(t[1..]), opens)
    else AfterBlocks(t[1..], opens)
  }

  function ReadNode(d: Tables, line: string): Tables {
    if "Master:" <= line then d.(masterNode := MasterOf(line))
    else if "Slaves:" <= line then d.(slaveNodes := d.slaveNodes + SlavesOf(line))
    else d
  }

  function ReadNodes(d: Tables, body: seq<string>): Tables
    decreases |body|
  {
    if |body| == 0 then d else ReadNodes(ReadNode(d, body[0]), body[1..])
  }

  function Declare(signals: map<string, Signal>, body: seq<string>, h: Host): map<string, Signal>
    decreases |body|
  {
    if |body| == 0 then signals
    else
      match SignalOf(body[0], h)
      case None => Declare(signals, body[1..], h)
      case Some(s) => Declare(signals[s.name := s], body[1..], h)
  }

  function RefsIn(line: string): seq<SignalRef> {
    match RefOf(line) case None => [] case Some(r) => [r]
  }

  function Refs(body: seq<string>): seq<SignalRef> {
    if |body| == 0 then [] else RefsIn(body[0]) + Refs(body[1..])
  }

  function FrameOf(b: Block): (f: Frame)
    requires OpensFrame(b.header)
  {
    FrameHeader(b.header).value.(signals := Refs(b.body))
  }

  function AddFrames(frames: map<u8, Frame>, blocks: seq<Block>): map<u8, Frame>
    requires forall b | b in blocks :: OpensFrame(b.header)
    decreases |blocks|
  {
    if |blocks| == 0 then frames
    else
      var f := FrameOf(blocks[0]);
      AddFrames(frames[f.id := f], blocks[1..])
  }

  /** A delay line counts when its frame is known and has an id the bus accepts. */
  function EntryOf(line: string, frames: map<u8, Frame>, section: nat, h: Host): seq<ScheduleEntry> {
    match DelayOf(line, h)
    case None => []
    case Some(d) =>
      var id := FirstNamed(h.order(section, frames), frames, d.name);
      if id <= LinFrame.LIN_MAX_ID then [ScheduleEntry(id, d.ms)] else []
  }

  function Entries(body: seq<string>, frames: map<u8, Frame>, section: nat, h: Host): seq<ScheduleEntry> {
    if |body| == 0 then [] else EntryOf(body[0], frames, section, h) + Entries(body[1..], frames, section, h)
  }

  function AddTables(schedules: map<string, seq<ScheduleEntry>>, blocks: seq<Block>, frames: map<u8, Frame>,
                     section: nat, h: Host): map<string, seq<ScheduleEntry>>
    decreases |blocks|
  {
    if |blocks| == 0 then schedules
    else AddTables(schedules[TableName(blocks[0].header) := Entries(blocks[0].body, frames, section, h)],
                   blocks[1..], frames, section, h)
  }

  lemma {:induction false} BlocksOpen(t: seq<string>, opens: string -> bool)
    ensures forall b | b in Blocks(t, opens) :: opens(b.header)
    decreases |t|
  {
    if |t| > 0 && t[0] != "}" {
      if opens(t[0]) {
        BlocksOpen(After(t[1..]), opens);
      } else {
        BlocksOpen(t[1..], opens);
      }
    }
  }

  /** A Frames section whose lines start at b. */
  function ReadFrames(frames: map<u8, Frame>, b: seq<string>): map<u8, Frame> {
    BlocksOpen(b, OpensFrame);
    AddFrames(frames, Blocks(b, OpensFrame))
  }

  /** One line of the file, with the section it starts: what it adds and the lines after it. */
  function ReadSection(d: Tables, line: string, rest: seq<string>, h: Host): (r: (Tables, seq<string>))
    ensures |r.1| <= |rest|
  {
    var b := Opened(rest);
    if "LIN_protocol_version" <= line then (d.(protocolVersion := Quoted(line)), rest)
    else if "LIN_language_version" <= line then (d.(languageVersion := Quoted(line)), rest)
    else if "LIN_speed" <= line then (d.(speed := line), rest)
    else if "Nodes" <= line then (ReadNodes(d, Body(b)), After(b))
    else if "Signals" <= line then (d.(signals := Declare(d.signals, Body(b), h)), After(b))
    else if "Frames" <= line then (d.(frames := ReadFrames(d.frames, b)), AfterBlocks(b, OpensFrame))
    else if "Schedule_tables" <= line then
      (d.(schedules := AddTables(d.schedules, Blocks(b, OpensTable), d.frames, |b|, h)), AfterBlocks(b, OpensTable))
    else (d, rest)
  }

  /** The whole file: every section adds to what the earlier ones left. */
  function ReadAll(d: Tables, t: seq<string>, h: Host): Tables
    decreases |t|
  {
    if |t| == 0 then d
    else
      var (e, rest) := ReadSection(d, t[0], t[1..], h);
      ReadAll(e, rest, h)
  }

  /** The values of the referenced signals that are declared; a later reference replaces an
      earlier one to the same signal. */
  function Decoded(refs: seq<SignalRef>, signals: map<string, Signal>, data: seq<u8>): map<string, nat>
    decreases |refs|
  {
    if |refs| == 0 then map[]
    else
      var before, r := Decoded(refs[..|refs| - 1], signals, data), refs[|refs| - 1];
      if r.name in signals then before[r.name := FieldValue(r, signals[r.name], data)] else before
  }

  function FieldValue(r: SignalRef, s: Signal, data: seq<u8>): nat {
    Extracted(data, r.bitOffset, Min(s.bitWidth, 64))
  }

  /** Comments and surrounding white space removed, empty lines dropped. */
  function Cleaned(raw: seq<string>): seq<string> {
    if |raw| == 0 then []
    else
      var line := Trim(BeforeComment(raw[|raw| - 1]));
      Cleaned(raw[..|raw| - 1]) + if line == [] then [] else [line]
  }

  // ---------------------------------------------------------------------------
  // The database and the parser
  // ---------------------------------------------------------------------------

  class Db {
    var protocolVersion: string
    var languageVersion: string
    var speed: string
    var masterNode: string
    var slaveNodes: seq<string>
    var frames: map<u8, Frame>
    var signals: map<string, Signal>
    var schedules: map<string, seq<ScheduleEntry>>

    constructor ()
      ensures Contents() == NOTHING
    {
      protocolVersion, languageVersion, speed, masterNode, slaveNodes := [], [], [], [], [];
      frames, signals, schedules := map[], map[], map[];
    }

    function Contents(): Tables
      reads this
    {
      Tables(protocolVersion, languageVersion, speed, masterNode, slaveNodes, frames, signals, schedules)
    }

    /** The value of every declared signal of a frame. */
    method Decode(id: u8, data: seq<u8>) returns (r: Option<map<string, nat>>)
      ensures r == if id in frames then Some(Decoded(frames[id].signals, signals, data)) else None
    {
      if id !in frames {
        return None;
      }
      var refs := frames[id].signals;
      var result: map<string, nat> := map[];
      for i := 0 to |refs|
        invariant result == Decoded(refs[..i], signals, data)
      {
        assert refs[..i + 1][..i] == refs[..i];
        if refs[i].name in signals {
          var value := ExtractBits(data, refs[i].bitOffset, signals[refs[i].name].bitWidth);
          result := result[refs[i].name := value];
        }
      }
      assert refs[..|refs|] == refs;
      r := Some(result);
    }
  }

  method Parse(raw: seq<string>, h: Host) returns (db: Db)
    requires WalksMaps(h)
    ensures fresh(db) && db.Contents() == ReadAll(NOTHING, Cleaned(raw), h)
  {
    hide ReadAll;
    var lines: seq<string> := [];
    for i := 0 to |raw|
      invariant lines == Cleaned(raw[..i])
    {
      assert raw[..i + 1][..i] == raw[..i];
      var line := Trim(BeforeComment(raw[i]));
      if line != [] {
        lines := lines + [line];
      }
    }
    assert raw[..|raw|] == raw;
    var parser := new LdfParser(lines, h);
    db := new Db();
    parser.ParseTop(db);
  }

  class LdfParser {
    const lines: seq<string>
    const host: Host
    var pos: nat

    constructor (lines: seq<string>, host: Host)
      ensures this.lines == lines && this.host == host && pos == 0
    {
      this.lines, this.host, pos := lines, host, 0;
    }

    /** The lines from the cursor on. */
    ghost function Left(): seq<string>
      requires pos <= |lines|
      reads this
    {
      lines[pos..]
    }

    function Peek(): (line: string)
      reads this
      ensures pos < |lines| ==> line == Left()[0]
    {
      if pos < |lines| then lines[pos] else []
    }

    method Next() returns (line: string)
      modifies this`pos
      ensures line == old(Peek())
      ensures pos == old(pos) + 1
      ensures old(pos) < |lines| ==> Left() == old(Left())[1..]
    {
      line := Peek();
      pos := pos + 1;
    }

    /** Skip an opening brace on a line of its own. */
    method Open()
      requires pos <= |lines|
      modifies this`pos
      ensures pos <= |lines| && Left() == Opened(old(Left()))
    {
      if "{" <= Peek() {
        var _ := Next();
      }
    }

    method ParseTop(db: Db)
      requires pos <= |lines| && WalksMaps(host)
      modifies this`pos, db
      ensures pos == |lines|
      ensures db.Contents() == ReadAll(old(db.Contents()), old(Left()), host)
    {
      hide ReadSection;
      while pos < |lines|
        invariant pos <= |lines|
        invariant ReadAll(db.Contents(), Left(), host) == ReadAll(old(db.Contents()), old(Left()), host)
        decreases |lines| - pos
      {
        ParseSection(db);
      }
    }

    /** One turn of the top-level loop. */
    method ParseSection(db: Db)
      requires pos < |lines| && WalksMaps(host)
      modifies this`pos, db
      ensures old(pos) < pos <= |lines|
      ensures (db.Contents(), Left()) == ReadSection(old(db.Contents()), old(Peek()), old(Left())[1..], host)
    {
      hide ReadNodes, Declare, ReadFrames, AddTables, Quoted, Body, After, AfterBlocks, Opened, Blocks;
      var line := Peek();
      var _ := Next();
      if "LIN_protocol_version" <= line {
        db.protocolVersion := Quoted(line);
      } else if "LIN_language_version" <= line {
        db.languageVersion := Quoted(line);
      } else if "LIN_speed" <= line {
        db.speed := line;
      } else if "Nodes" <= line {
        ParseNodes(db);
      } else if "Signals" <= line {
        ParseSignals(db);
      } else if "Frames" <= line {
        ParseFrames(db);
      } else if "Schedule_tables" <= line {
        ParseScheduleTables(db);
      }
    }

    method ParseNodes(db: Db)
      requires pos <= |lines|
      modifies this`pos, db`masterNode, db`slaveNodes
      ensures pos <= |lines| && Left() == After(Opened(old(Left())))
      ensures db.Contents() == ReadNodes(old(db.Contents()), Body(Opened(old(Left()))))
    {
      hide MasterOf, SlavesOf, Opened;
      Open();
      ghost var b := Left();
      while pos < |lines|
        invariant pos <= |lines|
        invariant After(Left()) == After(b)
        invariant ReadNodes(db.Contents(), Body(Left())) == ReadNodes(old(db.Contents()), Body(b))
        decreases |lines| - pos
      {
        var line := Peek();
        if line == "}" {
          var _ := Next();
          return;
        }
        var _ := Next();
        if "Master:" <= line {
          db.masterNode := MasterOf(line);
        } else if "Slaves:" <= line {
          db.slaveNodes := db.slaveNodes + SlavesOf(line);
        }
      }
    }

    method ParseSignals(db: Db)
      requires pos <= |lines|
      modifies this`pos, db`signals
      ensures pos <= |lines| && Left() == After(Opened(old(Left())))
      ensures db.signals == Declare(old(db.signals), Body(Opened(old(Left()))), host)
    {
      hide SignalOf, Opened;
      Open();
      ghost var b := Left();
      while pos < |lines|
        invariant pos <= |lines|
        invariant After(Left()) == After(b)
        invariant Declare(db.signals, Body(Left()), host) == Declare(old(db.signals), Body(b), host)
        decreases |lines| - pos
      {
        var line := Peek();
        if line == "}" {
          var _ := Next();
          return;
        }
        var _ := Next();
        var signal := SignalOf(line, host);
        if signal.None? {
          continue;
        }
        db.signals := db.signals[signal.value.name := signal.value];
      }
    }

    method ParseFrames(db: Db)
      requires pos <= |lines|
      modifies this`pos, db`frames
      ensures pos <= |lines| && Left() == AfterBlocks(Opened(old(Left())), OpensFrame)
      ensures db.frames == ReadFrames(old(db.frames), Opened(old(Left())))
    {
      hide FrameHeader, Opened, Body, After, Refs;
      Open();
      ghost var b := Left();
      while pos < |lines|
        invariant pos <= |lines|
        invariant AfterBlocks(Left(), OpensFrame) == AfterBlocks(b, OpensFrame)
        invariant ReadFrames(db.frames, Left()) == ReadFrames(old(db.frames), b)
        decreases |lines| - pos
      {
        var line := Peek();
        if line == "}" {
          var _ := Next();
          return;
        }
        NextFrame(db.frames, Left());
        if '{' in line {
          var _ := Next();
          var header := FrameHeader(line);
          if header.None? {
            continue;
          }
          var signals := ParseRefs();
          var frame := header.value.(signals := signals);
          db.frames := db.frames[frame.id := frame];
        } else {
          var _ := Next();
        }
      }
    }

    /** The lines of one frame up to its closing brace. */
    method ParseRefs() returns (signals: seq<SignalRef>)
      requires pos <= |lines|
      modifies this`pos
      ensures pos <= |lines| && Left() == After(old(Left()))
      ensures signals == Refs(Body(old(Left())))
    {
      assert Refs(Body([])) == [] && After([]) == [];
      hide Refs, RefOf, Body, After;
      signals := [];
      while pos < |lines|
        invariant pos <= |lines|
        invariant After(Left()) == After(old(Left()))
        invariant signals + Refs(Body(Left())) == Refs(Body(old(Left())))
        decreases |lines| - pos
      {
        ghost var before, more := signals, Left()[1..];
        NextRef(Left());
        var inner := Peek();
        var _ := Next();
        if inner == "}" {
          break;
        }
        var r := RefOf(inner);
        if r.Some? {
          signals := signals + [r.value];
        }
        assert signals == before + RefsIn(inner);
        Joined(before, RefsIn(inner), Refs(Body(more)));
        hide RefsIn;
      }
    }

    method ParseScheduleTables(db: Db)
      requires pos <= |lines| && WalksMaps(host)
      modifies this`pos, db`schedules
      ensures pos <= |lines| && Left() == AfterBlocks(Opened(old(Left())), OpensTable)
      ensures var b := Opened(old(Left()));
        db.schedules == AddTables(old(db.schedules), Blocks(b, OpensTable), db.frames, |b|, host)
    {
      hide Opened, Body, After, Entries, TableName;
      Open();
      var section := |lines| - pos;
      ghost var b := Left();
      while pos < |lines|
        invariant pos <= |lines|
        invariant AfterBlocks(Left(), OpensTable) == AfterBlocks(b, OpensTable)
        invariant AddTables(db.schedules, Blocks(Left(), OpensTable), db.frames, section, host)
          == AddTables(old(db.schedules), Blocks(b, OpensTable), db.frames, section, host)
        decreases |lines| - pos
      {
        var line := Peek();
        if line == "}" {
          var _ := Next();
          return;
        }
        var _ := Next();
        if |line| > 0 && line[|line| - 1] == '{' {
          var tableName := TableName(line);
          var entries := ParseEntries(db, section);
          db.schedules := db.schedules[tableName := entries];
        }
      }
    }

    /** The entry of one line, if it is a delay line for a known frame. */
    method ParseEntry(line: string, frames: map<u8, Frame>, section: nat) returns (entry: seq<ScheduleEntry>)
      requires WalksMaps(host)
      ensures entry == EntryOf(line, frames, section, host)
    {
      hide FirstNamed;
      var d := DelayOf(line, host);
      if d.None? {
        return [];
      }
      var id := FrameIdByName(host.order(section, frames), frames, d.value.name);
      if id <= LinFrame.LIN_MAX_ID {
        return [ScheduleEntry(id, d.value.ms)];
      }
      entry := [];
    }

    /** The lines of one schedule table up to its closing brace. */
    method ParseEntries(db: Db, section: nat) returns (entries: seq<ScheduleEntry>)
      requires pos <= |lines| && WalksMaps(host)
      modifies this`pos
      ensures pos <= |lines| && Left() == After(old(Left()))
      ensures entries == Entries(Body(old(Left())), db.frames, section, host)
    {
      assert Entries(Body([]), db.frames, section, host) == [] && After([]) == [];
      hide EntryOf, Entries, Body, After;
      var frames := db.frames;
      entries := [];
      while pos < |lines|
        invariant pos <= |lines|
        invariant After(Left()) == After(old(Left()))
        invariant entries + Entries(Body(Left()), frames, section, host)
          == Entries(Body(old(Left())), frames, section, host)
        decreases |lines| - pos
      {
        ghost var before, more := entries, Left()[1..];
        NextEntry(Left(), frames, section, host);
        var inner := Peek();
        var _ := Next();
        if inner == "}" {
          break;
        }
        var entry := ParseEntry(inner, frames, section);
        entries := entries + entry;
        Joined(before, EntryOf(inner, frames, section, host), Entries(Body(more), frames, section, host));
      }
    }
  }

  lemma NextFrame(frames: map<u8, Frame>, t: seq<string>)
    requires |t| > 0 && t[0] != "}"
    ensures if OpensFrame(t[0]) then
              var f := FrameOf(Block(t[0], Body(t[1..])));
              ReadFrames(frames, t) == ReadFrames(frames[f.id := f], After(t[1..]))
            else ReadFrames(frames, t) == ReadFrames(frames, t[1..])
  {
    BlocksOpen(t, OpensFrame);
    hide FrameOf;
  }

  lemma Joined<T>(a: seq<T>, b: seq<T>, c: seq<T>)
    ensures (a + b) + c == a + (b + c)
  {}

  lemma NextRef(t: seq<string>)
    requires |t| > 0
    ensures After(t) == if t[0] == "}" then t[1..] else After(t[1..])
    ensures Refs(Body(t))
      == if t[0] == "}" then []
         else RefsIn(t[0]) + Refs(Body(t[1..]))
  {
    hide RefsIn;
  }

  lemma NextEntry(t: seq<string>, frames: map<u8, Frame>, section: nat, h: Host)
    requires |t| > 0
    ensures After(t) == if t[0] == "}" then t[1..] else After(t[1..])
    ensures Entries(Body(t), frames, section, h)
      == if t[0] == "}" then [] else EntryOf(t[0], frames, section, h) + Entries(Body(t[1..]), frames, section, h)
  {
    hide EntryOf;
  }
}
