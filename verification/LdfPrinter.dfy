/** A reference printer for LIN descriptions, and the proof that the parser reads back every
    description it prints. */
module LdfPrinter {
  import opened Word
  import opened Wrappers
  import opened Text
  import opened TextLaws
  import opened LdfParser
  import opened LdfLayout
  import LinFrame

  /** A signal with the text its initial value is written as. */
  datatype Declaration = Declaration(signal: Signal, init: string)

  /** A schedule slot: a frame, and its delay with the text it is written as. */
  datatype Slot = Slot(frame: Frame, delay: string, ms: u32)

  datatype Table = Table(name: string, slots: seq<Slot>)

  datatype Description = Description(protocolVersion: string, languageVersion: string, speed: string, master: string,
                                     slaves: seq<string>, declarations: seq<Declaration>, frames: seq<Frame>,
                                     tables: seq<Table>)

  // ---------------------------------------------------------------------------
  // Printing
  // ---------------------------------------------------------------------------

  function SignalLine(name: string, width: string, init: string, nodes: seq<string>): string
    requires |nodes| > 0
  {
    Sep(name, ':', Indented(Sep(width, ',', Indented(Sep(init, ',', Indented(Listed(nodes)))))))
  }

  function SignalText(d: Declaration): string {
    var s := d.signal;
    SignalLine(s.name, Decimal(s.bitWidth), d.init, [s.publisher] + s.subscribers)
  }

  /** A frame declared under the given number, which need not fit its id, with the given length. */
  function FrameText(f: Frame, number: string, length: string): string {
    Sep(f.name, ':', Indented(Sep(number, ',', Indented(Sep(f.publisher, ',', Indented(length))))))
  }

  /** The frame under its own id. */
  function OwnText(f: Frame): string {
    FrameText(f, Decimal(f.id), Decimal(f.length))
  }

  function RefLine(name: string, offset: string): string {
    Sep(name, ',', Indented(offset))
  }

  function RefText(r: SignalRef): string {
    RefLine(r.name, Decimal(r.bitOffset))
  }

  function SlotLine(name: string, keyword: string, delay: string): string {
    Sep(name, ' ', Sep(keyword, ' ', Sep(delay, ' ', "ms")))
  }

  function SlotText(s: Slot): string {
    SlotLine(s.frame.name, "delay", s.delay)
  }

  function Ended(text: string): string {
    text + [';']
  }

  function Header(text: string): string {
    text + [' '] + ['{']
  }

  function SignalLines(declarations: seq<Declaration>): seq<string> {
    if |declarations| == 0 then [] else [Ended(SignalText(declarations[0]))] + SignalLines(declarations[1..])
  }

  function RefLines(refs: seq<SignalRef>): seq<string> {
    if |refs| == 0 then [] else [Ended(RefText(refs[0]))] + RefLines(refs[1..])
  }

  function SlotLines(slots: seq<Slot>): seq<string> {
    if |slots| == 0 then [] else [Ended(SlotText(slots[0]))] + SlotLines(slots[1..])
  }

  /** A header, the lines it governs, a closing brace, and whatever follows. */
  function Section(header: string, lines: seq<string>, rest: seq<string>): seq<string> {
    [header] + Closed(lines, rest)
  }

  function Closed(lines: seq<string>, rest: seq<string>): seq<string> {
    lines + (["}"] + rest)
  }

  function FrameLines(frames: seq<Frame>, rest: seq<string>): seq<string> {
    if |frames| == 0 then ["}"] + rest
    else Section(Header(OwnText(frames[0])), RefLines(frames[0].signals),
                 FrameLines(frames[1..], rest))
  }

  function TableLines(tables: seq<Table>, rest: seq<string>): seq<string> {
    if |tables| == 0 then ["}"] + rest
    else Section(Header(tables[0].name), SlotLines(tables[0].slots), TableLines(tables[1..], rest))
  }

  function VersionLine(key: string, version: string): string {
    Sep(key + " = ", '"', Sep(version, '"', ";"))
  }

  function NodeLines(master: string, slaves: seq<string>): seq<string>
    requires |slaves| > 0
  {
    ["Master:" + Indented(Sep(master, ',', " 5 ms, 0.1 ms;")), "Slaves:" + Indented(Ended(Listed(slaves)))]
  }

  function Print(d: Description): seq<string>
    requires |d.slaves| > 0
  {
    [VersionLine("LIN_protocol_version", d.protocolVersion)] + ([VersionLine("LIN_language_version", d.languageVersion)]
      + ([d.speed] + Section("Nodes {", NodeLines(d.master, d.slaves), Section("Signals {", SignalLines(d.declarations),
      ["Frames {"] + FrameLines(d.frames, ["Schedule_tables {"] + TableLines(d.tables, []))))))
  }

  // ---------------------------------------------------------------------------
  // What can be printed
  // ---------------------------------------------------------------------------

  /** Names are identifiers; numbers fit the signed words they are read as. */
  ghost predicate GoodDeclaration(d: Declaration, h: Host) {
    && Ident(d.signal.name) && Ident(d.signal.publisher) && (forall x | x in d.signal.subscribers :: Ident(x))
    && d.signal.bitWidth < WORD_MIN_NEGATED
    && Ident(d.init) && h.parseUint(d.init) == Some(d.signal.initValue)
  }

  predicate GoodRef(r: SignalRef) {
    Ident(r.name) && r.bitOffset < WORD_MIN_NEGATED
  }

  predicate GoodFrame(f: Frame) {
    && Ident(f.name) && Ident(f.publisher) && f.length < WORD_MIN_NEGATED
    && forall r | r in f.signals :: GoodRef(r)
  }

  ghost predicate GoodSlot(s: Slot, frames: seq<Frame>, h: Host) {
    s.frame in frames && Ident(s.delay) && h.parseUint(s.delay) == Some(s.ms)
  }

  ghost predicate GoodTable(t: Table, frames: seq<Frame>, h: Host) {
    Ident(t.name) && forall s | s in t.slots :: GoodSlot(s, frames, h)
  }

  /** No two frames share a name or an id. */
  predicate Unambiguous(frames: seq<Frame>) {
    forall f, g | f in frames && g in frames :: f.name == g.name || f.id == g.id ==> f == g
  }

  /** Texts that are printed as they are hold nothing the reader would cut away. */
  ghost predicate Good(d: Description, h: Host) {
    && '"' !in d.protocolVersion && NoComment(d.protocolVersion)
    && '"' !in d.languageVersion && NoComment(d.languageVersion)
    && "LIN_speed" <= d.speed && Tight(d.speed) && NoComment(d.speed)
    && Ident(d.master) && |d.slaves| > 0 && (forall x | x in d.slaves :: Ident(x))
    && (forall x | x in d.declarations :: GoodDeclaration(x, h))
    && (forall f | f in d.frames :: GoodFrame(f)) && Unambiguous(d.frames)
    && (forall t | t in d.tables :: GoodTable(t, d.frames, h))
  }

  // ---------------------------------------------------------------------------
  // What a description means
  // ---------------------------------------------------------------------------

  function Declared(signals: map<string, Signal>, declarations: seq<Declaration>): map<string, Signal>
    decreases |declarations|
  {
    if |declarations| == 0 then signals
    else Declared(signals[declarations[0].signal.name := declarations[0].signal], declarations[1..])
  }

  function Filed(frames: map<u8, Frame>, fs: seq<Frame>): map<u8, Frame>
    decreases |fs|
  {
    if |fs| == 0 then frames else Filed(frames[fs[0].id := fs[0]], fs[1..])
  }

  const COMMAND := "AssignFrameId"

  /** A slot is kept unless its frame has an id no bus accepts, or a name that starts like the
      diagnostic command the parser skips. */
  function SlotEntry(s: Slot): seq<ScheduleEntry> {
    if s.frame.id > LinFrame.LIN_MAX_ID || COMMAND <= s.frame.name then [] else [ScheduleEntry(s.frame.id, s.ms)]
  }

  function Slots(slots: seq<Slot>): seq<ScheduleEntry> {
    if |slots| == 0 then [] else SlotEntry(slots[0]) + Slots(slots[1..])
  }

  function Scheduled(schedules: map<string, seq<ScheduleEntry>>, tables: seq<Table>): map<string, seq<ScheduleEntry>>
    decreases |tables|
  {
    if |tables| == 0 then schedules else Scheduled(schedules[tables[0].name := Slots(tables[0].slots)], tables[1..])
  }

  function Meaning(d: Description): Tables {
    Tables(d.protocolVersion, d.languageVersion, d.speed, d.master, d.slaves,
           Filed(map[], d.frames), Declared(map[], d.declarations), Scheduled(map[], d.tables))
  }

  // ---------------------------------------------------------------------------
  // Lines read back
  // ---------------------------------------------------------------------------

  /** A number in decimal, with a minus sign when it is negative. */
  function IntText(n: int): string {
    if n < 0 then ['-'] + Decimal(0 - n) else Decimal(n)
  }

  /** What can stand where a header has its number: nothing to trim and no comma. */
  predicate Numeral(s: string) {
    Tight(s) && ',' !in s
  }

  lemma IntReadsBack(n: int)
    ensures Numeral(IntText(n))
    ensures ParseInt(IntText(n)) == if -0x8000_0000_0000_0000 <= n < 0x8000_0000_0000_0000 then Some(n) else None
  {
    hide Trim, Decimal, Ident, TrimEndOf, Magnitude, ParseSigned, ParseUnsigned;
    var s, m := IntText(n), if n < 0 then 0 - n else n;
    DecimalIdent(m);
    IdentFacts(Decimal(m));
    DecimalIsDigits(m);
    TrimTight(s);
    assert s[|s| - 1] == Decimal(m)[|Decimal(m)| - 1] && s[|s| - 1] in Decimal(m);
    CutLast(s, ';');
    assert |s| >= 2 ==> s[1] in Decimal(m);
    ParsePrinted(m, WORD_MIN_NEGATED);
  }

  /** The same for hexadecimal digits in any mixture of cases behind 0x or 0X. */
  lemma HexTextReadsBack(prefix: string, digits: string, n: nat)
    requires (prefix == "0x" || prefix == "0X") && EqIgnoreAsciiCase(digits, Hex(n))
    ensures Numeral(prefix + digits)
    ensures ParseInt(prefix + digits) == if n < 0x8000_0000_0000_0000 then Some(n) else None
  {
    hide Trim, Hex, TrimEndOf, Magnitude, ParseSigned, ParseUnsigned, EqIgnoreAsciiCase;
    var s := prefix + digits;
    ParsePrintedHex(n, digits, WORD_MIN_NEGATED);
    SameLength(digits, Hex(n));
    assert s[|s| - 1] == digits[|digits| - 1] && s[|s| - 1] in digits;
    TrimTight(s);
    CutLast(s, ';');
    assert s[2..] == digits && s[..2] == prefix;
  }

  lemma SameLength(s: string, t: string)
    requires EqIgnoreAsciiCase(s, t)
    ensures |s| == |t|
  {}

  /** A text that starts and ends like a name. */
  predicate Framed(s: string) {
    |s| > 0 && IsIdChar(s[0]) && IsIdChar(s[|s| - 1])
  }

  lemma IdentFramed(s: string)
    requires Ident(s)
    ensures Framed(s)
  {
    assert s[0] in s && s[|s| - 1] in s;
  }

  lemma SepFramed(a: string, c: char, b: string)
    requires Ident(a) && Framed(b)
    ensures Framed(Sep(a, c, Indented(b))) && Framed(Sep(a, c, b))
  {
    assert a[0] in a;
  }

  lemma StatementReadsBack(s: string)
    requires Framed(s)
    ensures Statement(Ended(s)) == s && Trim(s) == s && Trim(Indented(s)) == s
    ensures Trim(TrimEndOf(Header(s), '{')) == s && '{' in Header(s)
  {
    CutLast(s, ';');
    TrimTight(s);
    TrimTrailing(s);
    CutLast(s + [' '], '{');
  }

  lemma SignalParts(width: string, init: string, publisher: string, subscribers: seq<string>)
    requires Numeral(width) && Numeral(init) && Ident(publisher) && forall x | x in subscribers :: Ident(x)
    ensures var names := Listed([publisher] + subscribers);
      && Framed(names)
      && SplitN(Sep(width, ',', Indented(Sep(init, ',', Indented(names)))), 4, ',')
        == [width, Indented(init), Indented(publisher)] + if subscribers == [] then []
          else [Indented(Listed(subscribers))]
  {
    hide Trim, Split, SplitN, Find, Sep, Indented, Ident, IsIdChar, Tight;
    var all := [publisher] + subscribers;
    var names := Listed(all);
    ListedEnds(all);
    IdentFramed(publisher);
    IdentFacts(publisher);
    IndentedLacks(init, ',');
    IndentedLacks(publisher, ',');
    IndentedSep(init, ',', Indented(names));
    SplitNSep(width, ',', Sep(Indented(init), ',', Indented(names)), 4);
    SplitNSep(Indented(init), ',', Indented(names), 3);
    assert all[1..] == subscribers;
    if subscribers == [] {
      SplitNSep(Indented(publisher), ',', [], 2);
    } else {
      var subs := Indented(Listed(subscribers));
      IndentedSep(publisher, ',', subs);
      SplitNSep(Indented(publisher), ',', subs, 2);
      assert names == Sep(publisher, ',', subs);
    }
  }

  /** The name, with any white space behind it. */
  predicate Labels(tag: string, name: string) {
    Ident(name) && name <= tag && Blank(tag[|name|..])
  }

  lemma LabelFacts(tag: string, name: string)
    requires Labels(tag, name)
    ensures Trim(tag) == name && ':' !in tag && ',' !in tag && |tag| > 0 && IsIdChar(tag[0])
  {
    var gap := tag[|name|..];
    assert tag == name + gap;
    IdentFacts(name);
    assert name[0] in name && tag[0] == name[0];
    forall c | c in tag ensures c != ':' && c != ',' {
      assert c in name || c in gap;
    }
    assert TrimStart(tag) == tag;
    TrimEndBlank(name, gap);
    assert TrimEnd(name) == name;
  }

  lemma LabelSelf(name: string)
    requires Ident(name)
    ensures Labels(name, name)
  {
    assert name[|name|..] == [];
  }

  lemma SignalLineFramed(tag: string, name: string, width: string, init: string, nodes: seq<string>)
    requires Labels(tag, name) && Numeral(width) && Numeral(init) && |nodes| > 0 && Framed(Listed(nodes))
    ensures Framed(SignalLine(tag, width, init, nodes))
    ensures var rest := Sep(width, ',', Indented(Sep(init, ',', Indented(Listed(nodes))))); Trim(Indented(rest)) == rest
  {
    hide Trim, Listed, Framed, Tight;
    NumeralFirst(init, Listed(nodes));
    var tail := Sep(init, ',', Indented(Listed(nodes)));
    NumeralTight(width, tail);
    LabelFacts(tag, name);
    FramedLast(tag, ':', Sep(width, ',', Indented(tail)));
  }

  /** A signal line reads back whatever its two numbers are; a width or an initial value that is no
      number counts as zero. */
  lemma SignalLineReadsBack(tag: string, name: string, width: string, init: string, publisher: string,
                            subscribers: seq<string>, h: Host)
    requires Labels(tag, name) && Numeral(width) && Numeral(init) && Ident(publisher)
    requires forall x | x in subscribers :: Ident(x)
    ensures var line := SignalLine(tag, width, init, [publisher] + subscribers);
      && Framed(line)
      && SignalOf(Ended(line), h)
        == Some(Signal(name, ToUsize(ParseInt(width)), match h.parseUint(init) case None => 0 case Some(v) => v,
                       publisher, subscribers))
  {
    hide Trim, TrimEndOf, Split, SplitN, Find, Sep, Indented, Ident, Framed, Listed, Statement, Ended, ParseInt,
      Names, Tight;
    var nodes := [publisher] + subscribers;
    var rest := Sep(width, ',', Indented(Sep(init, ',', Indented(Listed(nodes)))));
    SignalParts(width, init, publisher, subscribers);
    SignalLineFramed(tag, name, width, init, nodes);
    StatementReadsBack(SignalLine(tag, width, init, nodes));
    LabelFacts(tag, name);
    FindSep(tag, ':', Indented(rest));
    IdentFramed(publisher);
    StatementReadsBack(publisher);
    TrimTight(width);
    TrimTight(init);
    if subscribers != [] {
      ListedReadsBack(subscribers);
    }
  }

  lemma IdentNumeral(s: string)
    requires Ident(s)
    ensures Numeral(s)
  {
    IdentFacts(s);
  }

  /** An unsigned word is the number modulo 2^64, and zero for text that is no number. */
  lemma WordExactly(s: string)
    ensures ToUsize(ParseInt(s)) ==
      match ParseInt(s) case None => 0 case Some(n) => if n < 0 then n + 0x1_0000_0000_0000_0000 else n
  {
    hide Trim, TrimEndOf, ParseSigned;
  }

  lemma SignalReadsBack(d: Declaration, h: Host)
    requires GoodDeclaration(d, h)
    ensures SignalOf(Ended(SignalText(d)), h) == Some(d.signal)
    ensures Framed(SignalText(d))
  {
    hide SignalOf, SignalLine, Ended, Framed, Ident, ParseInt, Numeral;
    var s := d.signal;
    DecimalIdent(s.bitWidth);
    IdentNumeral(Decimal(s.bitWidth));
    IdentNumeral(d.init);
    LabelSelf(s.name);
    SignalLineReadsBack(s.name, s.name, Decimal(s.bitWidth), d.init, s.publisher, s.subscribers, h);
    IntReadsBack(s.bitWidth);
  }

  /** A header line reads back by its first three fields. */
  lemma FieldsReadBack(f: Frame, name: string, number: string, fields: string, length: string)
    requires Labels(f.name, name) && Ident(f.publisher) && Numeral(number) && Framed(fields)
    requires Trim(Split(Indented(fields), ',')[0]) == length
    ensures FrameHeader(Header(FrameText(f, number, fields)))
      == match ParseInt(number)
         case None => None
         case Some(n) => Some(Frame(name, ToU8(n), f.publisher, ToUsize(ParseInt(length)), []))
    ensures Framed(FrameText(f, number, fields))
  {
    hide Trim, TrimEndOf, Split, SplitN, Find, Sep, Indented, Ident, Framed, Listed, Ended, Header, ParseInt,
      Names, Tight;
    var tail := Sep(f.publisher, ',', Indented(fields));
    var rest := Sep(number, ',', Indented(tail));
    IdentFramed(f.publisher);
    SepFramed(f.publisher, ',', fields);
    LabelFacts(f.name, name);
    NumeralFirst(number, tail);
    FramedLast(f.name, ':', rest);
    StatementReadsBack(FrameText(f, number, fields));
    StatementReadsBack(f.publisher);
    TrimTight(number);
    IdentFacts(f.publisher);
    FindSep(f.name, ':', Indented(rest));
    IndentedLacks(f.publisher, ',');
    IndentedSep(f.publisher, ',', Indented(fields));
    SplitSep(number, ',', Sep(Indented(f.publisher), ',', Indented(fields)));
    SplitSep(Indented(f.publisher), ',', Indented(fields));
  }

  /** A printed header reads back with the low eight bits of the declared number as its id, and
      is no header at all when the number is not one that fits the signed word it is read as. A
      length that is no number counts as zero. */
  lemma FrameReadsBack(f: Frame, name: string, number: string, length: string)
    requires Labels(f.name, name) && Ident(f.publisher) && Numeral(number) && Ident(length)
    ensures FrameHeader(Header(FrameText(f, number, length)))
      == match ParseInt(number)
         case None => None
         case Some(n) => Some(Frame(name, ToU8(n), f.publisher, ToUsize(ParseInt(length)), []))
    ensures OpensFrame(Header(FrameText(f, number, length))) <==> ParseInt(number).Some?
    ensures Framed(FrameText(f, number, length))
  {
    hide Trim, TrimEndOf, Split, Find, Sep, Indented, Ident, Framed, Header, ParseInt, Tight, Numeral, FrameText;
    IdentFramed(length);
    IdentFacts(length);
    IndentedLacks(length, ',');
    SplitSep(Indented(length), ',', []);
    StatementReadsBack(length);
    FieldsReadBack(f, name, number, length, length);
    StatementReadsBack(FrameText(f, number, length));
  }

  /** More fields behind the length are ignored. */
  lemma ExtraFieldsIgnored(f: Frame, name: string, number: string, length: string, extra: string)
    requires Labels(f.name, name) && Ident(f.publisher) && Numeral(number) && Ident(length) && Framed(extra)
    ensures FrameHeader(Header(FrameText(f, number, Sep(length, ',', extra))))
      == FrameHeader(Header(FrameText(f, number, length)))
  {
    hide Trim, TrimEndOf, Split, Find, Sep, Indented, Ident, Framed, Header, ParseInt, Tight, Numeral, FrameText;
    IdentFramed(length);
    IdentFacts(length);
    IndentedLacks(length, ',');
    SplitSep(Indented(length), ',', extra);
    IndentedSep(length, ',', extra);
    StatementReadsBack(length);
    SepFramed(length, ',', extra);
    FieldsReadBack(f, name, number, Sep(length, ',', extra), length);
    FrameReadsBack(f, name, number, length);
  }

  /** A number and what follows it have nothing to trim in front. */
  lemma NumeralFirst(number: string, tail: string)
    requires Tight(number) && Framed(tail)
    ensures var rest := Sep(number, ',', Indented(tail));
      Trim(Indented(rest)) == rest && Tight(rest) && IsIdChar(rest[|rest| - 1])
  {
    SepTight(number, ',', Indented(tail));
    TrimTight(Sep(number, ',', Indented(tail)));
  }

  lemma NumeralTight(number: string, tail: string)
    requires Tight(number) && Tight(tail) && IsIdChar(tail[|tail| - 1])
    ensures var rest := Sep(number, ',', Indented(tail));
      Trim(Indented(rest)) == rest && Tight(rest) && IsIdChar(rest[|rest| - 1])
  {
    SepTight(number, ',', Indented(tail));
    TrimTight(Sep(number, ',', Indented(tail)));
  }

  lemma FramedLast(tag: string, c: char, rest: string)
    requires |tag| > 0 && IsIdChar(tag[0]) && |rest| > 0 && IsIdChar(rest[|rest| - 1])
    ensures Framed(Sep(tag, c, Indented(rest)))
  {}

  lemma OwnHeader(f: Frame)
    requires GoodFrame(f)
    ensures var line := Header(OwnText(f)); OpensFrame(line) && FrameHeader(line) == Some(f.(signals := []))
    ensures Framed(OwnText(f))
  {
    hide FrameHeader, FrameText, Header, ParseInt, Numeral, Ident;
    IntReadsBack(f.id);
    IntReadsBack(f.length);
    DecimalIdent(f.length);
    LabelSelf(f.name);
    FrameReadsBack(f, f.name, Decimal(f.id), Decimal(f.length));
    assert ToU8(f.id) == f.id;
  }

  /** So a declared id is one the bus accepts exactly when its low eight bits are, and two
      declarations fall on the same id exactly when they agree modulo 256, whatever the sign and
      the notation of the numbers. */
  lemma DeclaredIds(f: Frame, number: string, m: int, g: Frame, other: string, n: int, length: string)
    requires GoodFrame(f) && Numeral(number) && ParseInt(number) == Some(m)
    requires GoodFrame(g) && Numeral(other) && ParseInt(other) == Some(n) && Ident(length)
    ensures var x := FrameHeader(Header(FrameText(f, number, length)));
      var y := FrameHeader(Header(FrameText(g, other, length)));
      && x.Some? && y.Some?
      && (x.value.id <= LinFrame.LIN_MAX_ID <==> m % 0x100 <= 0x3F)
      && (x.value.id == y.value.id <==> m % 0x100 == n % 0x100)
  {
    hide FrameHeader, FrameText, Header, ParseInt, Numeral, Ident;
    LabelSelf(f.name);
    LabelSelf(g.name);
    FrameReadsBack(f, f.name, number, length);
    FrameReadsBack(g, g.name, other, length);
  }

  /** A reference reads back whatever its offset is; one that is no number counts as zero. */
  lemma RefLineReadsBack(tag: string, name: string, offset: string)
    requires Labels(tag, name) && Tight(offset) && IsIdChar(offset[|offset| - 1])
    ensures RefOf(Ended(RefLine(tag, offset))) == Some(SignalRef(name, ToUsize(ParseInt(offset))))
    ensures Framed(RefLine(tag, offset))
  {
    LabelFacts(tag, name);
    FramedLast(tag, ',', offset);
    hide Trim, TrimEndOf, SplitN, Sep, Indented, Ident, Framed, Statement, Ended, ParseInt, Tight, IsIdChar;
    StatementReadsBack(RefLine(tag, offset));
    TrimTight(offset);
    SplitNSep(tag, ',', Indented(offset), 2);
  }

  lemma RefReadsBack(r: SignalRef)
    requires GoodRef(r)
    ensures RefOf(Ended(RefText(r))) == Some(r)
    ensures Framed(RefText(r))
  {
    hide RefOf, Ended, RefLine, Ident, ParseInt, Numeral, IsIdChar;
    DecimalIdent(r.bitOffset);
    IdentFacts(Decimal(r.bitOffset));
    IdentFramed(Decimal(r.bitOffset));
    LabelSelf(r.name);
    RefLineReadsBack(r.name, r.name, Decimal(r.bitOffset));
    IntReadsBack(r.bitOffset);
  }

  lemma Keywords()
    ensures Ident("ms") && Ident("delay") && EqIgnoreAsciiCase("delay", "delay")
  {}

  predicate NoSpace(s: string) {
    |s| > 0 && forall c | c in s :: !IsSpace(c)
  }

  lemma SlotWords(name: string, keyword: string, delay: string)
    requires Ident(name) && NoSpace(keyword) && NoSpace(delay)
    ensures Words(SlotLine(name, keyword, delay)) == [name, keyword, delay, "ms"]
    ensures Framed(SlotLine(name, keyword, delay))
  {
    hide Words, IsSpace;
    IdentFacts(name);
    NameHasNoSpace(name);
    Keywords();
    NameHasNoSpace("ms");
    SpaceIsSpace();
    var timed := [' '] + delay + ([' '] + "ms");
    var rest := [' '] + keyword + timed;
    WordsExactly([' '], "ms", []);
    WordsExactly([' '], delay, [' '] + "ms");
    WordsExactly([' '], keyword, timed);
    WordsExactly([], name, rest);
    var line := SlotLine(name, keyword, delay);
    assert line == [] + name + rest;
    assert [' '] + "ms" + [] == [' '] + "ms";
    assert name[0] in name && line[0] == name[0] && line[|line| - 1] == 's';
  }

  lemma SpaceIsSpace()
    ensures Blank([' ']) && Blank([]) && IsSpace(' ') && Words([]) == []
  {}

  lemma NameHasNoSpace(s: string)
    requires Ident(s)
    ensures NoSpace(s)
  {}

  /** A slot line reads back whatever its delay is, with the keyword in any case: a delay that is
      no number counts as zero, one that is too large loses its high bits. Another keyword, or a
      name that starts like the diagnostic command, makes it no slot. */
  lemma SlotLineReadsBack(name: string, keyword: string, delay: string, h: Host)
    requires Ident(name) && NoSpace(keyword) && NoSpace(delay)
    ensures DelayOf(Ended(SlotLine(name, keyword, delay)), h) ==
      if COMMAND <= name || !EqIgnoreAsciiCase(keyword, "delay") then None
      else Some(Delay(name, match h.parseUint(delay) case None => 0 case Some(v) => v % 0x1_0000_0000))
    ensures Framed(SlotLine(name, keyword, delay))
  {
    hide Statement, Words, Framed, Ident, NoSpace, DelayOf, Ended, EqIgnoreAsciiCase, SlotLine;
    var text := SlotLine(name, keyword, delay);
    SlotWords(name, keyword, delay);
    StatementReadsBack(text);
    CommandInFront(name, keyword, delay);
    DelayFromWords(Ended(text), text, name, keyword, delay, h);
  }

  lemma CommandInFront(name: string, keyword: string, delay: string)
    ensures COMMAND <= SlotLine(name, keyword, delay) <==> COMMAND <= name
  {
    PrefixOfSep(COMMAND, name, Sep(keyword, ' ', Sep(delay, ' ', "ms")));
  }

  lemma DelayFromWords(line: string, text: string, name: string, keyword: string, delay: string, h: Host)
    requires Statement(line) == text && (COMMAND <= text <==> COMMAND <= name)
    requires Words(text) == [name, keyword, delay, "ms"]
    ensures DelayOf(line, h) ==
      if COMMAND <= name || !EqIgnoreAsciiCase(keyword, "delay") then None
      else Some(Delay(name, match h.parseUint(delay) case None => 0 case Some(v) => v % 0x1_0000_0000))
  {
    hide Statement, Words, EqIgnoreAsciiCase;
  }

  lemma SlotReadsBack(s: Slot, frames: seq<Frame>, h: Host)
    requires GoodSlot(s, frames, h) && Ident(s.frame.name)
    ensures DelayOf(Ended(SlotText(s)), h) == if COMMAND <= s.frame.name then None else Some(Delay(s.frame.name, s.ms))
    ensures Framed(SlotText(s))
  {
    hide DelayOf, SlotLine, Ended, Framed, Ident, NoSpace;
    Keywords();
    NameHasNoSpace("delay");
    NameHasNoSpace(s.delay);
    SlotLineReadsBack(s.frame.name, "delay", s.delay, h);
  }

  /** A prefix without a space lies within the first word. */
  lemma {:induction false} PrefixOfSep(p: string, name: string, rest: string)
    requires ' ' !in p
    ensures p <= Sep(name, ' ', rest) <==> p <= name
  {
    var s := Sep(name, ' ', rest);
    if |p| > 0 {
      assert p[0] in p && s[0] == if |name| > 0 then name[0] else ' ';
      if |name| > 0 {
        assert s[1..] == Sep(name[1..], ' ', rest);
        PrefixOfSep(p[1..], name[1..], rest);
        PrefixTail(p, s);
        PrefixTail(p, name);
      }
    }
  }

  lemma PrefixTail(p: string, s: string)
    requires |p| > 0 && |s| > 0
    ensures p <= s <==> p[0] == s[0] && p[1..] <= s[1..]
  {
    if p[0] == s[0] && p[1..] <= s[1..] {
      assert s[1..][..|p| - 1] == p[1..];
      assert s[..|p|] == [s[0]] + s[1..][..|p| - 1];
    }
  }

  // ---------------------------------------------------------------------------
  // Sections read back
  // ---------------------------------------------------------------------------

  /** A line that is neither a closing nor an opening brace. */
  predicate Plain(line: string) {
    line != "}" && !("{" <= line)
  }

  lemma FramedLines(s: string)
    requires Framed(s)
    ensures Plain(Ended(s)) && Plain(Header(s)) && OpensTable(Header(s))
  {
    assert Ended(s)[0] == s[0] && Header(s)[0] == s[0];
  }

  lemma ClosingBrace(t: seq<string>, rest: seq<string>)
    requires t == ["}"] + rest
    ensures Body(t) == [] && After(t) == rest && Opened(t) == t
    ensures Blocks(t, OpensFrame) == [] && AfterBlocks(t, OpensFrame) == rest
    ensures Blocks(t, OpensTable) == [] && AfterBlocks(t, OpensTable) == rest
  {
    assert t[0] == "}" && t[1..] == rest;
    assert "}"[0] == '}' && "{"[0] == '{';
  }

  lemma {:induction false} ClosedReadsBack(lines: seq<string>, rest: seq<string>)
    requires forall x | x in lines :: Plain(x)
    ensures Body(Closed(lines, rest)) == lines && After(Closed(lines, rest)) == rest
    ensures Opened(Closed(lines, rest)) == Closed(lines, rest)
  {
    var t := Closed(lines, rest);
    if |lines| == 0 {
      ClosingBrace(t, rest);
    } else {
      assert lines[0] in lines;
      assert t[1..] == Closed(lines[1..], rest);
      ClosedReadsBack(lines[1..], rest);
    }
  }

  lemma {:induction false} SignalLinesReadBack(signals: map<string, Signal>, declarations: seq<Declaration>, h: Host)
    requires forall d | d in declarations :: GoodDeclaration(d, h)
    ensures Declare(signals, SignalLines(declarations), h) == Declared(signals, declarations)
    ensures forall x | x in SignalLines(declarations) :: Plain(x)
    decreases |declarations|
  {
    if |declarations| > 0 {
      var d := declarations[0];
      assert d in declarations;
      SignalReadsBack(d, h);
      FramedLines(SignalText(d));
      SignalLinesReadBack(signals[d.signal.name := d.signal], declarations[1..], h);
      assert SignalLines(declarations)[1..] == SignalLines(declarations[1..]);
      hide GoodDeclaration, SignalText, SignalOf, Plain, Framed, Ended;
    }
  }

  lemma {:induction false} RefLinesReadBack(refs: seq<SignalRef>)
    requires forall r | r in refs :: GoodRef(r)
    ensures Refs(RefLines(refs)) == refs
    ensures forall x | x in RefLines(refs) :: Plain(x)
  {
    if |refs| > 0 {
      assert refs[0] in refs;
      RefReadsBack(refs[0]);
      FramedLines(RefText(refs[0]));
      RefLinesReadBack(refs[1..]);
      assert RefLines(refs)[1..] == RefLines(refs[1..]);
      hide GoodRef, RefText, RefOf, Plain, Framed, Ended;
    }
  }

  lemma {:induction false} FrameLinesReadBack(frames: map<u8, Frame>, fs: seq<Frame>, rest: seq<string>)
    requires forall f | f in fs :: GoodFrame(f)
    ensures var t := FrameLines(fs, rest);
      ReadFrames(frames, t) == Filed(frames, fs) && AfterBlocks(t, OpensFrame) == rest && Opened(t) == t
    decreases |fs|
  {
    var t := FrameLines(fs, rest);
    if |fs| == 0 {
      ClosingBrace(t, rest);
    } else {
      var f := fs[0];
      assert f in fs;
      OwnHeader(f);
      FramedLines(OwnText(f));
      RefLinesReadBack(f.signals);
      ClosedReadsBack(RefLines(f.signals), FrameLines(fs[1..], rest));
      assert t[0] == Header(OwnText(f))
        && t[1..] == Closed(RefLines(f.signals), FrameLines(fs[1..], rest));
      NextFrame(frames, t);
      FrameLinesReadBack(frames[f.id := f], fs[1..], rest);
      hide ReadFrames, FrameHeader, Header, FrameText, Body, After, Closed, GoodFrame, Refs;
    }
  }

  // ---------------------------------------------------------------------------
  // Schedule tables read back
  // ---------------------------------------------------------------------------

  lemma {:induction false} FiledAt(frames: map<u8, Frame>, fs: seq<Frame>, id: u8)
    ensures var r := Filed(frames, fs);
      && (id in r <==> id in frames || exists f | f in fs :: f.id == id)
      && (id in r ==> (r[id] in fs && r[id].id == id)
                      || (id in frames && r[id] == frames[id] && forall f | f in fs :: f.id != id))
    decreases |fs|
  {
    if |fs| > 0 {
      FiledAt(frames[fs[0].id := fs[0]], fs[1..], id);
      assert fs == [fs[0]] + fs[1..];
    }
  }

  /** A lookup by name finds the one frame that has it. */
  lemma FindsFrame(fs: seq<Frame>, f: Frame, id: u8)
    requires Unambiguous(fs) && f in fs && Finds(Filed(map[], fs), f.name, id)
    ensures id == f.id
  {
    FiledAt(map[], fs, id);
    FiledAt(map[], fs, f.id);
  }

  lemma EntryReadsBack(s: Slot, fs: seq<Frame>, section: nat, h: Host)
    requires WalksMaps(h) && Unambiguous(fs) && GoodSlot(s, fs, h) && forall f | f in fs :: GoodFrame(f)
    ensures EntryOf(Ended(SlotText(s)), Filed(map[], fs), section, h) == SlotEntry(s) && Plain(Ended(SlotText(s)))
  {
    hide SlotText, DelayOf, FirstNamed, Plain, Framed, Ended, Filed, Unambiguous;
    SlotReadsBack(s, fs, h);
    FramedLines(SlotText(s));
    var order := h.order(section, Filed(map[], fs));
    LookupFinds(order, Filed(map[], fs), s.frame.name);
    FindsFrame(fs, s.frame, FirstNamed(order, Filed(map[], fs), s.frame.name));
  }

  lemma {:induction false} SlotLinesReadBack(slots: seq<Slot>, fs: seq<Frame>, section: nat, h: Host)
    requires WalksMaps(h) && Unambiguous(fs) && (forall s | s in slots :: GoodSlot(s, fs, h))
      && forall f | f in fs :: GoodFrame(f)
    ensures Entries(SlotLines(slots), Filed(map[], fs), section, h) == Slots(slots)
    ensures forall x | x in SlotLines(slots) :: Plain(x)
  {
    hide GoodSlot, GoodFrame, SlotText, EntryOf, SlotEntry, Plain, Ended, Filed, WalksMaps, Unambiguous;
    if |slots| > 0 {
      assert slots[0] in slots;
      EntryReadsBack(slots[0], fs, section, h);
      SlotLinesReadBack(slots[1..], fs, section, h);
      assert SlotLines(slots)[1..] == SlotLines(slots[1..]);
    }
  }

  lemma {:induction false} TableLinesReadBack(schedules: map<string, seq<ScheduleEntry>>, tables: seq<Table>,
                                              fs: seq<Frame>, rest: seq<string>, section: nat, h: Host)
    requires WalksMaps(h) && Unambiguous(fs) && (forall f | f in fs :: GoodFrame(f))
    requires forall t | t in tables :: GoodTable(t, fs, h)
    ensures var t := TableLines(tables, rest);
      && AddTables(schedules, Blocks(t, OpensTable), Filed(map[], fs), section, h) == Scheduled(schedules, tables)
      && AfterBlocks(t, OpensTable) == rest && Opened(t) == t
    decreases |tables|
  {
    var t := TableLines(tables, rest);
    if |tables| == 0 {
      ClosingBrace(t, rest);
    } else {
      var b := tables[0];
      assert b in tables;
      IdentFramed(b.name);
      FramedLines(b.name);
      StatementReadsBack(b.name);
      SlotLinesReadBack(b.slots, fs, section, h);
      ClosedReadsBack(SlotLines(b.slots), TableLines(tables[1..], rest));
      assert t[0] == Header(b.name) && t[1..] == Closed(SlotLines(b.slots), TableLines(tables[1..], rest));
      TableLinesReadBack(schedules[b.name := Slots(b.slots)], tables[1..], fs, rest, section, h);
      hide Header, Body, After, Closed, GoodTable, GoodFrame, Entries, Filed, WalksMaps, Unambiguous, SlotLines, Slots;
      NextTable(t, Block(Header(b.name), SlotLines(b.slots)), TableLines(tables[1..], rest));
    }
  }

  lemma NextTable(t: seq<string>, b: Block, rest: seq<string>)
    requires |t| > 0 && t[0] == b.header && OpensTable(t[0]) && t[0] != "}"
    requires Body(t[1..]) == b.body && After(t[1..]) == rest
    ensures var blocks := Blocks(t, OpensTable);
      && |blocks| > 0 && blocks[0] == b && blocks[1..] == Blocks(rest, OpensTable)
      && AfterBlocks(t, OpensTable) == AfterBlocks(rest, OpensTable)
  {}

  // ---------------------------------------------------------------------------
  // The file read back
  // ---------------------------------------------------------------------------

  lemma KeywordCut(p: string, x: string)
    requires |p| > 0 && p[0] != ' '
    ensures TrimStartOf(p + Indented(x), p) == Indented(x) && p <= p + Indented(x)
  {
    var s := p + Indented(x);
    assert s[|p|..] == Indented(x);
    assert Indented(x)[0] == ' ';
  }

  lemma MasterReadsBack(master: string)
    requires Ident(master)
    ensures MasterOf("Master:" + Indented(Sep(master, ',', " 5 ms, 0.1 ms;"))) == master
  {
    var timing := " 5 ms, 0.1 ms;";
    assert timing[|timing| - 1] == ';';
    IdentFacts(master);
    SepTight(master, ',', timing);
    assert master[|master| - 1] in master;
    hide Trim, TrimEndOf, TrimStartOf, Split, Sep, Ident, Indented, Tight;
    KeywordCut("Master:", Sep(master, ',', timing));
    TrimTight(Sep(master, ',', timing));
    SplitSep(master, ',', timing);
    TrimTight(master);
    CutLast(master, ';');
  }

  lemma SlavesReadBack(slaves: seq<string>)
    requires |slaves| > 0 && forall x | x in slaves :: Ident(x)
    ensures SlavesOf("Slaves:" + Indented(Ended(Listed(slaves)))) == slaves
  {
    var text := Listed(slaves);
    ListedEnds(slaves);
    assert Tight(Ended(text)) && text[|text| - 1] != ';';
    hide Trim, TrimEndOf, TrimStartOf, Split, Names, Ident, Indented, Tight, Listed;
    KeywordCut("Slaves:", Ended(text));
    TrimTight(Ended(text));
    CutLast(text, ';');
    ListedReadsBack(slaves);
  }

  lemma NodesReadBack(t: Tables, master: string, slaves: seq<string>)
    requires Ident(master) && |slaves| > 0 && forall x | x in slaves :: Ident(x)
    ensures ReadNodes(t, NodeLines(master, slaves)) == t.(masterNode := master, slaveNodes := t.slaveNodes + slaves)
    ensures forall x | x in NodeLines(master, slaves) :: Plain(x)
  {
    MasterReadsBack(master);
    SlavesReadBack(slaves);
    hide MasterOf, SlavesOf, Sep, Indented, Listed, Ended, Ident;
    var lines := NodeLines(master, slaves);
    var a, b := lines[0], lines[1];
    assert a[0] == 'M' && b[0] == 'S';
    TwoNodes(t, a, b);
    assert lines == [a, b];
  }

  lemma TwoNodes(t: Tables, a: string, b: string)
    requires "Master:" <= a && "Slaves:" <= b && b[0] == 'S'
    ensures ReadNodes(t, [a, b]) == t.(masterNode := MasterOf(a), slaveNodes := t.slaveNodes + SlavesOf(b))
  {
    hide MasterOf, SlavesOf;
    assert "Master:"[0] == 'M';
    assert ReadNode(t, a) == t.(masterNode := MasterOf(a));
    assert [a, b][1..] == [b] && [b][1..] == [];
    assert ReadNodes(t, [a, b]) == ReadNodes(ReadNode(t, a), [b]);
    assert ReadNodes(ReadNode(t, a), [b]) == ReadNode(ReadNode(t, a), b);
  }

  lemma VersionReadsBack(key: string, version: string)
    requires '"' !in key && '"' !in version
    ensures Quoted(VersionLine(key, version)) == version && key <= VersionLine(key, version)
  {
    hide Find, Quoted;
    QuotedReadsBack(key + " = ", version, ";");
    assert VersionLine(key, version)[..|key|] == key;
  }

  lemma QuotedReadsBack(before: string, text: string, end: string)
    requires '"' !in before && '"' !in text
    ensures Quoted(Sep(before, '"', Sep(text, '"', end))) == text
  {
    hide Find, Sep;
    FindSep(before, '"', Sep(text, '"', end));
    FindSep(text, '"', end);
  }

  // Which section a line starts is decided by its first letters.

  lemma LanguageSection(d: Tables, line: string, rest: seq<string>, h: Host)
    requires "LIN_language_version" <= line
    ensures ReadSection(d, line, rest, h) == (d.(languageVersion := Quoted(line)), rest)
  {
    hide Quoted, ReadNodes, Declare, ReadFrames, AddTables, Body, After, Blocks, AfterBlocks, Opened;
    assert line[4] == 'l';
  }

  lemma SpeedSection(d: Tables, line: string, rest: seq<string>, h: Host)
    requires "LIN_speed" <= line
    ensures ReadSection(d, line, rest, h) == (d.(speed := line), rest)
  {
    hide Quoted, ReadNodes, Declare, ReadFrames, AddTables, Body, After, Blocks, AfterBlocks, Opened;
    assert line[4] == 's';
  }

  lemma NodesSection(d: Tables, rest: seq<string>, h: Host)
    ensures ReadSection(d, "Nodes {", rest, h) == (ReadNodes(d, Body(Opened(rest))), After(Opened(rest)))
  {
    hide Quoted, ReadNodes, Declare, ReadFrames, AddTables, Body, After, Blocks, AfterBlocks, Opened;
    var line := "Nodes {";
    assert line[0] == 'N' && line[..5] == "Nodes";
  }

  lemma SignalsSection(d: Tables, rest: seq<string>, h: Host)
    ensures ReadSection(d, "Signals {", rest, h)
      == (d.(signals := Declare(d.signals, Body(Opened(rest)), h)), After(Opened(rest)))
  {
    hide Quoted, ReadNodes, Declare, ReadFrames, AddTables, Body, After, Blocks, AfterBlocks, Opened;
    var line := "Signals {";
    assert line[0] == 'S' && line[..7] == "Signals";
  }

  lemma FramesSection(d: Tables, rest: seq<string>, h: Host)
    ensures ReadSection(d, "Frames {", rest, h)
      == (d.(frames := ReadFrames(d.frames, Opened(rest))), AfterBlocks(Opened(rest), OpensFrame))
  {
    hide Quoted, ReadNodes, Declare, ReadFrames, AddTables, Body, After, Blocks, AfterBlocks, Opened;
    var line := "Frames {";
    assert line[0] == 'F' && line[..6] == "Frames";
  }

  lemma TablesSection(d: Tables, rest: seq<string>, h: Host)
    ensures var b := Opened(rest);
      ReadSection(d, "Schedule_tables {", rest, h)
      == (d.(schedules := AddTables(d.schedules, Blocks(b, OpensTable), d.frames, |b|, h)), AfterBlocks(b, OpensTable))
  {
    hide Quoted, ReadNodes, Declare, ReadFrames, AddTables, Body, After, Blocks, AfterBlocks, Opened;
    var line := "Schedule_tables {";
    assert line[0] == 'S' && line[1] == 'c' && line[..15] == "Schedule_tables";
  }

  lemma ReadOn(d: Tables, line: string, rest: seq<string>, h: Host)
    ensures var (e, r) := ReadSection(d, line, rest, h); ReadAll(d, [line] + rest, h) == ReadAll(e, r, h)
  {
    hide ReadSection;
    var t := [line] + rest;
    assert t[0] == line && t[1..] == rest;
  }

  lemma NodesAndSignals(d: Tables, x: Description, rest: seq<string>, h: Host)
    requires Good(x, h)
    ensures ReadAll(d, Section("Nodes {", NodeLines(x.master, x.slaves),
                               Section("Signals {", SignalLines(x.declarations), rest)), h)
      == ReadAll(d.(masterNode := x.master, slaveNodes := d.slaveNodes + x.slaves,
                    signals := Declared(d.signals, x.declarations)), rest, h)
  {
    hide ReadAll, Declare, ReadNodes, Body, After, Opened, NodeLines, SignalLines, Closed, Plain, ReadSection,
      Declared, Ident;
    var signals := Closed(SignalLines(x.declarations), rest);
    var after := Section("Signals {", SignalLines(x.declarations), rest);
    var nodes := Closed(NodeLines(x.master, x.slaves), after);
    ReadOn(d, "Nodes {", nodes, h);
    NodesSection(d, nodes, h);
    NodesReadBack(d, x.master, x.slaves);
    ClosedReadsBack(NodeLines(x.master, x.slaves), after);
    var e := d.(masterNode := x.master, slaveNodes := d.slaveNodes + x.slaves);
    ReadOn(e, "Signals {", signals, h);
    SignalsSection(e, signals, h);
    SignalLinesReadBack(e.signals, x.declarations, h);
    ClosedReadsBack(SignalLines(x.declarations), rest);
  }

  lemma FramesAndTables(d: Tables, x: Description, h: Host)
    requires Good(x, h) && WalksMaps(h) && d.frames == map[]
    ensures ReadAll(d, ["Frames {"] + FrameLines(x.frames, ["Schedule_tables {"] + TableLines(x.tables, [])), h)
      == d.(frames := Filed(map[], x.frames), schedules := Scheduled(d.schedules, x.tables))
  {
    hide ReadFrames, AddTables, Blocks, Opened, AfterBlocks, FrameLines, TableLines, ReadSection, Filed, Scheduled,
      WalksMaps, Ident;
    var tables := TableLines(x.tables, []);
    var frames := FrameLines(x.frames, ["Schedule_tables {"] + tables);
    ReadOn(d, "Frames {", frames, h);
    FramesSection(d, frames, h);
    FrameLinesReadBack(map[], x.frames, ["Schedule_tables {"] + tables);
    var e := d.(frames := Filed(map[], x.frames));
    ReadOn(e, "Schedule_tables {", tables, h);
    TablesSection(e, tables, h);
    TableLinesReadBack(d.schedules, x.tables, x.frames, [], |tables|, h);
  }

  lemma ProtocolSection(d: Tables, line: string, rest: seq<string>, h: Host)
    requires "LIN_protocol_version" <= line
    ensures ReadSection(d, line, rest, h) == (d.(protocolVersion := Quoted(line)), rest)
  {
    hide Quoted, ReadNodes, Declare, ReadFrames, AddTables, Body, After, Blocks, AfterBlocks, Opened;
  }

  lemma PrintReadsBack(x: Description, h: Host)
    requires Good(x, h) && WalksMaps(h)
    ensures ReadAll(NOTHING, Print(x), h) == Meaning(x)
  {
    hide ReadAll, NodeLines, SignalLines, FrameLines, TableLines, VersionLine, ReadSection, Quoted, Filed,
      Scheduled, Declared, Section, WalksMaps, Ident;
    var tables := ["Frames {"] + FrameLines(x.frames, ["Schedule_tables {"] + TableLines(x.tables, []));
    var nodes := Section("Nodes {", NodeLines(x.master, x.slaves),
                         Section("Signals {", SignalLines(x.declarations), tables));
    var protocol := VersionLine("LIN_protocol_version", x.protocolVersion);
    var language := VersionLine("LIN_language_version", x.languageVersion);
    VersionReadsBack("LIN_protocol_version", x.protocolVersion);
    VersionReadsBack("LIN_language_version", x.languageVersion);
    var d1 := NOTHING.(protocolVersion := x.protocolVersion);
    var d2 := d1.(languageVersion := x.languageVersion);
    var d3 := d2.(speed := x.speed);
    ReadOn(NOTHING, protocol, [language] + ([x.speed] + nodes), h);
    ProtocolSection(NOTHING, protocol, [language] + ([x.speed] + nodes), h);
    ReadOn(d1, language, [x.speed] + nodes, h);
    LanguageSection(d1, language, [x.speed] + nodes, h);
    ReadOn(d2, x.speed, nodes, h);
    SpeedSection(d2, x.speed, nodes, h);
    NodesAndSignals(d3, x, tables, h);
    var d4 := d3.(masterNode := x.master, slaveNodes := [] + x.slaves, signals := Declared(map[], x.declarations));
    FramesAndTables(d4, x, h);
    assert [] + x.slaves == x.slaves;
  }

  // ---------------------------------------------------------------------------
  // Printed lines need no cleaning
  // ---------------------------------------------------------------------------

  /** Nothing to trim, and no comment. */
  predicate Clean(line: string) {
    Tight(line) && NoComment(line)
  }

  lemma Bare(s: string)
    requires '/' !in s
    ensures NoComment(s)
  {}

  lemma IdentBare(s: string)
    requires Ident(s)
    ensures '/' !in s
  {}

  lemma SepBare(a: string, c: char, b: string)
    requires '/' !in a && '/' !in b && c != '/'
    ensures '/' !in Sep(a, c, b) && '/' !in Sep(a, c, Indented(b))
  {}

  lemma {:induction false} ListedBare(names: seq<string>)
    requires |names| > 0 && forall x | x in names :: Ident(x)
    ensures '/' !in Listed(names)
  {
    assert names[0] in names;
    IdentBare(names[0]);
    if |names| > 1 {
      ListedBare(names[1..]);
      SepBare(names[0], ',', Listed(names[1..]));
    }
  }

  /** A framed text without slashes makes clean lines. */
  lemma FramedClean(s: string)
    requires Framed(s) && '/' !in s
    ensures Clean(Ended(s)) && Clean(Header(s))
  {
    Bare(Ended(s));
    Bare(Header(s));
    assert Ended(s)[0] == s[0] && Header(s)[0] == s[0];
  }

  lemma SignalClean(d: Declaration, h: Host)
    requires GoodDeclaration(d, h)
    ensures Clean(Ended(SignalText(d)))
  {
    var s := d.signal;
    var all := [s.publisher] + s.subscribers;
    SignalReadsBack(d, h);
    ListedBare(all);
    DecimalIdent(s.bitWidth);
    IdentBare(Decimal(s.bitWidth));
    IdentBare(d.init);
    IdentBare(s.name);
    hide Ident, Sep, Listed, Decimal, Indented, Clean, Framed, SignalOf;
    SepBare(d.init, ',', Listed(all));
    SepBare(Decimal(s.bitWidth), ',', Sep(d.init, ',', Indented(Listed(all))));
    SepBare(s.name, ':', Sep(Decimal(s.bitWidth), ',', Indented(Sep(d.init, ',', Indented(Listed(all))))));
    FramedClean(SignalText(d));
  }

  lemma FrameClean(f: Frame)
    requires GoodFrame(f)
    ensures Clean(Header(OwnText(f)))
  {
    OwnHeader(f);
    DecimalIdent(f.id);
    DecimalIdent(f.length);
    IdentBare(Decimal(f.id));
    IdentBare(Decimal(f.length));
    IdentBare(f.name);
    IdentBare(f.publisher);
    hide Ident, Sep, Decimal, Indented, Clean, Framed, FrameHeader;
    SepBare(f.publisher, ',', Decimal(f.length));
    SepBare(Decimal(f.id), ',', Sep(f.publisher, ',', Indented(Decimal(f.length))));
    SepBare(f.name, ':', Sep(Decimal(f.id), ',', Indented(Sep(f.publisher, ',', Indented(Decimal(f.length))))));
    FramedClean(OwnText(f));
  }

  lemma RefClean(r: SignalRef)
    requires GoodRef(r)
    ensures Clean(Ended(RefText(r)))
  {
    RefReadsBack(r);
    DecimalIdent(r.bitOffset);
    IdentBare(Decimal(r.bitOffset));
    IdentBare(r.name);
    hide Ident, Sep, Decimal, Indented, Clean, Framed, RefOf;
    SepBare(r.name, ',', Decimal(r.bitOffset));
    FramedClean(RefText(r));
  }

  lemma SlotClean(s: Slot, frames: seq<Frame>, h: Host)
    requires GoodSlot(s, frames, h) && Ident(s.frame.name)
    ensures Clean(Ended(SlotText(s)))
  {
    SlotReadsBack(s, frames, h);
    IdentBare(s.frame.name);
    IdentBare(s.delay);
    Keywords();
    IdentBare("ms");
    IdentBare("delay");
    hide Ident, Sep, Indented, Clean, Framed, Words;
    SepBare(s.delay, ' ', "ms");
    SepBare("delay", ' ', Sep(s.delay, ' ', "ms"));
    SepBare(s.frame.name, ' ', Sep("delay", ' ', Sep(s.delay, ' ', "ms")));
    FramedClean(SlotText(s));
  }

  lemma {:induction false} SignalLinesClean(declarations: seq<Declaration>, h: Host)
    requires forall d | d in declarations :: GoodDeclaration(d, h)
    ensures forall l | l in SignalLines(declarations) :: Clean(l)
  {
    hide GoodDeclaration, Clean, Ended, SignalText;
    if |declarations| > 0 {
      assert declarations[0] in declarations;
      SignalClean(declarations[0], h);
      SignalLinesClean(declarations[1..], h);
    }
  }

  lemma {:induction false} RefLinesClean(refs: seq<SignalRef>)
    requires forall r | r in refs :: GoodRef(r)
    ensures forall l | l in RefLines(refs) :: Clean(l)
  {
    hide GoodRef, Clean, Ended, RefText;
    if |refs| > 0 {
      assert refs[0] in refs;
      RefClean(refs[0]);
      RefLinesClean(refs[1..]);
    }
  }

  lemma {:induction false} SlotLinesClean(slots: seq<Slot>, fs: seq<Frame>, h: Host)
    requires (forall s | s in slots :: GoodSlot(s, fs, h)) && forall f | f in fs :: GoodFrame(f)
    ensures forall l | l in SlotLines(slots) :: Clean(l)
  {
    if |slots| > 0 {
      assert slots[0] in slots && slots[0].frame in fs;
      SlotClean(slots[0], fs, h);
      SlotLinesClean(slots[1..], fs, h);
      hide GoodSlot, GoodFrame, Clean, Ended, SlotText;
    }
  }

  lemma Braces()
    ensures Clean("}") && Clean("Nodes {") && Clean("Signals {") && Clean("Frames {") && Clean("Schedule_tables {")
  {}

  lemma {:induction false} FrameLinesClean(fs: seq<Frame>, rest: seq<string>)
    requires (forall f | f in fs :: GoodFrame(f)) && forall l | l in rest :: Clean(l)
    ensures forall l | l in FrameLines(fs, rest) :: Clean(l)
    decreases |fs|
  {
    Braces();
    if |fs| > 0 {
      assert fs[0] in fs;
      FrameClean(fs[0]);
      RefLinesClean(fs[0].signals);
      FrameLinesClean(fs[1..], rest);
    }
    hide Clean, GoodFrame, Header, FrameText;
  }

  lemma {:induction false} TableLinesClean(tables: seq<Table>, fs: seq<Frame>, rest: seq<string>, h: Host)
    requires (forall t | t in tables :: GoodTable(t, fs, h)) && (forall f | f in fs :: GoodFrame(f))
      && forall l | l in rest :: Clean(l)
    ensures forall l | l in TableLines(tables, rest) :: Clean(l)
    decreases |tables|
  {
    Braces();
    if |tables| > 0 {
      var t := tables[0];
      assert t in tables;
      IdentFramed(t.name);
      IdentBare(t.name);
      FramedClean(t.name);
      SlotLinesClean(t.slots, fs, h);
      TableLinesClean(tables[1..], fs, rest, h);
    }
    hide Clean, GoodTable, GoodFrame, Header;
  }

  lemma NodeLinesClean(master: string, slaves: seq<string>)
    requires Ident(master) && |slaves| > 0 && forall x | x in slaves :: Ident(x)
    ensures forall l | l in NodeLines(master, slaves) :: Clean(l)
  {
    var timing := " 5 ms, 0.1 ms;";
    var a, b := "Master:" + Indented(Sep(master, ',', timing)), "Slaves:" + Indented(Ended(Listed(slaves)));
    IdentBare(master);
    ListedBare(slaves);
    assert '/' !in timing && timing[|timing| - 1] == ';';
    hide Listed, Ident;
    Bare(a);
    Bare(b);
    assert a[0] == 'M' && a[|a| - 1] == ';' && b[0] == 'S' && b[|b| - 1] == ';';
    assert NodeLines(master, slaves) == [a, b];
  }

  lemma {:induction false} NoCommentJoin(a: string, b: string)
    requires NoComment(a) && NoComment(b) && (a == [] || b == [] || a[|a| - 1] != '/' || b[0] != '/')
    ensures NoComment(a + b)
  {
    var s := a + b;
    forall i | 0 <= i < |s| - 1 ensures !(s[i] == '/' && s[i + 1] == '/') {
      if i < |a| - 1 {
        assert s[i] == a[i] && s[i + 1] == a[i + 1];
      } else if i >= |a| {
        assert s[i] == b[i - |a|] && s[i + 1] == b[i - |a| + 1];
      }
    }
  }

  lemma VersionClean(key: string, version: string)
    requires Tight(key) && '/' !in key && NoComment(version)
    ensures Clean(VersionLine(key, version))
  {
    var before, end := key + " = " + ['"'], ['"'] + ";";
    Bare(before);
    Bare(end);
    NoCommentJoin(before, version);
    NoCommentJoin(before + version, end);
    assert VersionLine(key, version) == before + version + end;
    assert VersionLine(key, version)[0] == key[0];
  }

  lemma PrintClean(x: Description, h: Host)
    requires Good(x, h)
    ensures forall l | l in Print(x) :: Clean(l)
  {
    Braces();
    assert '/' !in "LIN_protocol_version" && '/' !in "LIN_language_version";
    VersionClean("LIN_protocol_version", x.protocolVersion);
    VersionClean("LIN_language_version", x.languageVersion);
    assert Clean(x.speed);
    NodeLinesClean(x.master, x.slaves);
    SignalLinesClean(x.declarations, h);
    hide Clean, VersionLine, NodeLines, SignalLines, FrameLines, TableLines;
    TableLinesClean(x.tables, x.frames, [], h);
    FrameLinesClean(x.frames, ["Schedule_tables {"] + TableLines(x.tables, []));
  }

  /** The parser reads back exactly what a description says from every layout of its lines, and
      the printed text is one of them. */
  lemma DescriptionReadsBack(x: Description, raw: seq<string>, h: Host)
    requires Good(x, h) && WalksMaps(h)
    ensures Layout(raw, Print(x)) ==> ReadAll(NOTHING, Cleaned(raw), h) == Meaning(x)
    ensures Layout(Print(x), Print(x))
  {
    hide ReadAll, Print, Layout, Cleaned, Meaning, WalksMaps, Tight, NoComment;
    PrintClean(x, h);
    assert forall l | l in Print(x) :: Clean(l) ==> Tight(l) && NoComment(l);
    PlainLayout(Print(x));
    LayoutCleans(raw, Print(x));
    PrintReadsBack(x, h);
  }
}
