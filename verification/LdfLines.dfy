/** What the parser makes of any line and any list of lines, well formed or not. */
module LdfLines {
  import opened Word
  import opened Wrappers
  import opened Text
  import opened TextLaws
  import opened LdfParser
  import opened LdfLayout
  import opened LdfPrinter
  import LinFrame

  // ---------------------------------------------------------------------------
  // Trailing semicolons and white space
  // ---------------------------------------------------------------------------

  lemma CutOne(s: string, c: char)
    ensures TrimEndOf(s + [c], c) == TrimEndOf(s, c)
  {
    assert (s + [c])[..|s|] == s;
  }

  lemma {:induction false} RepeatsCut(s: string, c: char, k: nat)
    requires s == [] || s[|s| - 1] != c
    ensures TrimEndOf(s + Repeated([c], k), c) == s
  {
    if k == 0 {
      assert s + [] == s;
    } else {
      RepeatedSnoc([c], k);
      hide TrimEndOf, Repeated;
      var front := Repeated([c], k - 1);
      assert s + (front + [c]) == (s + front) + [c];
      CutOne(s + front, c);
      RepeatsCut(s, c, k - 1);
    }
  }

  lemma {:induction false} RepeatedSnoc(p: string, k: nat)
    requires k > 0
    ensures Repeated(p, k) == Repeated(p, k - 1) + p
  {
    if k > 1 {
      RepeatedSnoc(p, k - 1);
    }
  }

  lemma LastOfPadded(gap: string, t: string, tail: string, c: char)
    requires Blank(tail) && |t| > 0 && t[|t| - 1] != c && !IsSpace(c)
    ensures var s := gap + t + tail; s[|s| - 1] != c
  {
    var s := gap + t + tail;
    if tail == [] {
      assert s[|s| - 1] == t[|t| - 1];
    } else {
      assert s[|s| - 1] == tail[|tail| - 1] && tail[|tail| - 1] in tail;
    }
  }

  lemma TrimPadded(gap: string, t: string, tail: string)
    requires Blank(gap) && Blank(tail) && Tight(t)
    ensures Trim(gap + t + tail) == t
  {
    assert gap + t + tail == gap + (t + tail);
    TrimStartBlank(gap, t + tail);
    assert TrimStart(t + tail) == t + tail;
    TrimEndBlank(t, tail);
    assert TrimEnd(t) == t;
  }

  lemma Unpadded(gap: string, t: string, tail: string, c: char, k: nat)
    requires Blank(gap) && Blank(tail) && Tight(t) && t[|t| - 1] != c && !IsSpace(c)
    ensures Trim(TrimEndOf(gap + t + tail + Repeated([c], k), c)) == t
  {
    LastOfPadded(gap, t, tail, c);
    hide Trim, TrimEndOf, Repeated, Blank;
    RepeatsCut(gap + t + tail, c, k);
    TrimPadded(gap, t, tail);
  }

  /** White space around a statement and any number of semicolons behind it make no difference,
      neither to a line nor to a number in it. */
  lemma StatementPadded(gap: string, t: string, tail: string, k: nat)
    requires Blank(gap) && Blank(tail) && Tight(t) && t[|t| - 1] != ';'
    ensures Statement(gap + t + tail + Repeated(";", k)) == t
    ensures ParseInt(gap + t + tail + Repeated(";", k)) == ParseInt(t)
  {
    Unpadded(gap, t, tail, ';', k);
    Unpadded([], t, [], ';', 0);
    assert [] + t + [] + [] == t;
    hide Trim, TrimEndOf, ParseSigned;
  }

  /** White space around the name of a table and any number of braces behind it make no difference. */
  lemma TablePadded(gap: string, t: string, tail: string, k: nat)
    requires Blank(gap) && Blank(tail) && Tight(t) && t[|t| - 1] != '{'
    ensures TableName(gap + t + tail + Repeated("{", k)) == t
  {
    Unpadded(gap, t, tail, '{', k);
  }

  // ---------------------------------------------------------------------------
  // Which lines declare something
  // ---------------------------------------------------------------------------

  function Count(s: string, c: char): nat {
    if |s| == 0 then 0 else (if s[0] == c then 1 else 0) + Count(s[1..], c)
  }

  lemma {:induction false} CountAppend(s: string, t: string, c: char)
    ensures Count(s + t, c) == Count(s, c) + Count(t, c)
  {
    if |s| == 0 {
      assert s + t == t;
    } else {
      assert (s + t)[1..] == s[1..] + t;
      CountAppend(s[1..], t, c);
    }
  }

  lemma {:induction false} CountNone(s: string, c: char)
    ensures Count(s, c) == 0 <==> c !in s
  {
    if |s| > 0 {
      CountNone(s[1..], c);
    }
  }

  lemma CountSep(a: string, c: char, b: string)
    requires c !in a
    ensures Count(Sep(a, c, b), c) == 1 + Count(b, c)
  {
    CountNone(a, c);
    CountAppend(a, [c], c);
    CountAppend(a + [c], b, c);
    assert Count([c], c) == 1;
  }

  lemma {:induction false} SplitCount(s: string, c: char)
    ensures |Split(s, c)| == 1 + Count(s, c)
    decreases |s|
  {
    match Find(s, c)
    case None => CountNone(s, c);
    case Some(i) =>
      assert s == Sep(s[..i], c, s[i + 1..]);
      CountSep(s[..i], c, s[i + 1..]);
      SplitCount(s[i + 1..], c);
  }

  lemma SplitNAt(s: string, n: nat, c: char, i: nat)
    requires n >= 2 && Find(s, c) == Some(i)
    ensures |SplitN(s, n, c)| == 1 + |SplitN(s[i + 1..], n - 1, c)| && Count(s, c) == 1 + Count(s[i + 1..], c)
  {
    hide Count;
    assert s == Sep(s[..i], c, s[i + 1..]);
    CountSep(s[..i], c, s[i + 1..]);
  }

  lemma {:induction false} SplitNCount(s: string, n: nat, c: char)
    requires n >= 1
    ensures |SplitN(s, n, c)| == if Count(s, c) < n then 1 + Count(s, c) else n
    decreases n
  {
    if n == 1 {
      return;
    }
    hide Count;
    match Find(s, c)
    case None => CountNone(s, c);
    case Some(i) =>
      SplitNAt(s, n, c, i);
      SplitNCount(s[i + 1..], n - 1, c);
      hide SplitN;
  }

  lemma TrimCount(s: string, c: char)
    requires !IsSpace(c)
    ensures Count(Trim(s), c) == Count(s, c)
  {
    var before, after := TrimParts(s);
    assert c !in before && c !in after;
    CountNone(before, c);
    CountNone(after, c);
    hide Trim, Blank, Count;
    CountAppend(before, Trim(s), c);
    CountAppend(before + Trim(s), after, c);
  }

  /** The text has a colon with at least two commas somewhere behind the first one. */
  ghost predicate ThreeFields(s: string) {
    exists a, b :: s == Sep(a, ':', b) && ':' !in a && Count(b, ',') >= 2
  }

  lemma FieldsFound(s: string)
    ensures ThreeFields(s) <==> Find(s, ':').Some? && Count(s[Find(s, ':').value + 1..], ',') >= 2
  {
    if Find(s, ':').Some? {
      var i := Find(s, ':').value;
      assert s == Sep(s[..i], ':', s[i + 1..]);
    }
    forall a, b | s == Sep(a, ':', b) && ':' !in a
      ensures Find(s, ':') == Some(|a|) && s[|a| + 1..] == b
    {
      FindSep(a, ':', b);
    }
  }

  /** A line declares a signal exactly when it has three fields behind a colon, a reference exactly
      when it has a comma, a slot exactly when its second word of at least three is the keyword and
      it does not begin like the diagnostic command, and a frame only with three fields. */
  lemma DeclaringLines(line: string, h: Host)
    ensures SignalOf(line, h).Some? <==> ThreeFields(Statement(line))
    ensures RefOf(line).Some? <==> ',' in Statement(line)
    ensures FrameHeader(line).Some? ==> ThreeFields(TableName(line))
    ensures DelayOf(line, h).Some? <==>
      var s := Statement(line);
      !("AssignFrameId" <= s) && |Words(s)| >= 3 && EqIgnoreAsciiCase(Words(s)[1], "delay")
    ensures DelayOf(line, h).Some? ==>
      var words := Words(Statement(line));
      DelayOf(line, h).value.name == words[0] && (h.parseUint(words[2]) == None ==> DelayOf(line, h).value.ms == 0)
      && (h.parseUint(words[2]).Some? ==> DelayOf(line, h).value.ms == h.parseUint(words[2]).value % 0x1_0000_0000)
  {
    hide Trim, TrimEndOf, ParseInt, Words, EqIgnoreAsciiCase;
    SignalFields(line, h);
    SplitNCount(Statement(line), 2, ',');
    CountNone(Statement(line), ',');
    FrameFields(line);
  }

  lemma SignalFields(line: string, h: Host)
    ensures SignalOf(line, h).Some? <==> ThreeFields(Statement(line))
  {
    hide Trim, ParseInt, Count, ThreeFields, SplitN, Statement;
    var s := Statement(line);
    FieldsFound(s);
    if Find(s, ':').Some? {
      var rest := s[Find(s, ':').value + 1..];
      TrimCount(rest, ',');
      SplitNCount(Trim(rest), 4, ',');
    }
  }

  lemma FrameFields(line: string)
    ensures FrameHeader(line).Some? ==> ThreeFields(TableName(line))
  {
    hide Trim, TrimEndOf, ParseInt, Count, ThreeFields, Split;
    var s := TableName(line);
    FieldsFound(s);
    if Find(s, ':').Some? {
      var rest := s[Find(s, ':').value + 1..];
      TrimCount(rest, ',');
      SplitCount(Trim(rest), ',');
    }
  }

  /** A line opens a table exactly when it ends in a brace, and a frame exactly when there is a
      brace in it and it declares one. */
  lemma OpeningLines(line: string)
    ensures OpensTable(line) <==> exists text: string :: line == text + "{"
    ensures OpensFrame(line) <==> FrameHeader(line).Some? && exists a: string, b: string :: line == a + "{" + b
  {
    hide FrameHeader;
    if OpensTable(line) {
      assert line == line[..|line| - 1] + "{";
    }
    if '{' in line {
      var i :| 0 <= i < |line| && line[i] == '{';
      assert line == line[..i] + "{" + line[i + 1..];
    }
    forall a: string, b: string | line == a + "{" + b ensures '{' in line {
      assert line[|a|] == '{';
    }
  }

  /** A line with fewer than two quotes quotes nothing. */
  lemma NothingQuoted(line: string)
    requires Count(line, '"') < 2
    ensures Quoted(line) == []
  {
    if Find(line, '"').Some? {
      var i := Find(line, '"').value;
      assert line == Sep(line[..i], '"', line[i + 1..]);
      CountSep(line[..i], '"', line[i + 1..]);
      CountNone(line[i + 1..], '"');
    }
  }

  /** The name of a master may stand alone. */
  lemma MasterAlone(master: string)
    requires Ident(master)
    ensures MasterOf("Master:" + Indented(Ended(master))) == master
  {
    IdentFacts(master);
    assert Tight(Ended(master)) && ',' !in Ended(master);
    assert master[|master| - 1] in master;
    hide Trim, TrimEndOf, TrimStartOf, Split, Ident, Indented, Tight;
    KeywordCut("Master:", Ended(master));
    TrimTight(Ended(master));
    SplitSep(Ended(master), ',', []);
    TrimTight(master);
    CutLast(master, ';');
  }

  // ---------------------------------------------------------------------------
  // Where sections and blocks end
  // ---------------------------------------------------------------------------

  /** A body reaches to the first line that is a closing brace, or to the end of the file. */
  lemma {:induction false} BodyExactly(t: seq<string>)
    ensures "}" !in Body(t)
    ensures if "}" in t then t == Body(t) + ["}"] + After(t) else t == Body(t) && After(t) == []
  {
    if |t| > 0 && t[0] != "}" {
      BodyExactly(t[1..]);
      assert t == [t[0]] + t[1..];
    }
  }

  /** In a section of blocks a line that opens none is skipped, a header takes its body with it,
      and the section ends at a closing brace outside a block or at the end of the file. */
  lemma BlocksExactly(line: string, t: seq<string>, opens: string -> bool)
    requires line != "}"
    ensures !opens(line) ==>
      Blocks([line] + t, opens) == Blocks(t, opens) && AfterBlocks([line] + t, opens) == AfterBlocks(t, opens)
    ensures Blocks(["}"] + t, opens) == [] && AfterBlocks(["}"] + t, opens) == t
    ensures Blocks([], opens) == [] && AfterBlocks([], opens) == []
  {
    assert ([line] + t)[1..] == t && (["}"] + t)[1..] == t;
    hide Body, After;
  }

  lemma BlockExactly(header: string, body: seq<string>, rest: seq<string>, opens: string -> bool)
    requires header != "}" && opens(header) && "}" !in body
    ensures Blocks([header] + body, opens) == [Block(header, body)] && AfterBlocks([header] + body, opens) == []
    ensures var t := body + ["}"] + rest;
      && Blocks([header] + t, opens) == [Block(header, body)] + Blocks(rest, opens)
      && AfterBlocks([header] + t, opens) == AfterBlocks(rest, opens)
  {
    var t := body + ["}"] + rest;
    assert ([header] + body)[1..] == body && ([header] + t)[1..] == t;
    BodyExactly(body);
    FirstBrace(body, rest);
    BlocksExactly(header, [], opens);
    hide Body, After;
  }

  lemma {:induction false} FirstBrace(body: seq<string>, rest: seq<string>)
    requires "}" !in body
    ensures Body(body + ["}"] + rest) == body && After(body + ["}"] + rest) == rest
  {
    var t := body + ["}"] + rest;
    if |body| > 0 {
      assert body[0] in body && t[1..] == body[1..] + ["}"] + rest;
      FirstBrace(body[1..], rest);
    } else {
      assert t == ["}"] + rest && t[1..] == rest;
    }
  }

  /** Which section a line starts is decided by how it begins. */
  lemma SectionsExactly(d: Tables, line: string, rest: seq<string>, h: Host)
    ensures var b, r := Opened(rest), ReadSection(d, line, rest, h);
      && ("Nodes" <= line ==> r == (ReadNodes(d, Body(b)), After(b)))
      && ("Signals" <= line ==> r == (d.(signals := Declare(d.signals, Body(b), h)), After(b)))
      && ("Frames" <= line ==> r == (d.(frames := ReadFrames(d.frames, b)), AfterBlocks(b, OpensFrame)))
      && ("Schedule_tables" <= line ==>
            r == (d.(schedules := AddTables(d.schedules, Blocks(b, OpensTable), d.frames, |b|, h)),
                  AfterBlocks(b, OpensTable)))
  {
    hide Quoted, ReadNodes, Declare, ReadFrames, AddTables, Body, After, Blocks, AfterBlocks, Opened;
    if "Nodes" <= line {
      assert line[0] == 'N';
    } else if "Signals" <= line {
      assert line[0] == 'S' && line[1] == 'i';
    } else if "Frames" <= line {
      assert line[0] == 'F';
    } else if "Schedule_tables" <= line {
      assert line[0] == 'S' && line[1] == 'c';
    }
  }

  /** An opening brace may start the line after the one that starts the section. */
  lemma BraceOnItsOwn(d: Tables, line: string, other: string, brace: string, rest: seq<string>, h: Host)
    requires "{" <= brace && (|rest| > 0 ==> !("{" <= rest[0]))
    requires || ("Nodes" <= line && "Nodes" <= other) || ("Signals" <= line && "Signals" <= other)
             || ("Frames" <= line && "Frames" <= other) || ("Schedule_tables" <= line && "Schedule_tables" <= other)
    ensures ReadSection(d, line, [brace] + rest, h) == ReadSection(d, other, rest, h)
  {
    assert ([brace] + rest)[1..] == rest;
    assert Opened([brace] + rest) == rest && Opened(rest) == rest;
    SectionsExactly(d, line, [brace] + rest, h);
    SectionsExactly(d, other, rest, h);
    hide ReadSection, Opened, ReadNodes, Declare, ReadFrames, AddTables, Body, After, Blocks, AfterBlocks;
  }

  /** A line that starts no section and sets no value is skipped. */
  lemma UnknownLine(d: Tables, line: string, t: seq<string>, h: Host)
    requires !("LIN_protocol_version" <= line) && !("LIN_language_version" <= line) && !("LIN_speed" <= line)
    requires !("Nodes" <= line) && !("Signals" <= line) && !("Frames" <= line) && !("Schedule_tables" <= line)
    ensures ReadAll(d, [line] + t, h) == ReadAll(d, t, h)
  {
    assert ([line] + t)[1..] == t;
    hide ReadNodes, Declare, ReadFrames, AddTables, Body, After, Blocks, AfterBlocks;
  }

  lemma RefsCons(line: string, rest: seq<string>)
    ensures Refs([line] + rest) == RefsIn(line) + Refs(rest)
  {
    assert ([line] + rest)[1..] == rest;
  }

  /** The references of a frame are those of all its lines that hold one, in order. */
  lemma {:induction false} RefsExactly(a: seq<string>, line: string, b: seq<string>)
    ensures Refs(a + [line] + b) == Refs(a) + (match RefOf(line) case None => [] case Some(r) => [r]) + Refs(b)
    decreases |a|
  {
    hide RefOf;
    if |a| == 0 {
      assert a + [line] + b == [line] + b;
      RefsCons(line, b);
      assert [] + RefsIn(line) == RefsIn(line);
    } else {
      assert a == [a[0]] + a[1..];
      assert a + [line] + b == [a[0]] + (a[1..] + [line] + b);
      RefsCons(a[0], a[1..] + [line] + b);
      RefsCons(a[0], a[1..]);
      RefsExactly(a[1..], line, b);
      Regroup(RefsIn(a[0]), Refs(a[1..]), RefsIn(line), Refs(b));
    }
  }

  lemma Regroup<T>(a: seq<T>, b: seq<T>, c: seq<T>, d: seq<T>)
    ensures a + (b + c + d) == a + b + c + d
  {}

  // ---------------------------------------------------------------------------
  // Nodes and schedule entries
  // ---------------------------------------------------------------------------

  /** The last line that names a master decides, if any. */
  function LastMaster(body: seq<string>, before: string): string {
    if |body| == 0 then before
    else if "Master:" <= body[|body| - 1] then MasterOf(body[|body| - 1])
    else LastMaster(body[..|body| - 1], before)
  }

  /** The slaves of all the lines that name some. */
  function AllSlaves(body: seq<string>): seq<string> {
    if |body| == 0 then []
    else AllSlaves(body[..|body| - 1]) + if "Slaves:" <= body[|body| - 1] then SlavesOf(body[|body| - 1]) else []
  }

  lemma {:induction false} ReadNodesSnoc(d: Tables, body: seq<string>, line: string)
    ensures ReadNodes(d, body + [line]) == ReadNode(ReadNodes(d, body), line)
    decreases |body|
  {
    hide ReadNode;
    if |body| == 0 {
      assert [] + [line] == [line] && [line][1..] == [];
    } else {
      assert (body + [line])[1..] == body[1..] + [line];
      ReadNodesSnoc(ReadNode(d, body[0]), body[1..], line);
    }
  }

  lemma {:induction false} NodesExactly(d: Tables, body: seq<string>)
    ensures ReadNodes(d, body)
      == d.(masterNode := LastMaster(body, d.masterNode), slaveNodes := d.slaveNodes + AllSlaves(body))
  {
    hide MasterOf, SlavesOf;
    if |body| > 0 {
      var front, line := body[..|body| - 1], body[|body| - 1];
      assert body == front + [line];
      ReadNodesSnoc(d, front, line);
      NodesExactly(d, front);
      MasterOrSlaves(line);
    }
  }

  lemma MasterOrSlaves(line: string)
    ensures "Master:" <= line ==> !("Slaves:" <= line)
  {
    if "Master:" <= line {
      assert line[0] == 'M';
    }
  }

  /** A slot line gives one entry, for a frame of that name whose id a bus accepts; it gives none
      when no frame has the name or the one found has a larger id. */
  lemma EntryExactly(line: string, frames: map<u8, Frame>, section: nat, h: Host)
    requires WalksMaps(h)
    ensures DelayOf(line, h).None? ==> EntryOf(line, frames, section, h) == []
    ensures DelayOf(line, h).Some? ==>
      var d, entry := DelayOf(line, h).value, EntryOf(line, frames, section, h);
      || (exists id: u8 ::
            id in frames && frames[id].name == d.name && id <= 0x3F && entry == [ScheduleEntry(id, d.ms)])
      || (exists id: u8 :: id in frames && frames[id].name == d.name && id > 0x3F && entry == [])
      || (entry == [] && forall id: u8 | id in frames :: frames[id].name != d.name)
  {
    hide DelayOf, FirstNamed;
    if DelayOf(line, h).Some? {
      LookupFinds(h.order(section, frames), frames, DelayOf(line, h).value.name);
    }
  }
}
