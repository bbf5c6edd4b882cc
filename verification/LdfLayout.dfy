/** Which texts clean to given lines: white space around a line, a comment behind it, and blank
    or comment-only lines in between make no difference, and nothing else cleans away. */
module LdfLayout {
  import opened Text
  import opened TextLaws
  import opened LdfParser

  /** No two slashes in a row. */
  predicate NoComment(s: string) {
    forall i | 0 <= i < |s| - 1 :: !(s[i] == '/' && s[i + 1] == '/')
  }

  /** Nothing, or a comment that really starts here: the text before does not end in a slash. */
  predicate Tail(text: string, tail: string) {
    tail == [] || ("//" <= tail && (text == [] || text[|text| - 1] != '/'))
  }

  /** A raw line that shows the given one. */
  predicate Shows(raw: string, before: string, line: string, after: string, tail: string) {
    var text := before + line + after;
    raw == text + tail && Blank(before) && Blank(after) && NoComment(text) && Tail(text, tail)
  }

  ghost predicate Decorated(raw: string, line: string) {
    exists before, after, tail :: Shows(raw, before, line, after, tail)
  }

  /** The raw lines show the given lines, in order, with raw lines that show nothing anywhere. */
  ghost predicate Layout(raw: seq<string>, lines: seq<string>) {
    if |raw| == 0 then lines == []
    else
      var front, r := raw[..|raw| - 1], raw[|raw| - 1];
      || (Decorated(r, []) && Layout(front, lines))
      || (|lines| > 0 && Decorated(r, lines[|lines| - 1]) && Layout(front, lines[..|lines| - 1]))
  }

  // ---------------------------------------------------------------------------
  // One line
  // ---------------------------------------------------------------------------

  lemma {:induction false} BeforeTail(text: string, tail: string)
    requires NoComment(text) && Tail(text, tail)
    ensures BeforeComment(text + tail) == text
  {
    var s := text + tail;
    if |text| == 0 {
      assert s == tail;
    } else {
      assert s[1..] == text[1..] + tail && s[0] == text[0];
      assert |text| > 1 ==> s[1] == text[1];
      BeforeTail(text[1..], tail);
    }
  }

  lemma {:induction false} TailOf(raw: string) returns (tail: string)
    ensures raw == BeforeComment(raw) + tail && NoComment(BeforeComment(raw)) && Tail(BeforeComment(raw), tail)
  {
    if |raw| == 0 || "//" <= raw {
      tail := raw;
    } else {
      tail := TailOf(raw[1..]);
      var b := BeforeComment(raw[1..]);
      assert BeforeComment(raw) == [raw[0]] + b;
      assert raw[1..] == b + tail;
      if |b| == 0 && tail != [] {
        assert raw[1] == '/';
      }
      assert |b| > 0 ==> raw[1] == b[0];
    }
  }

  lemma {:induction false} StartOf(s: string) returns (before: string)
    ensures Blank(before) && s == before + TrimStart(s)
    ensures TrimStart(s) == [] || !IsSpace(TrimStart(s)[0])
  {
    if |s| > 0 && IsSpace(s[0]) {
      var b := StartOf(s[1..]);
      before := [s[0]] + b;
    } else {
      before := [];
    }
  }

  lemma {:induction false} EndOf(s: string) returns (after: string)
    ensures Blank(after) && s == TrimEnd(s) + after
    ensures TrimEnd(s) == [] || (!IsSpace(TrimEnd(s)[|TrimEnd(s)| - 1]) && TrimEnd(s)[0] == s[0])
  {
    if |s| > 0 && IsSpace(s[|s| - 1]) {
      var a := EndOf(s[..|s| - 1]);
      after := a + [s[|s| - 1]];
      assert s == TrimEnd(s) + after;
    } else {
      after := [];
    }
  }

  /** A decorated line cleans to the line it shows. */
  lemma DecoratedCleans(raw: string, line: string)
    requires Decorated(raw, line) && (line == [] || Tight(line))
    ensures Trim(BeforeComment(raw)) == line
  {
    var before, after, tail :| Shows(raw, before, line, after, tail);
    BeforeTail(before + line + after, tail);
    assert before + line + after == before + (line + after);
    TrimStartBlank(before, line + after);
    if line == [] {
      assert line + after == after && after == after + [] && [] + after == after;
      TrimStartBlank(after, []);
    } else {
      assert TrimStart(line + after) == line + after;
      TrimEndBlank(line, after);
    }
  }

  lemma TrimParts(text: string) returns (before: string, after: string)
    ensures text == before + Trim(text) + after && Blank(before) && Blank(after)
    ensures Trim(text) == [] || Tight(Trim(text))
  {
    hide Blank, TrimStart, TrimEnd;
    before := StartOf(text);
    after := EndOf(TrimStart(text));
    var line := Trim(text);
    assert text == before + (line + after) == before + line + after;
  }

  /** And every raw line shows what it cleans to. */
  lemma CleanedShows(raw: string)
    ensures var line := Trim(BeforeComment(raw)); Decorated(raw, line) && (line == [] || Tight(line))
  {
    hide Trim, BeforeComment, Blank, NoComment, Tail, Tight;
    var tail := TailOf(raw);
    var before, after := TrimParts(BeforeComment(raw));
    assert Shows(raw, before, Trim(BeforeComment(raw)), after, tail);
  }

  // ---------------------------------------------------------------------------
  // Whole texts
  // ---------------------------------------------------------------------------

  /** A text cleans to the given lines exactly when it is a layout of them. */
  lemma {:induction false} LayoutCleans(raw: seq<string>, lines: seq<string>)
    requires forall l | l in lines :: Tight(l)
    ensures Cleaned(raw) == lines <==> Layout(raw, lines)
    decreases |raw|
  {
    if |raw| > 0 {
      var front, r := raw[..|raw| - 1], raw[|raw| - 1];
      var shown := Trim(BeforeComment(r));
      hide Decorated, Trim, BeforeComment, Tight;
      CleanedShows(r);
      LayoutCleans(front, lines);
      if Decorated(r, []) {
        DecoratedCleans(r, []);
      }
      if |lines| > 0 {
        var last := lines[|lines| - 1];
        assert last in lines && lines == lines[..|lines| - 1] + [last];
        forall l | l in lines[..|lines| - 1] ensures Tight(l) { assert l in lines; }
        LayoutCleans(front, lines[..|lines| - 1]);
        if Decorated(r, last) {
          DecoratedCleans(r, last);
          NotBlank(last);
        }
      }
    }
  }

  lemma NotBlank(line: string)
    requires Tight(line)
    ensures line != []
  {}

  /** A text that needs no cleaning is a layout of itself. */
  lemma {:induction false} PlainLayout(lines: seq<string>)
    requires forall l | l in lines :: NoComment(l)
    ensures Layout(lines, lines)
  {
    if |lines| > 0 {
      var front, last := lines[..|lines| - 1], lines[|lines| - 1];
      assert last in lines && [] + last + [] == last;
      assert Shows(last, [], last, [], []);
      PlainLayout(front);
    }
  }
}
