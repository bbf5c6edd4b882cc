/** How trimming, searching and splitting act on text put together from known pieces. */
module TextLaws {
  import opened Wrappers
  import opened Text

  predicate IsIdChar(c: char) {
    '0' <= c <= '9' || 'a' <= c <= 'z' || 'A' <= c <= 'Z' || c == '_'
  }

  /** A name or a number. */
  predicate Ident(s: string) {
    |s| > 0 && forall c | c in s :: IsIdChar(c)
  }

  /** Nothing to trim. */
  predicate Tight(s: string) {
    |s| > 0 && !IsSpace(s[0]) && !IsSpace(s[|s| - 1])
  }

  function Sep(a: string, c: char, b: string): string {
    a + [c] + b
  }

  function Indented(s: string): string {
    [' '] + s
  }

  lemma IdentFacts(s: string)
    requires Ident(s)
    ensures Tight(s)
    ensures ':' !in s && ',' !in s && ';' !in s && '{' !in s && '}' !in s && ' ' !in s
  {
    assert s[0] in s && s[|s| - 1] in s;
  }

  lemma DecimalIdent(n: nat)
    ensures Ident(Decimal(n))
  {
    DecimalIsDigits(n);
  }

  lemma TrimTight(s: string)
    requires Tight(s)
    ensures Trim(s) == s && Trim(Indented(s)) == s
  {
    var t := Indented(s);
    assert t[0] == ' ' && t[1..] == s;
    assert TrimStart(t) == TrimStart(s);
    assert TrimStart(s) == s;
    assert TrimEnd(s) == s;
  }

  lemma TrimTrailing(s: string)
    requires Tight(s)
    ensures Trim(s + [' ']) == s
  {
    var t := s + [' '];
    assert TrimStart(t) == t;
    assert t[..|t| - 1] == s;
    assert TrimEnd(t) == TrimEnd(s);
    assert TrimEnd(s) == s;
  }

  lemma CutLast(s: string, c: char)
    requires |s| > 0 && s[|s| - 1] != c
    ensures TrimEndOf(s + [c], c) == s && TrimEndOf(s, c) == s
  {
    var t := s + [c];
    assert t[..|t| - 1] == s;
  }

  lemma {:induction false} FindSep(a: string, c: char, b: string)
    requires c !in a
    ensures Find(Sep(a, c, b), c) == Some(|a|)
    ensures Sep(a, c, b)[..|a|] == a && Sep(a, c, b)[|a| + 1..] == b
  {
    if |a| > 0 {
      assert a[0] in a;
      FindSep(a[1..], c, b);
      assert Sep(a, c, b)[1..] == Sep(a[1..], c, b);
    }
  }

  lemma SplitSep(a: string, c: char, b: string)
    requires c !in a
    ensures Split(Sep(a, c, b), c) == [a] + Split(b, c)
    ensures Split(a, c) == [a]
  {
    FindSep(a, c, b);
  }

  lemma SplitNSep(a: string, c: char, b: string, n: nat)
    requires c !in a && n >= 2
    ensures SplitN(Sep(a, c, b), n, c) == [a] + SplitN(b, n - 1, c)
    ensures n == 2 ==> SplitN(Sep(a, c, b), n, c) == [a, b]
    ensures SplitN(a, n, c) == [a]
  {
    FindSep(a, c, b);
  }

  lemma IndentedSep(a: string, c: char, b: string)
    ensures Indented(Sep(a, c, b)) == Sep(Indented(a), c, b)
  {}

  lemma IndentedLacks(a: string, c: char)
    requires c !in a && c != ' '
    ensures c !in Indented(a)
  {}

  lemma SepTight(a: string, c: char, b: string)
    requires |a| > 0 && |b| > 0 && !IsSpace(a[0]) && !IsSpace(b[|b| - 1])
    ensures Tight(Sep(a, c, b)) && Sep(a, c, b)[|Sep(a, c, b)| - 1] == b[|b| - 1]
  {}

  lemma {:induction false} WordOf(a: string, b: string)
    requires Ident(a) && (b == [] || b[0] == ' ')
    ensures FirstWord(a + b) == a
  {
    assert a[0] in a;
    assert (a + b)[1..] == a[1..] + b;
    if |a| > 1 {
      forall c | c in a[1..] ensures IsIdChar(c) { assert c in a; }
      WordOf(a[1..], b);
    }
  }

  lemma WordsSep(a: string, b: string)
    requires Ident(a)
    ensures Words(Sep(a, ' ', b)) == [a] + Words(b)
    ensures Words(a) == [a]
  {
    var s := Sep(a, ' ', b);
    assert a[0] in a;
    WordOf(a, [' '] + b);
    WordOf(a, []);
    assert s == a + ([' '] + b) && a == a + [];
    assert TrimStart(s) == s && s[|a|..] == [' '] + b;
    assert ([' '] + b)[1..] == b && TrimStart([' '] + b) == TrimStart(b);
    assert Words([' '] + b) == Words(b);
    assert a[|a|..] == [];
  }

  // ---------------------------------------------------------------------------
  // Comma-separated names
  // ---------------------------------------------------------------------------

  function Listed(names: seq<string>): string
    requires |names| > 0
  {
    if |names| == 1 then names[0] else Sep(names[0], ',', Indented(Listed(names[1..])))
  }

  lemma {:induction false} ListedEnds(names: seq<string>)
    requires |names| > 0 && forall x | x in names :: Ident(x)
    ensures Tight(Listed(names)) && IsIdChar(Listed(names)[0]) && IsIdChar(Listed(names)[|Listed(names)| - 1])
  {
    assert names[0] in names;
    IdentFacts(names[0]);
    assert names[0][0] in names[0] && names[0][|names[0]| - 1] in names[0];
    if |names| > 1 {
      ListedEnds(names[1..]);
      SepTight(names[0], ',', Indented(Listed(names[1..])));
    }
  }

  lemma {:induction false} ListedReadsBack(names: seq<string>)
    requires |names| > 0 && forall x | x in names :: Ident(x)
    ensures Names(Split(Indented(Listed(names)), ',')) == names
    ensures Names(Split(Listed(names), ',')) == names
  {
    assert names[0] in names;
    IdentFacts(names[0]);
    IndentedLacks(names[0], ',');
    TrimTight(names[0]);
    assert names == [names[0]] + names[1..];
    if |names| == 1 {
      SplitSep(names[0], ',', []);
      SplitSep(Indented(names[0]), ',', []);
    } else {
      var rest := Indented(Listed(names[1..]));
      ListedReadsBack(names[1..]);
      IndentedSep(names[0], ',', rest);
      SplitSep(names[0], ',', rest);
      SplitSep(Indented(names[0]), ',', rest);
      hide Listed, Split, Trim;
      NamesCons(names[0], Split(rest, ','));
      NamesCons(Indented(names[0]), Split(rest, ','));
    }
  }

  lemma NamesCons(x: string, parts: seq<string>)
    ensures Names([x] + parts) == (if Trim(x) == [] then [] else [Trim(x)]) + Names(parts)
  {
    assert ([x] + parts)[1..] == parts;
  }

  // ---------------------------------------------------------------------------
  // What the string operations do to any text
  // ---------------------------------------------------------------------------

  /** White space is these twenty-five characters. */
  lemma SpaceExactly(c: char)
    ensures IsSpace(c) <==> c as int in {
      0x09, 0x0A, 0x0B, 0x0C, 0x0D, 0x20, 0x85, 0xA0, 0x1680, 0x2000, 0x2001, 0x2002, 0x2003, 0x2004, 0x2005, 0x2006,
      0x2007, 0x2008, 0x2009, 0x200A, 0x2028, 0x2029, 0x202F, 0x205F, 0x3000}
  {
    assert ('\U{0009}' as int, '\U{000D}' as int, ' ' as int) == (0x09, 0x0D, 0x20);
    assert ('\U{0085}' as int, '\U{00A0}' as int, '\U{1680}' as int) == (0x85, 0xA0, 0x1680);
    assert ('\U{2000}' as int, '\U{200A}' as int, '\U{3000}' as int) == (0x2000, 0x200A, 0x3000);
    assert ('\U{2028}' as int, '\U{2029}' as int, '\U{202F}' as int, '\U{205F}' as int)
      == (0x2028, 0x2029, 0x202F, 0x205F);
  }

  /** Every trailing c goes, and nothing else. */
  lemma {:induction false} TrimEndOfExactly(s: string, c: char) returns (k: nat)
    ensures k <= |s| && TrimEndOf(s, c) == s[..k]
    ensures (forall i | k <= i < |s| :: s[i] == c) && (k > 0 ==> s[k - 1] != c)
  {
    k := |s|;
    if |s| > 0 && s[|s| - 1] == c {
      k := TrimEndOfExactly(s[..|s| - 1], c);
    }
  }

  function Repeated(p: string, k: nat): string {
    if k == 0 then [] else p + Repeated(p, k - 1)
  }

  /** Every leading p goes, and nothing else. */
  lemma {:induction false} TrimStartOfExactly(s: string, p: string) returns (k: nat)
    requires |p| > 0
    ensures s == Repeated(p, k) + TrimStartOf(s, p) && !(p <= TrimStartOf(s, p))
  {
    k := 0;
    if p <= s {
      var m := TrimStartOfExactly(s[|p|..], p);
      k := m + 1;
      assert s == p + s[|p|..];
    }
  }

  predicate Blank(s: string) {
    forall c | c in s :: IsSpace(c)
  }

  lemma {:induction false} TrimStartBlank(gap: string, s: string)
    requires Blank(gap)
    ensures TrimStart(gap + s) == TrimStart(s)
  {
    if |gap| == 0 {
      assert gap + s == s;
    } else {
      assert gap[0] in gap && (gap + s)[1..] == gap[1..] + s;
      TrimStartBlank(gap[1..], s);
    }
  }

  lemma {:induction false} TrimEndBlank(s: string, b: string)
    requires Blank(b)
    ensures TrimEnd(s + b) == TrimEnd(s)
  {
    if |b| == 0 {
      assert s + b == s;
    } else {
      assert b[|b| - 1] in b && (s + b)[..|s + b| - 1] == s + b[..|b| - 1];
      TrimEndBlank(s, b[..|b| - 1]);
    }
  }

  lemma {:induction false} FirstWordOf(word: string, rest: string)
    requires (forall c | c in word :: !IsSpace(c)) && (rest == [] || IsSpace(rest[0]))
    ensures FirstWord(word + rest) == word
  {
    if |word| == 0 {
      assert word + rest == rest;
    } else {
      assert word[0] in word && (word + rest)[1..] == word[1..] + rest;
      FirstWordOf(word[1..], rest);
    }
  }

  /** Words are what stands between stretches of white space of any kind and length. */
  lemma WordsExactly(gap: string, word: string, rest: string)
    requires Blank(gap) && |word| > 0 && (forall c | c in word :: !IsSpace(c)) && (rest == [] || IsSpace(rest[0]))
    ensures Words(gap + word + rest) == [word] + Words(rest)
    ensures Words(gap) == []
  {
    hide IsSpace;
    var t := word + rest;
    assert gap + word + rest == gap + t && gap + [] == gap;
    TrimStartBlank(gap, t);
    TrimStartBlank(gap, []);
    FirstWordOf(word, rest);
    assert word[0] in word && t[0] == word[0];
    assert TrimStart(t) == t && t[|word|..] == rest;
  }

  /** Only the twenty-six Latin capitals have a lower case. */
  lemma LowerExactly(c: char, i: nat)
    requires i < 26
    ensures Lower("ABCDEFGHIJKLMNOPQRSTUVWXYZ"[i]) == "abcdefghijklmnopqrstuvwxyz"[i]
    ensures c !in "ABCDEFGHIJKLMNOPQRSTUVWXYZ" ==> Lower(c) == c
  {
    if 'A' <= c <= 'Z' {
      assert "ABCDEFGHIJKLMNOPQRSTUVWXYZ"[c as int - 'A' as int] == c;
    }
  }
}
