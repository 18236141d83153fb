/** Worked examples: small documents, the books they parse to, and the quote picked from one. */
module TaoBotExamples {
  import opened Wrappers
  import opened PyStr
  import opened TaoBot
  import opened TaoBotProperties

  /** A text line `text + "\n"` as `readlines` returns it is read as its text. */
  lemma TextLineRead(text: string)
    requires Trimmed(text) && text[0] != '#'
    ensures Classify(text + "\n") == Text(text)
  {
    var line := text + "\n";
    assert line[0] == text[0];
    assert !SectionHeader(line) by {
      if |line| >= 3 { assert line[..3][0] == line[0]; }
    }
    assert !ChapterHeader(line) by {
      if |line| >= 4 { assert line[..4][0] == line[0]; }
    }
    assert line == "" + text + "\n";
    StripPadded("", text, "\n");
  }

  /** `strip` after `lstrip("#")` of `marks + " " + name + "\n"` is `name`. */
  lemma HeadingNameRead(marks: string, name: string)
    requires forall k :: 0 <= k < |marks| ==> marks[k] == '#'
    requires Trimmed(name)
    ensures HeadingName(marks + " " + name + "\n") == name
  {
    var rest := " " + name + "\n";
    assert marks + " " + name + "\n" == marks + rest;
    assert rest[0] == ' ';
    LStripPrefix(marks, rest, {'#'});
    StripPadded(" ", name, "\n");
  }

  /** A section heading line `"## " + name + "\n"` opens section `name`. */
  lemma SectionLineRead(name: string)
    requires Trimmed(name)
    ensures Classify("## " + name + "\n") == SectionHeading(name)
  {
    var line := "## " + name + "\n";
    assert line[..3] == "## ";
    assert line == "##" + " " + name + "\n";
    HeadingNameRead("##", name);
  }

  /** A chapter heading line `"### " + name + "\n"` opens chapter `name`. */
  lemma ChapterLineRead(name: string)
    requires Trimmed(name)
    ensures Classify("### " + name + "\n") == ChapterHeading(name)
  {
    var line := "### " + name + "\n";
    assert line[..4] == "### ";
    assert line[2] == '#';
    assert line == "###" + " " + name + "\n";
    HeadingNameRead("###", name);
  }

  /** A line holding only the newline is read as empty text. */
  lemma BlankLineRead()
    ensures Classify("\n") == Text("")
  {
    assert "\n"[0] in Whitespace;
  }

  /** A line whose parse step succeeds is consumed before the rest. */
  lemma RunStep(st: State, k: Line, rest: seq<Line>, next: State)
    requires Valid(st) && Apply(st, k) == Success(next)
    ensures Valid(next)
    ensures Run(st, [k] + rest) == Run(next, rest)
  {
    assert ([k] + rest)[0] == k;
    assert ([k] + rest)[1..] == rest;
  }

  /** Opening the first section of an empty book. */
  lemma FirstSectionStep(s: string)
    ensures Apply(Start, SectionHeading(s)) == Success(State(map[s := map[]], Some(s), None, []))
  {
    assert Start.book[s := map[]] == map[s := map[]];
  }

  /** Opening the first chapter of a fresh section. */
  lemma FirstChapterStep(s: string, c: string)
    requires s != ""
    ensures Apply(State(map[s := map[]], Some(s), None, []), ChapterHeading(c))
         == Success(State(map[s := map[c := []]], Some(s), Some(c), []))
  {
    var b0: Book := map[s := map[]];
    assert b0[s := b0[s][c := []]] == map[s := map[c := []]];
  }

  /** Flushing the buffer into a chapter of the only section. */
  lemma FlushStep(s: string, c: string, ps: seq<string>, phrase: seq<string>, p: string)
    requires s != "" && c != "" && phrase != [] && Join("\n", phrase) == p
    ensures Apply(State(map[s := map[c := ps]], Some(s), Some(c), phrase), Text(""))
         == Success(State(map[s := map[c := ps + [p]]], Some(s), Some(c), []))
  {
    var b0: Book := map[s := map[c := ps]];
    var inner: Chapters := map[c := ps];
    assert inner[c := ps + [p]] == map[c := ps + [p]];
    assert b0[s := map[c := ps + [p]]] == map[s := map[c := ps + [p]]];
  }

  /** Buffering a line of text in an open chapter of the only section. */
  lemma BufferStep(s: string, c: string, ps: seq<string>, phrase: seq<string>, t: string)
    requires s != "" && c != "" && t != ""
    ensures Apply(State(map[s := map[c := ps]], Some(s), Some(c), phrase), Text(t))
         == Success(State(map[s := map[c := ps]], Some(s), Some(c), phrase + [t]))
  {
  }

  /** A one-line passage closed by an empty line is added after the passages already read. */
  lemma OneLinePassageRun(s: string, c: string, ps: seq<string>, d: string)
    requires s != "" && c != "" && d != ""
    ensures Run(State(map[s := map[c := ps]], Some(s), Some(c), []), [Text(d), Text("")])
         == Success(State(map[s := map[c := ps + [d]]], Some(s), Some(c), []))
  {
    var st := State(map[s := map[c := ps]], Some(s), Some(c), []);
    var last := State(map[s := map[c := ps + [d]]], Some(s), Some(c), []);
    assert [] + [d] == [d];
    BufferStep(s, c, ps, [], d);
    FlushStep(s, c, ps, [d], d);
    RunStep(st.(phrase := [d]), Text(""), [], last);
    RunStep(st, Text(d), [Text("")], st.(phrase := [d]));
    assert Run(last, []) == Success(last);
  }

  /**
   * One section, one chapter, two passages each closed by an empty line:
   * the chapter holds the two passages, the first of them two lines long.
   */
  lemma TwoPassagesRun(s: string, c: string, a: string, b: string, d: string)
    requires s != "" && c != ""
    requires a != "" && b != "" && d != ""
    ensures Run(Start, [SectionHeading(s), ChapterHeading(c), Text(a), Text(b), Text(""), Text(d), Text("")])
         == Success(State(map[s := map[c := [a + "\n" + b, d]]], Some(s), Some(c), []))
  {
    var p1 := a + "\n" + b;
    var st1 := State(map[s := map[]], Some(s), None, []);
    var st2 := State(map[s := map[c := []]], Some(s), Some(c), []);
    var st5 := State(map[s := map[c := [p1]]], Some(s), Some(c), []);
    assert Join("\n", [a, b]) == p1 by {
      assert [a, b][..1] == [a];
    }
    assert [] + [a] == [a];
    assert [a] + [b] == [a, b];
    assert [] + [p1] == [p1];
    assert [p1] + [d] == [p1, d];
    FirstSectionStep(s);
    FirstChapterStep(s, c);
    BufferStep(s, c, [], [], a);
    BufferStep(s, c, [], [a], b);
    FlushStep(s, c, [], [a, b], p1);
    OneLinePassageRun(s, c, [p1], d);
    RunStep(st2.(phrase := [a, b]), Text(""), [Text(d), Text("")], st5);
    RunStep(st2.(phrase := [a]), Text(b), [Text(""), Text(d), Text("")], st2.(phrase := [a, b]));
    RunStep(st2, Text(a), [Text(b), Text(""), Text(d), Text("")], st2.(phrase := [a]));
    RunStep(st1, ChapterHeading(c), [Text(a), Text(b), Text(""), Text(d), Text("")], st2);
    RunStep(Start, SectionHeading(s), [ChapterHeading(c), Text(a), Text(b), Text(""), Text(d), Text("")], st1);
  }

  /** The worked document: two passages, the second not closed by an empty line. */
  function WorkedDocument(s: string, c: string, a: string, b: string, d: string): (lines: seq<string>)
    ensures |lines| == 6
  {
    ["## " + s + "\n", "### " + c + "\n", a + "\n", b + "\n", "\n", d + "\n"]
  }

  /** A section heading line of a file is read as that heading. */
  lemma ReadSectionLine(lines: seq<string>, i: nat, name: string)
    requires i < |lines| && lines[i] == "## " + name + "\n" && Trimmed(name)
    ensures Read(lines)[i] == SectionHeading(name)
  {
    ReadAt(lines, i);
    SectionLineRead(name);
  }

  /** A chapter heading line of a file is read as that heading. */
  lemma ReadChapterLine(lines: seq<string>, i: nat, name: string)
    requires i < |lines| && lines[i] == "### " + name + "\n" && Trimmed(name)
    ensures Read(lines)[i] == ChapterHeading(name)
  {
    ReadAt(lines, i);
    ChapterLineRead(name);
  }

  /** A text line of a file is read as its text. */
  lemma ReadTextLine(lines: seq<string>, i: nat, text: string)
    requires i < |lines| && lines[i] == text + "\n" && Trimmed(text) && text[0] != '#'
    ensures Read(lines)[i] == Text(text)
  {
    ReadAt(lines, i);
    TextLineRead(text);
  }

  /** An empty line of a file is read as empty text. */
  lemma ReadBlankLine(lines: seq<string>, i: nat)
    requires i < |lines| && lines[i] == "\n"
    ensures Read(lines)[i] == Text("")
  {
    ReadAt(lines, i);
    BlankLineRead();
  }

  /** The two heading lines that open the worked document. */
  lemma HeadingLinesRead(lines: seq<string>, s: string, c: string)
    requires Trimmed(s) && Trimmed(c)
    requires |lines| == 2 && lines[0] == "## " + s + "\n" && lines[1] == "### " + c + "\n"
    ensures Read(lines) == [SectionHeading(s), ChapterHeading(c)]
  {
    ReadSectionLine(lines, 0, s);
    ReadChapterLine(lines, 1, c);
  }

  /** Two text lines in a row. */
  lemma TextLinesRead(lines: seq<string>, a: string, b: string)
    requires Trimmed(a) && Trimmed(b) && a[0] != '#' && b[0] != '#'
    requires |lines| == 2 && lines[0] == a + "\n" && lines[1] == b + "\n"
    ensures Read(lines) == [Text(a), Text(b)]
  {
    ReadTextLine(lines, 0, a);
    ReadTextLine(lines, 1, b);
  }

  /** An empty line followed by a text line. */
  lemma BlankThenTextRead(lines: seq<string>, d: string)
    requires Trimmed(d) && d[0] != '#'
    requires |lines| == 2 && lines[0] == "\n" && lines[1] == d + "\n"
    ensures Read(lines) == [Text(""), Text(d)]
  {
    ReadBlankLine(lines, 0);
    ReadTextLine(lines, 1, d);
  }

  /** Reading a file in three pieces. */
  lemma ReadPieces(h: seq<string>, t: seq<string>, e: seq<string>, kh: seq<Line>, kt: seq<Line>, ke: seq<Line>)
    requires Read(h) == kh && Read(t) == kt && Read(e) == ke
    ensures Read(h + t + e) == kh + kt + ke
  {
    ReadAppend(h, t);
    ReadAppend(h + t, e);
  }

  /** How the loop reads the lines of the worked document, two at a time. */
  lemma WorkedDocumentRead(h: seq<string>, t: seq<string>, e: seq<string>, s: string, c: string, a: string, b: string, d: string)
    requires Trimmed(s) && Trimmed(c)
    requires Trimmed(a) && Trimmed(b) && Trimmed(d)
    requires a[0] != '#' && b[0] != '#' && d[0] != '#'
    requires |h| == 2 && h[0] == "## " + s + "\n" && h[1] == "### " + c + "\n"
    requires |t| == 2 && t[0] == a + "\n" && t[1] == b + "\n"
    requires |e| == 2 && e[0] == "\n" && e[1] == d + "\n"
    ensures Read(h + t + e) == [SectionHeading(s), ChapterHeading(c), Text(a), Text(b), Text(""), Text(d)]
  {
    HeadingLinesRead(h, s, c);
    TextLinesRead(t, a, b);
    BlankThenTextRead(e, d);
    ReadPieces(h, t, e, [SectionHeading(s), ChapterHeading(c)], [Text(a), Text(b)], [Text(""), Text(d)]);
  }

  /** The run over the worked document ends with the second passage still buffered. */
  lemma WorkedDocumentRun(s: string, c: string, a: string, b: string, d: string)
    requires s != "" && c != ""
    requires a != "" && b != "" && d != ""
    ensures Run(Start, [SectionHeading(s), ChapterHeading(c), Text(a), Text(b), Text(""), Text(d)])
         == Success(State(map[s := map[c := [a + "\n" + b]]], Some(s), Some(c), [d]))
  {
    var p1 := a + "\n" + b;
    var st1 := State(map[s := map[]], Some(s), None, []);
    var st2 := State(map[s := map[c := []]], Some(s), Some(c), []);
    var st5 := State(map[s := map[c := [p1]]], Some(s), Some(c), []);
    assert Join("\n", [a, b]) == p1 by {
      assert [a, b][..1] == [a];
    }
    assert [] + [a] == [a];
    assert [a] + [b] == [a, b];
    assert [] + [p1] == [p1];
    assert [] + [d] == [d];
    FirstSectionStep(s);
    FirstChapterStep(s, c);
    BufferStep(s, c, [], [], a);
    BufferStep(s, c, [], [a], b);
    FlushStep(s, c, [], [a, b], p1);
    BufferStep(s, c, [p1], [], d);
    RunStep(st5, Text(d), [], st5.(phrase := [d]));
    assert Run(st5.(phrase := [d]), []) == Success(st5.(phrase := [d]));
    RunStep(st2.(phrase := [a, b]), Text(""), [Text(d)], st5);
    RunStep(st2.(phrase := [a]), Text(b), [Text(""), Text(d)], st2.(phrase := [a, b]));
    RunStep(st2, Text(a), [Text(b), Text(""), Text(d)], st2.(phrase := [a]));
    RunStep(st1, ChapterHeading(c), [Text(a), Text(b), Text(""), Text(d)], st2);
    RunStep(Start, SectionHeading(s), [ChapterHeading(c), Text(a), Text(b), Text(""), Text(d)], st1);
  }

  /**
   * Parsing the worked document: the chapter holds the first passage, its two
   * lines joined with a newline, and the last line, never followed by an empty
   * line, is dropped.
   */
  lemma WorkedDocumentParsed(s: string, c: string, a: string, b: string, d: string)
    requires Trimmed(s) && Trimmed(c)
    requires Trimmed(a) && Trimmed(b) && Trimmed(d)
    requires a[0] != '#' && b[0] != '#' && d[0] != '#'
    ensures Parse(WorkedDocument(s, c, a, b, d)) == Success(map[s := map[c := [a + "\n" + b]]])
  {
    var h, t, e := ["## " + s + "\n", "### " + c + "\n"], [a + "\n", b + "\n"], ["\n", d + "\n"];
    assert WorkedDocument(s, c, a, b, d) == h + t + e;
    WorkedDocumentRead(h, t, e, s, c, a, b, d);
    WorkedDocumentRun(s, c, a, b, d);
  }

  /** The quote drawn from that chapter: its title and its two passages separated by a blank line. */
  lemma TwoPassagesQuoted(s: string, c: string, a: string, b: string, d: string)
    ensures RandomPhrase(map[s := map[c := [a + "\n" + b, d]]], s, c)
         == Success(Quote(s + " - Chapter " + c, a + "\n" + b + "\n\n" + d))
  {
    var book := map[s := map[c := [a + "\n" + b, d]]];
    var ps := [a + "\n" + b, d];
    assert ps[..1] == [a + "\n" + b];
    assert Join("\n\n", ps) == a + "\n" + b + "\n\n" + d;
    assert book != map[] by { assert s in book; }
    assert book[s] != map[] by { assert c in book[s]; }
  }

  /**
   * A line read under one chapter and not yet flushed when the next chapter
   * heading comes is flushed into the next chapter; the first stays empty.
   */
  lemma CarriedRun(s: string, c1: string, c2: string, a: string)
    requires s != "" && c1 != "" && c2 != ""
    requires c1 != c2 && a != ""
    ensures Run(Start, [SectionHeading(s), ChapterHeading(c1), Text(a), ChapterHeading(c2), Text("")])
         == Success(State(map[s := map[c1 := [], c2 := [a]]], Some(s), Some(c2), []))
  {
    var st1 := State(map[s := map[]], Some(s), None, []);
    var st2 := State(map[s := map[c1 := []]], Some(s), Some(c1), []);
    var st3 := st2.(phrase := [a]);
    var b4: Book := map[s := map[c1 := [], c2 := []]];
    var st4 := State(b4, Some(s), Some(c2), [a]);
    var st5 := State(map[s := map[c1 := [], c2 := [a]]], Some(s), Some(c2), []);
    assert [] + [a] == [a];
    FirstSectionStep(s);
    FirstChapterStep(s, c1);
    BufferStep(s, c1, [], [], a);
    assert Apply(st3, ChapterHeading(c2)) == Success(st4) by {
      var inner: Chapters := map[c1 := []];
      assert inner[c2 := []] == map[c1 := [], c2 := []];
      assert st3.book[s := inner[c2 := []]] == b4;
    }
    assert Apply(st4, Text("")) == Success(st5) by {
      assert Join("\n", [a]) == a;
      var inner: Chapters := map[c1 := [], c2 := []];
      assert inner[c2 := [] + [a]] == map[c1 := [], c2 := [a]];
      assert b4[s := inner[c2 := [] + [a]]] == map[s := map[c1 := [], c2 := [a]]];
    }
    RunStep(st4, Text(""), [], st5);
    RunStep(st3, ChapterHeading(c2), [Text("")], st4);
    RunStep(st2, Text(a), [ChapterHeading(c2), Text("")], st3);
    RunStep(st1, ChapterHeading(c1), [Text(a), ChapterHeading(c2), Text("")], st2);
    RunStep(Start, SectionHeading(s), [ChapterHeading(c1), Text(a), ChapterHeading(c2), Text("")], st1);
    assert Run(st5, []) == Success(st5);
  }
}
