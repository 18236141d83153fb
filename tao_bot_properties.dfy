/** What the parse loop and the quote selection guarantee, proved about the model. */
module TaoBotProperties {
  import opened Wrappers
  import opened PyStr
  import opened TaoBot

  // ----- The book only grows -----

  /** Opening a new section only adds to the book. */
  lemma ExtendsBySection(b: Book, name: string)
    requires name !in b
    ensures Extends(b, b[name := map[]])
  {
  }

  /** Opening a new chapter only adds to the book. */
  lemma ExtendsByChapter(b: Book, s: string, name: string)
    requires s in b && name !in b[s]
    ensures Extends(b, b[s := b[s][name := []]])
  {
  }

  /** Recording a passage only adds to the book. */
  lemma ExtendsByPassage(b: Book, s: string, c: string, passage: string)
    requires s in b && c in b[s]
    ensures Extends(b, b[s := b[s][c := b[s][c] + [passage]]])
  {
    var b' := b[s := b[s][c := b[s][c] + [passage]]];
    forall s0 | s0 in b
      ensures s0 in b' && b[s0].Keys <= b'[s0].Keys
      ensures forall c0 :: c0 in b[s0] ==> b[s0][c0] <= b'[s0][c0]
    {
      if s0 == s {
        forall c0 | c0 in b[s0] ensures b[s0][c0] <= b'[s0][c0] {
          if c0 == c {
            assert b'[s0][c0] == b[s][c] + [passage];
          }
        }
      }
    }
  }

  /** A line only adds to the book: sections, chapters and passages already there stay. */
  lemma ApplyExtends(st: State, k: Line)
    requires Valid(st)
    ensures Apply(st, k).Success? ==> Extends(st.book, Apply(st, k).value.book)
  {
    var b := st.book;
    match k
    case SectionHeading(name) =>
      if name !in b { ExtendsBySection(b, name); }
    case ChapterHeading(name) =>
      if Truthy(st.section) && name !in b[st.section.value] {
        ExtendsByChapter(b, st.section.value, name);
      }
    case Text(text) =>
      if Truthy(st.section) && Truthy(st.chapter) && text == "" && st.phrase != [] {
        ExtendsByPassage(b, st.section.value, st.chapter.value, Join("\n", st.phrase));
      }
  }

  /** Extends is transitive. */
  lemma ExtendsTrans(b1: Book, b2: Book, b3: Book)
    requires Extends(b1, b2) && Extends(b2, b3)
    ensures Extends(b1, b3)
  {
  }

  /** A whole run only adds to the book it starts from. */
  lemma {:induction false} RunExtends(st: State, ks: seq<Line>)
    requires Valid(st)
    ensures Run(st, ks).Success? ==> Extends(st.book, Run(st, ks).value.book)
    decreases |ks|
  {
    if ks != [] && Apply(st, ks[0]).Success? {
      var next := Apply(st, ks[0]).value;
      ApplyExtends(st, ks[0]);
      RunExtends(next, ks[1..]);
      if Run(next, ks[1..]).Success? {
        ExtendsTrans(st.book, next.book, Run(next, ks[1..]).value.book);
      }
    }
  }

  /** Parsing only adds: the book after any prefix of the lines is extended by the final book. */
  lemma ParseExtendsPrefix(lines: seq<string>, k: nat)
    requires k <= |lines| && Parse(lines).Success?
    ensures After(lines, k).Success? && Extends(After(lines, k).value.book, Parse(lines).value)
  {
    ParseThrough(lines, k);
    RunExtends(After(lines, k).value, Read(lines)[k..]);
  }

  // ----- Splitting a run -----

  /** Running over `a + b` is running over `a`, then over `b` from where `a` left off. */
  lemma {:induction false} RunAppend(st: State, a: seq<Line>, b: seq<Line>)
    requires Valid(st)
    ensures Run(st, a + b) == match Run(st, a)
                              case Failure(e) => Failure(e)
                              case Success(mid) => Run(mid, b)
    decreases |a|
  {
    if a == [] {
      assert a + b == b;
    } else {
      assert (a + b)[0] == a[0];
      assert (a + b)[1..] == a[1..] + b;
      var r := Apply(st, a[0]);
      if r.Success? {
        RunAppend(r.value, a[1..], b);
      }
    }
  }

  /** Running `ks` is running its first `k` lines, then the rest. */
  lemma RunSplit(st: State, ks: seq<Line>, k: nat)
    requires Valid(st) && k <= |ks|
    ensures Run(st, ks) == match Run(st, ks[..k])
                           case Failure(e) => Failure(e)
                           case Success(mid) => Run(mid, ks[k..])
  {
    assert ks == ks[..k] + ks[k..];
    RunAppend(st, ks[..k], ks[k..]);
  }

  /** The state after the first `k` lines: the loop's variables when it reaches line `k`. */
  function After(lines: seq<string>, k: nat): (r: Result<State, ParseError>)
    requires k <= |lines|
    ensures k == 0 ==> r == Success(Start)
    ensures r.Success? ==> Valid(r.value)
  {
    Run(Start, Read(lines)[..k])
  }

  /** Parsing all lines goes through the state after the first `k`. */
  lemma ParseThrough(lines: seq<string>, k: nat)
    requires k <= |lines|
    ensures Parse(lines).Success? ==> After(lines, k).Success?
    ensures After(lines, k).Success? ==>
      Parse(lines) == match Run(After(lines, k).value, Read(lines)[k..])
                      case Failure(e) => Failure(e)
                      case Success(st) => Success(st.book)
  {
    RunSplit(Start, Read(lines), k);
  }

  /** Reading `a + b` is reading `a`, then reading `b`. */
  lemma {:induction false} ReadEachAppend(read: string -> Line, a: seq<string>, b: seq<string>)
    ensures ReadEach(read, a + b) == ReadEach(read, a) + ReadEach(read, b)
    decreases |a|
  {
    if a == [] {
      assert a + b == b;
    } else {
      assert (a + b)[0] == a[0];
      assert (a + b)[1..] == a[1..] + b;
      ReadEachAppend(read, a[1..], b);
    }
  }

  lemma ReadAppend(a: seq<string>, b: seq<string>)
    ensures Read(a + b) == Read(a) + Read(b)
  {
    ReadEachAppend(Classify, a, b);
  }

  // ----- One line at a time -----

  /** How the loop reads a line: its kind and the name or text it carries. */
  lemma ClassifyLine(line: string)
    ensures SectionHeader(line) ==> Classify(line) == SectionHeading(HeadingName(line))
    ensures ChapterHeader(line) ==> Classify(line) == ChapterHeading(HeadingName(line))
    ensures !SectionHeader(line) && !ChapterHeader(line) ==> Classify(line) == Text(Strip(line))
  {
    HeadingsExclusive(line);
  }

  /**
   * A line that is not a heading is read as its stripped text: empty exactly
   * when the line is blank, and otherwise without surrounding whitespace. A
   * blank line is never a heading.
   */
  lemma ClassifyText(line: string)
    ensures Classify(line).Text? ==> (Classify(line).text == "" <==> Blank(line))
    ensures Classify(line).Text? && Classify(line).text != "" ==> Trimmed(Classify(line).text)
    ensures Blank(line) ==> Classify(line) == Text("")
  {
    HeadingNotBlank(line);
    ClassifyLine(line);
  }

  /**
   * A section heading opens a new section with no chapters and resets the current
   * chapter and the buffer, dropping its pending lines; it fails exactly when the
   * name is already a section of the book.
   */
  lemma SectionHeadingOpens(st: State, name: string)
    requires Valid(st)
    ensures Apply(st, SectionHeading(name)).Failure? <==> name in st.book
    ensures Apply(st, SectionHeading(name)).Failure? ==>
      Apply(st, SectionHeading(name)).error == DuplicateSection(name)
    ensures Apply(st, SectionHeading(name)).Success? ==>
      var next := Apply(st, SectionHeading(name)).value;
      && next.book.Keys == st.book.Keys + {name}
      && next.book[name] == map[]
      && (forall s :: s in st.book ==> next.book[s] == st.book[s])
      && next.section == Some(name) && next.chapter == None && next.phrase == []
  {
  }

  /**
   * Under an open section a chapter heading adds an empty passage list for its
   * name and makes it current, and keeps the buffer. It fails exactly when the
   * name is already a chapter of the current section.
   */
  lemma ChapterHeadingOpens(st: State, name: string)
    requires Valid(st) && Truthy(st.section)
    ensures Apply(st, ChapterHeading(name)).Failure? <==> name in st.book[st.section.value]
    ensures Apply(st, ChapterHeading(name)).Failure? ==>
      Apply(st, ChapterHeading(name)).error == DuplicateChapter(name)
    ensures Apply(st, ChapterHeading(name)).Success? ==>
      var next, s := Apply(st, ChapterHeading(name)).value, st.section.value;
      && next.book.Keys == st.book.Keys
      && next.book[s].Keys == st.book[s].Keys + {name}
      && next.book[s][name] == []
      && (forall c :: c in st.book[s] ==> next.book[s][c] == st.book[s][c])
      && (forall s' :: s' in st.book && s' != s ==> next.book[s'] == st.book[s'])
      && next.section == st.section && next.chapter == Some(name)
      && next.phrase == st.phrase
  {
  }

  /**
   * Until a section is open every line but a section heading is ignored, and
   * until a chapter is open too every line but a heading is ignored.
   */
  lemma LinesOutsideChapterIgnored(st: State, k: Line)
    requires Valid(st) && !k.SectionHeading?
    requires !Truthy(st.section) || (!Truthy(st.chapter) && !k.ChapterHeading?)
    ensures Apply(st, k) == Success(st)
  {
  }

  /** Inside a chapter a non-blank text line is buffered, and nothing else changes. */
  lemma TextLineBuffered(st: State, text: string)
    requires Valid(st) && Truthy(st.section) && Truthy(st.chapter) && text != ""
    ensures Apply(st, Text(text)) == Success(st.(phrase := st.phrase + [text]))
  {
  }

  /**
   * Inside a chapter a blank line after buffered lines records one passage, the
   * buffered lines joined with newlines, at the end of the current chapter, and
   * empties the buffer; when the buffered lines are stripped, the passage is
   * non-empty and has no surrounding whitespace.
   */
  lemma BlankLineFlushes(st: State)
    requires Valid(st) && Truthy(st.section) && Truthy(st.chapter) && st.phrase != []
    ensures
      var s, c, passage := st.section.value, st.chapter.value, Join("\n", st.phrase);
      Apply(st, Text("")) == Success(st.(book := st.book[s := st.book[s][c := st.book[s][c] + [passage]]], phrase := []))
    ensures (forall k :: 0 <= k < |st.phrase| ==> Trimmed(st.phrase[k])) ==> Trimmed(Join("\n", st.phrase))
  {
    if forall k :: 0 <= k < |st.phrase| ==> Trimmed(st.phrase[k]) {
      JoinTrimmed("\n", st.phrase);
    }
  }

  /** A blank line with nothing buffered changes nothing. */
  lemma BlankLineWithEmptyBuffer(st: State)
    requires Valid(st) && st.phrase == []
    ensures Apply(st, Text("")) == Success(st)
  {
  }

  // ----- Passages -----

  /** Every passage of the book is non-empty and has no surrounding whitespace. */
  ghost predicate TrimmedPassages(b: Book) {
    forall s, c, k :: s in b && c in b[s] && 0 <= k < |b[s][c]| ==> Trimmed(b[s][c][k])
  }

  /** The loop state with every passage and every buffered line trimmed. */
  ghost predicate TrimmedState(st: State) {
    TrimmedPassages(st.book) && forall k :: 0 <= k < |st.phrase| ==> Trimmed(st.phrase[k])
  }

  /** A read line whose text, when not blank, is trimmed (as `strip` leaves it). */
  predicate StrippedLine(k: Line) {
    k.Text? && k.text != "" ==> Trimmed(k.text)
  }

  /** A line keeps every passage and every buffered line trimmed. */
  lemma ApplyKeepsTrimmed(st: State, k: Line)
    requires Valid(st) && TrimmedState(st) && Apply(st, k).Success? && StrippedLine(k)
    ensures TrimmedState(Apply(st, k).value)
  {
    var next := Apply(st, k).value;
    if k.Text? && Truthy(st.section) && Truthy(st.chapter) && k.text == "" && st.phrase != [] {
      var s, c, passage := st.section.value, st.chapter.value, Join("\n", st.phrase);
      JoinTrimmed("\n", st.phrase);
      assert next.book == st.book[s := st.book[s][c := st.book[s][c] + [passage]]];
      forall s0, c0, i | s0 in next.book && c0 in next.book[s0] && 0 <= i < |next.book[s0][c0]|
        ensures Trimmed(next.book[s0][c0][i])
      {
        if s0 == s && c0 == c && i == |st.book[s][c]| {
          assert next.book[s0][c0][i] == passage;
        } else {
          assert next.book[s0][c0][i] == st.book[s0][c0][i];
        }
      }
    }
  }

  /** A run keeps every passage and every buffered line trimmed. */
  lemma {:induction false} RunKeepsTrimmed(st: State, ks: seq<Line>)
    requires Valid(st) && TrimmedState(st) && Run(st, ks).Success?
    requires forall i :: 0 <= i < |ks| ==> StrippedLine(ks[i])
    ensures TrimmedState(Run(st, ks).value)
    decreases |ks|
  {
    if ks != [] {
      ApplyKeepsTrimmed(st, ks[0]);
      RunKeepsTrimmed(Apply(st, ks[0]).value, ks[1..]);
    }
  }

  /**
   * Every passage of a parsed book is non-empty and is left as it is by `strip`:
   * it is never recorded before a line has been buffered.
   */
  lemma ParsedPassagesTrimmed(lines: seq<string>)
    requires Parse(lines).Success?
    ensures TrimmedPassages(Parse(lines).value)
    ensures forall s, c, k :: (s in Parse(lines).value && c in Parse(lines).value[s] &&
                               0 <= k < |Parse(lines).value[s][c]| ==>
                                 Parse(lines).value[s][c][k] != "" &&
                                 Strip(Parse(lines).value[s][c][k]) == Parse(lines).value[s][c][k])
  {
    forall i | 0 <= i < |lines| ensures StrippedLine(Read(lines)[i]) {
      ReadAt(lines, i);
      ClassifyText(lines[i]);
    }
    RunKeepsTrimmed(Start, Read(lines));
    var b := Parse(lines).value;
    forall s, c, k | s in b && c in b[s] && 0 <= k < |b[s][c]|
      ensures b[s][c][k] != "" && Strip(b[s][c][k]) == b[s][c][k]
    {
      StripTrimmed(b[s][c][k]);
    }
  }

  // ----- End of input -----

  /** Non-blank text lines only fill the buffer; the book is untouched. */
  lemma {:induction false} RunTextKeepsBook(st: State, ks: seq<Line>)
    requires Valid(st)
    requires forall i :: 0 <= i < |ks| ==> ks[i].Text? && ks[i].text != ""
    ensures Run(st, ks).Success? && Run(st, ks).value.book == st.book
    decreases |ks|
  {
    if ks != [] {
      var next := Apply(st, ks[0]);
      assert next.Success? && next.value.book == st.book;
      RunTextKeepsBook(next.value, ks[1..]);
    }
  }

  /**
   * The buffer is not flushed at the end of the input: text lines after the
   * last blank line of a document never reach the book.
   */
  lemma TrailingPassageDropped(lines: seq<string>, tail: seq<string>)
    requires Parse(lines).Success?
    requires forall k :: 0 <= k < |tail| ==> !SectionHeader(tail[k]) && !ChapterHeader(tail[k]) && !Blank(tail[k])
    ensures Parse(lines + tail) == Parse(lines)
  {
    ReadAppend(lines, tail);
    RunAppend(Start, Read(lines), Read(tail));
    forall i | 0 <= i < |tail| ensures Read(tail)[i].Text? && Read(tail)[i].text != "" {
      ReadAt(tail, i);
      ClassifyLine(tail[i]);
      ClassifyText(tail[i]);
    }
    RunTextKeepsBook(Run(Start, Read(lines)).value, Read(tail));
  }

  /**
   * A blank line at the end of the input is what records the pending passage:
   * with a chapter open and lines buffered, appending one puts them in the book
   * as one passage.
   */
  lemma FinalBlankLineFlushes(lines: seq<string>, blank: string)
    requires Run(Start, Read(lines)).Success?
    requires var st := Run(Start, Read(lines)).value; Truthy(st.section) && Truthy(st.chapter) && st.phrase != []
    requires Blank(blank)
    ensures
      var st := Run(Start, Read(lines)).value;
      var s, c := st.section.value, st.chapter.value;
      Parse(lines + [blank]) == Success(st.book[s := st.book[s][c := st.book[s][c] + [Join("\n", st.phrase)]]])
  {
    ReadAppend(lines, [blank]);
    RunAppend(Start, Read(lines), Read([blank]));
    ClassifyText(blank);
    assert Read([blank]) == [Text("")];
  }

  /** With no section open, everything up to the next section heading is ignored. */
  lemma {:induction false} RunIgnoredWithoutSection(st: State, ks: seq<Line>)
    requires Valid(st) && !Truthy(st.section)
    requires forall i :: 0 <= i < |ks| ==> !ks[i].SectionHeading?
    ensures Run(st, ks) == Success(st)
    decreases |ks|
  {
    if ks != [] {
      RunIgnoredWithoutSection(st, ks[1..]);
    }
  }

  /**
   * A section whose name strips to the empty string is recorded but never
   * counts as open: chapter headings and text after it are ignored until the
   * next section heading.
   */
  lemma EmptySectionNameIgnoresLines(lines: seq<string>, tail: seq<string>)
    requires Run(Start, Read(lines)).Success? && Run(Start, Read(lines)).value.section == Some("")
    requires forall k :: 0 <= k < |tail| ==> !SectionHeader(tail[k])
    ensures Parse(lines + tail) == Parse(lines)
  {
    ReadAppend(lines, tail);
    RunAppend(Start, Read(lines), Read(tail));
    forall i | 0 <= i < |tail| ensures !Read(tail)[i].SectionHeading? {
      ReadAt(tail, i);
    }
    RunIgnoredWithoutSection(Run(Start, Read(lines)).value, Read(tail));
  }

  // ----- Duplicate sections -----

  /** A section heading for a name already in the book makes the run fail. */
  lemma {:induction false} RunFailsOnKnownSection(st: State, ks: seq<Line>, j: nat, name: string)
    requires Valid(st) && name in st.book
    requires j < |ks| && ks[j] == SectionHeading(name)
    ensures Run(st, ks).Failure?
    decreases j
  {
    var r := Apply(st, ks[0]);
    if j > 0 && r.Success? {
      ApplyExtends(st, ks[0]);
      RunFailsOnKnownSection(r.value, ks[1..], j - 1, name);
    }
  }

  /** Two section headings with the same name make the run fail. */
  lemma {:induction false} RunFailsOnRepeatedSection(st: State, ks: seq<Line>, i: nat, j: nat, name: string)
    requires Valid(st)
    requires i < j < |ks| && ks[i] == SectionHeading(name) && ks[j] == SectionHeading(name)
    ensures Run(st, ks).Failure?
    decreases i
  {
    var r := Apply(st, ks[0]);
    if r.Success? {
      if i == 0 {
        RunFailsOnKnownSection(r.value, ks[1..], j - 1, name);
      } else {
        RunFailsOnRepeatedSection(r.value, ks[1..], i - 1, j - 1, name);
      }
    }
  }

  /** A document with two section headings of the same name is rejected. */
  lemma DuplicateSectionRejected(lines: seq<string>, i: nat, j: nat)
    requires i < j < |lines| && SectionHeader(lines[i]) && SectionHeader(lines[j])
    requires HeadingName(lines[i]) == HeadingName(lines[j])
    ensures Parse(lines).Failure?
  {
    ReadAt(lines, i);
    ReadAt(lines, j);
    ClassifyLine(lines[i]);
    ClassifyLine(lines[j]);
    RunFailsOnRepeatedSection(Start, Read(lines), i, j, HeadingName(lines[i]));
  }

  /** A run that fails on a duplicate section read a heading of it, and an earlier one or began with it in the book. */
  lemma {:induction false} RunSectionFailureWitness(st: State, ks: seq<Line>, name: string)
    requires Valid(st) && Run(st, ks) == Failure(DuplicateSection(name))
    ensures exists j :: (0 <= j < |ks| && ks[j] == SectionHeading(name) &&
                         (name in st.book || exists i :: 0 <= i < j && ks[i] == SectionHeading(name)))
    decreases |ks|
  {
    var r := Apply(st, ks[0]);
    if r.Success? {
      var next, rest := r.value, ks[1..];
      RunSectionFailureWitness(next, rest, name);
      var j :| 0 <= j < |rest| && rest[j] == SectionHeading(name) &&
        (name in next.book || exists i :: 0 <= i < j && rest[i] == SectionHeading(name));
      assert ks[j + 1] == rest[j];
      if name !in next.book {
        var i :| 0 <= i < j && rest[i] == SectionHeading(name);
        assert ks[i + 1] == rest[i];
      }
    }
  }

  /** A document is rejected for a duplicate section only when it holds two headings of that section. */
  lemma DuplicateSectionWitness(lines: seq<string>, name: string)
    requires Parse(lines) == Failure(DuplicateSection(name))
    ensures exists i, j :: (0 <= i < j < |lines| && SectionHeader(lines[i]) && SectionHeader(lines[j]) &&
                            HeadingName(lines[i]) == name && HeadingName(lines[j]) == name)
  {
    var ks := Read(lines);
    RunSectionFailureWitness(Start, ks, name);
    var j :| 0 <= j < |ks| && ks[j] == SectionHeading(name) &&
      exists i :: 0 <= i < j && ks[i] == SectionHeading(name);
    var i :| 0 <= i < j && ks[i] == SectionHeading(name);
    ReadAt(lines, i);
    ReadAt(lines, j);
    ClassifyLine(lines[i]);
    ClassifyLine(lines[j]);
  }

  // ----- Duplicate chapters -----

  /** `name` is a chapter of the open section. */
  predicate InCurrentSection(st: State, name: string)
    requires Valid(st)
  {
    Truthy(st.section) && name in st.book[st.section.value]
  }

  /** A heading for a chapter the open section already holds makes the run fail, unless a section heading comes first. */
  lemma {:induction false} RunFailsOnKnownChapter(st: State, ks: seq<Line>, j: nat, name: string)
    requires Valid(st) && InCurrentSection(st, name)
    requires j < |ks| && ks[j] == ChapterHeading(name)
    requires forall i :: 0 <= i < j ==> !ks[i].SectionHeading?
    ensures Run(st, ks).Failure?
    decreases j
  {
    var r := Apply(st, ks[0]);
    if j > 0 && r.Success? {
      assert r.value.section == st.section;
      ApplyExtends(st, ks[0]);
      RunFailsOnKnownChapter(r.value, ks[1..], j - 1, name);
    }
  }

  /** A heading line is read as a heading of its kind with its name. */
  lemma ReadHeading(lines: seq<string>, i: nat)
    requires i < |lines|
    ensures SectionHeader(lines[i]) ==> Read(lines)[i] == SectionHeading(HeadingName(lines[i]))
    ensures ChapterHeader(lines[i]) ==> Read(lines)[i] == ChapterHeading(HeadingName(lines[i]))
  {
    ReadAt(lines, i);
    ClassifyLine(lines[i]);
  }

  /** Lines that are not section headings are not read as section headings. */
  lemma ReadNoSectionHeading(lines: seq<string>, lo: nat, hi: nat)
    requires lo <= hi <= |lines|
    requires forall k :: lo <= k < hi ==> !SectionHeader(lines[k])
    ensures forall k :: lo <= k < hi ==> !Read(lines)[k].SectionHeading?
  {
    forall k | lo <= k < hi ensures !Read(lines)[k].SectionHeading? {
      ReadAt(lines, k);
    }
  }

  /**
   * Two chapter headings with the same name, the first read while a section is
   * open and no section heading between them, make the run fail.
   */
  lemma RunFailsOnRepeatedChapter(st: State, ks: seq<Line>, i: nat, j: nat, name: string)
    requires Valid(st) && i < j < |ks| && ks[i] == ChapterHeading(name) && ks[j] == ChapterHeading(name)
    requires Run(st, ks[..i]).Success? && Truthy(Run(st, ks[..i]).value.section)
    requires forall k :: i < k < j ==> !ks[k].SectionHeading?
    ensures Run(st, ks).Failure?
  {
    assert ks == ks[..i] + ks[i..];
    RunAppend(st, ks[..i], ks[i..]);
    var mid := Run(st, ks[..i]).value;
    var r := Apply(mid, ks[i]);
    assert ks[i..][0] == ks[i];
    if r.Success? {
      ChapterHeadingOpens(mid, name);
      var rest := ks[i + 1..];
      assert ks[i..][1..] == rest;
      RunFailsOnKnownChapter(r.value, rest, j - i - 1, name);
    }
  }

  /**
   * Two chapter headings with the same name, the first read while a section is
   * open and no section heading between them, make the document rejected.
   */
  lemma DuplicateChapterRejected(lines: seq<string>, i: nat, j: nat)
    requires i < j < |lines| && ChapterHeader(lines[i]) && ChapterHeader(lines[j])
    requires HeadingName(lines[i]) == HeadingName(lines[j])
    requires After(lines, i).Success? && Truthy(After(lines, i).value.section)
    requires forall k :: i < k < j ==> !SectionHeader(lines[k])
    ensures Parse(lines).Failure?
  {
    ReadHeading(lines, i);
    ReadHeading(lines, j);
    ReadNoSectionHeading(lines, i + 1, j);
    RunFailsOnRepeatedChapter(Start, Read(lines), i, j, HeadingName(lines[i]));
  }

  /** Running the first `j + 1` lines is running the first `j`, then one more step. */
  lemma RunSnoc(st: State, ks: seq<Line>, j: nat)
    requires Valid(st) && j < |ks|
    ensures Run(st, ks[..j + 1]) == match Run(st, ks[..j])
                                    case Failure(e) => Failure(e)
                                    case Success(mid) => Apply(mid, ks[j])
  {
    assert ks[..j + 1] == ks[..j] + [ks[j]];
    RunAppend(st, ks[..j], [ks[j]]);
    if Run(st, ks[..j]).Success? {
      var mid := Run(st, ks[..j]).value;
      assert [ks[j]][0] == ks[j] && [ks[j]][1..] == [];
    }
  }

  /**
   * A run that fails on a duplicate chapter gets, without failing, to a
   * heading of that chapter while the open section already holds it.
   */
  lemma {:induction false} RunChapterFailureWitness(st: State, ks: seq<Line>, name: string)
    requires Valid(st) && Run(st, ks) == Failure(DuplicateChapter(name))
    ensures exists j :: (0 <= j < |ks| && ks[j] == ChapterHeading(name) &&
                         Run(st, ks[..j]).Success? && InCurrentSection(Run(st, ks[..j]).value, name))
    decreases |ks|
  {
    var r := Apply(st, ks[0]);
    assert Run(st, ks[..0]) == Success(st) by { assert ks[..0] == []; }
    if r.Success? {
      var next, rest := r.value, ks[1..];
      RunChapterFailureWitness(next, rest, name);
      var j :| 0 <= j < |rest| && rest[j] == ChapterHeading(name) &&
        Run(next, rest[..j]).Success? && InCurrentSection(Run(next, rest[..j]).value, name);
      assert ks[j + 1] == rest[j];
      assert ks[..j + 1][0] == ks[0] && ks[..j + 1][1..] == rest[..j];
    }
  }

  /**
   * A chapter of the open section, when the run started from the empty book,
   * was added by a heading read under an open section, and no section heading
   * has come since.
   */
  lemma {:induction false} CurrentChapterOrigin(ks: seq<Line>, j: nat, name: string)
    requires j <= |ks| && Run(Start, ks[..j]).Success? && InCurrentSection(Run(Start, ks[..j]).value, name)
    ensures exists i :: (0 <= i < j && ks[i] == ChapterHeading(name) &&
                         Run(Start, ks[..i]).Success? && Truthy(Run(Start, ks[..i]).value.section) &&
                         forall k :: i < k < j ==> !ks[k].SectionHeading?)
    decreases j
  {
    assert Run(Start, ks[..0]) == Success(Start) by { assert ks[..0] == []; }
    if j == 0 {
      assert false;
    } else {
      RunSnoc(Start, ks, j - 1);
      var prev := Run(Start, ks[..j - 1]).value;
      var cur := Run(Start, ks[..j]).value;
      assert Apply(prev, ks[j - 1]) == Success(cur);
      if !(ks[j - 1] == ChapterHeading(name) && Truthy(prev.section)) {
        assert !ks[j - 1].SectionHeading? && InCurrentSection(prev, name);
        CurrentChapterOrigin(ks, j - 1, name);
      }
    }
  }

  /**
   * A run from the empty book that fails on a duplicate chapter read two
   * headings of it, the first while a section was open and no section heading
   * between them.
   */
  lemma RunChapterFailureOrigin(ks: seq<Line>, name: string)
    requires Run(Start, ks) == Failure(DuplicateChapter(name))
    ensures exists i, j :: (0 <= i < j < |ks| && ks[i] == ChapterHeading(name) && ks[j] == ChapterHeading(name) &&
                            Run(Start, ks[..i]).Success? && Truthy(Run(Start, ks[..i]).value.section) &&
                            forall k :: i < k < j ==> !ks[k].SectionHeading?)
  {
    RunChapterFailureWitness(Start, ks, name);
    var j :| 0 <= j < |ks| && ks[j] == ChapterHeading(name) &&
      Run(Start, ks[..j]).Success? && InCurrentSection(Run(Start, ks[..j]).value, name);
    CurrentChapterOrigin(ks, j, name);
  }

  /** A line read as a chapter heading is one, with that name. */
  lemma ReadAsChapterHeading(lines: seq<string>, i: nat, name: string)
    requires i < |lines| && Read(lines)[i] == ChapterHeading(name)
    ensures ChapterHeader(lines[i]) && HeadingName(lines[i]) == name
  {
    ReadAt(lines, i);
    ClassifyLine(lines[i]);
  }

  /** Lines not read as section headings are not section headings. */
  lemma ReadAsNoSectionHeading(lines: seq<string>, lo: nat, hi: nat)
    requires lo <= hi <= |lines|
    requires forall k :: lo <= k < hi ==> !Read(lines)[k].SectionHeading?
    ensures forall k :: lo <= k < hi ==> !SectionHeader(lines[k])
  {
    forall k | lo <= k < hi ensures !SectionHeader(lines[k]) {
      ReadAt(lines, k);
    }
  }

  /**
   * A document is rejected for a duplicate chapter only when it holds two
   * headings of that chapter, the first read while a section is open and no
   * section heading between them: the converse of DuplicateChapterRejected.
   */
  lemma DuplicateChapterWitness(lines: seq<string>, name: string)
    requires Parse(lines) == Failure(DuplicateChapter(name))
    ensures exists i, j :: (0 <= i < j < |lines| && ChapterHeader(lines[i]) && ChapterHeader(lines[j]) &&
                            HeadingName(lines[i]) == name && HeadingName(lines[j]) == name &&
                            After(lines, i).Success? && Truthy(After(lines, i).value.section) &&
                            forall k :: i < k < j ==> !SectionHeader(lines[k]))
  {
    var ks := Read(lines);
    assert Run(Start, ks) == Failure(DuplicateChapter(name));
    RunChapterFailureOrigin(ks, name);
    var i, j :| 0 <= i < j < |ks| && ks[i] == ChapterHeading(name) && ks[j] == ChapterHeading(name) &&
      Run(Start, ks[..i]).Success? && Truthy(Run(Start, ks[..i]).value.section) &&
      forall k :: i < k < j ==> !ks[k].SectionHeading?;
    ReadAsChapterHeading(lines, i, name);
    ReadAsChapterHeading(lines, j, name);
    ReadAsNoSectionHeading(lines, i + 1, j);
    assert After(lines, i) == Run(Start, ks[..i]);
  }

  /** A chapter heading read under an open section ends up as a chapter of that section. */
  lemma ChapterUnderCurrentSection(lines: seq<string>, i: nat)
    requires i < |lines| && ChapterHeader(lines[i])
    requires After(lines, i).Success? && Truthy(After(lines, i).value.section)
    requires Parse(lines).Success?
    ensures After(lines, i).value.section.value in Parse(lines).value
    ensures HeadingName(lines[i]) in Parse(lines).value[After(lines, i).value.section.value]
  {
    ParseThrough(lines, i);
    var st, rest, name := After(lines, i).value, Read(lines)[i..], HeadingName(lines[i]);
    ReadAt(lines, i);
    ClassifyLine(lines[i]);
    assert rest[0] == ChapterHeading(name);
    ChapterHeadingOpens(st, name);
    var next := Apply(st, ChapterHeading(name)).value;
    RunExtends(next, rest[1..]);
  }

  /**
   * A quote drawn from a parsed book with keys taken from it: the pick
   * succeeds, its message is empty exactly when the chapter holds no
   * passage, and otherwise it starts and ends with a non-blank character.
   */
  lemma QuoteFromParsedBook(lines: seq<string>, section: string, chapter: string)
    requires Parse(lines).Success?
    requires section in Parse(lines).value && chapter in Parse(lines).value[section]
    ensures RandomPhrase(Parse(lines).value, section, chapter).Success?
    ensures RandomPhrase(Parse(lines).value, section, chapter).value.message == ""
        <==> Parse(lines).value[section][chapter] == []
    ensures Parse(lines).value[section][chapter] != [] ==>
              Trimmed(RandomPhrase(Parse(lines).value, section, chapter).value.message)
  {
    var book := Parse(lines).value;
    var ps := book[section][chapter];
    ParsedPassagesTrimmed(lines);
    if ps != [] {
      JoinTrimmed("\n\n", ps);
    }
  }
}
