/**
 * The quote bot: `parse_book` turns the lines of a Markdown file into a book
 * (section name -> chapter name -> passages), and `random_phrase` turns the
 * section and chapter it picks into a title and a message.
 */
module TaoBot {
  import opened Wrappers
  import opened PyStr

  /** Chapter name -> the passages of that chapter, in document order. */
  type Chapters = map<string, seq<string>>

  /** Section name -> its chapters (the script's `BOOK_TYPE`). */
  type Book = map<string, Chapters>

  /** Why parsing stops; the script prints a diagnostic and exits with status 1. */
  datatype ParseError = DuplicateSection(name: string) | DuplicateChapter(name: string)

  /**
   * The parse loop's running variables: the book built so far, the current
   * section and chapter (None until a heading sets them), and the buffer of
   * stripped lines of the passage being read.
   */
  datatype State = State(book: Book, section: Option<string>, chapter: Option<string>, phrase: seq<string>)

  /** The variables before the first line. */
  const Start: State := State(map[], None, None, [])

  /** Python truthiness of `section` / `chapter`: neither None nor the empty string. */
  predicate Truthy(name: Option<string>): (b: bool)
    ensures b <==> name != None && name != Some("")
  {
    name.Some? && name.value != ""
  }

  /** A line that opens a section. */
  predicate SectionHeader(line: string) {
    StartsWith(line, "## ")
  }

  /** A line that opens a chapter when a section is open. */
  predicate ChapterHeader(line: string) {
    StartsWith(line, "### ")
  }

  /** No line is both a section heading and a chapter heading. */
  lemma HeadingsExclusive(line: string)
    ensures !(SectionHeader(line) && ChapterHeader(line))
  {
    if ChapterHeader(line) {
      assert line[2] == line[..4][2] == '#';
    }
  }

  /** A heading line is never blank: it starts with '#'. */
  lemma HeadingNotBlank(line: string)
    ensures SectionHeader(line) || ChapterHeader(line) ==> !Blank(line)
  {
    if SectionHeader(line) || ChapterHeader(line) {
      assert line[0] == '#';
      assert '#' !in Whitespace;
    }
  }

  /** The name a heading line gives: leading '#' removed, then surrounding whitespace. */
  function HeadingName(line: string): (name: string)
    ensures |name| <= |line|
    ensures name == "" || Trimmed(name)
  {
    Strip(LStrip(line, {'#'}))
  }

  /**
   * What the loop keeps true: the current section is a key of the book, and a
   * current chapter exists only under an open (truthy) section and is a key of it.
   */
  predicate Valid(st: State) {
    && (st.section.Some? ==> st.section.value in st.book)
    && (st.chapter.Some? ==> Truthy(st.section) && st.chapter.value in st.book[st.section.value])
  }

  /**
   * `after` only adds to `before`: every section stays, every chapter stays
   * under its section, and every passage list can only grow at its end.
   */
  ghost predicate Extends(before: Book, after: Book) {
    forall s :: s in before ==>
      && s in after
      && before[s].Keys <= after[s].Keys
      && forall c :: c in before[s] ==> before[s][c] <= after[s][c]
  }

  /**
   * What a line is to the parse loop, decided by its prefix: a section heading,
   * a chapter heading (each with its name), or any other line (with its
   * stripped text, empty for a blank line).
   */
  datatype Line = SectionHeading(name: string) | ChapterHeading(name: string) | Text(text: string)

  /** The reading of a line, in the order the loop tests the prefixes. */
  function Classify(line: string): (k: Line)
    ensures k.SectionHeading? <==> SectionHeader(line)
    ensures k.ChapterHeading? <==> ChapterHeader(line)
  {
    HeadingsExclusive(line);
    if SectionHeader(line) then SectionHeading(HeadingName(line))
    else if ChapterHeader(line) then ChapterHeading(HeadingName(line))
    else Text(Strip(line))
  }

  /**
   * One iteration of the parse loop on a classified line. A chapter heading
   * with no open section, and a text line with no open chapter, fall through
   * every branch and change nothing.
   */
  function Apply(st: State, line: Line): (r: Result<State, ParseError>)
    requires Valid(st)
    ensures r.Success? ==> Valid(r.value)
  {
    match line
    case SectionHeading(name) =>
      if name in st.book then Failure(DuplicateSection(name))
      else Success(State(st.book[name := map[]], Some(name), None, []))
    case ChapterHeading(name) =>
      if !Truthy(st.section) then Success(st)
      else if name in st.book[st.section.value] then Failure(DuplicateChapter(name))
      else
        var s := st.section.value;
        Success(st.(book := st.book[s := st.book[s][name := []]], chapter := Some(name)))
    case Text(text) =>
      if !(Truthy(st.section) && Truthy(st.chapter)) then Success(st)
      else if text != "" then Success(st.(phrase := st.phrase + [text]))
      else if st.phrase == [] then Success(st)
      else
        var s, c := st.section.value, st.chapter.value;
        var passage := Join("\n", st.phrase);
        Success(st.(book := st.book[s := st.book[s][c := st.book[s][c] + [passage]]], phrase := []))
  }

  /** Every line of `lines` read with `read`, in order. */
  function ReadEach(read: string -> Line, lines: seq<string>): (ks: seq<Line>)
    ensures |ks| == |lines|
  {
    if lines == [] then [] else [read(lines[0])] + ReadEach(read, lines[1..])
  }

  /** Line `k` is read on its own: reading every line reads each line. */
  lemma {:induction false} ReadEachAt(read: string -> Line, lines: seq<string>, k: nat)
    requires k < |lines|
    ensures ReadEach(read, lines)[k] == read(lines[k])
    decreases k
  {
    if k > 0 {
      ReadEachAt(read, lines[1..], k - 1);
    }
  }

  /** Every line of the file as the loop reads it. */
  function Read(lines: seq<string>): (ks: seq<Line>)
    ensures |ks| == |lines|
  {
    ReadEach(Classify, lines)
  }

  /** The loop reads line `k` of the file as `Classify` reads it. */
  lemma ReadAt(lines: seq<string>, k: nat)
    requires k < |lines|
    ensures Read(lines)[k] == Classify(lines[k])
  {
    ReadEachAt(Classify, lines, k);
  }

  /** The loop over the read lines from state `st`; the first error stops it. */
  function Run(st: State, ks: seq<Line>): (r: Result<State, ParseError>)
    requires Valid(st)
    ensures r.Success? ==> Valid(r.value)
    decreases |ks|
  {
    if ks == [] then Success(st)
    else
      match Apply(st, ks[0])
      case Failure(e) => Failure(e)
      case Success(next) => Run(next, ks[1..])
  }

  /**
   * `parse_book` on the lines of the file: the book left after the last line.
   * The passage buffer is not flushed at the end of the input.
   */
  function Parse(lines: seq<string>): (r: Result<Book, ParseError>)
    ensures lines == [] ==> r == Success(map[])
  {
    match Run(Start, Read(lines))
    case Failure(e) => Failure(e)
    case Success(st) => Success(st.book)
  }

  /** The parse loop as the script runs it, updating its variables line by line. */
  method ParseBook(lines: seq<string>) returns (r: Result<Book, ParseError>)
    ensures r == Parse(lines)
  {
    var book: Book := map[];
    var section: Option<string> := None;
    var chapter: Option<string> := None;
    var phrase: seq<string> := [];
    for i := 0 to |lines|
      invariant Valid(State(book, section, chapter, phrase))
      invariant Run(Start, Read(lines)) == Run(State(book, section, chapter, phrase), Read(lines)[i..])
    {
      ghost var before := State(book, section, chapter, phrase);
      assert Read(lines)[i..][1..] == Read(lines)[i + 1..];
      var line := lines[i];
      ReadAt(lines, i);
      if SectionHeader(line) {
        var name := HeadingName(line);
        section := Some(name);
        if name !in book {
          book := book[name := map[]];
          chapter := None;
          phrase := [];
        } else {
          return Failure(DuplicateSection(name));
        }
      } else if Truthy(section) && ChapterHeader(line) {
        var name := HeadingName(line);
        chapter := Some(name);
        if name !in book[section.value] {
          book := book[section.value := book[section.value][name := []]];
        } else {
          return Failure(DuplicateChapter(name));
        }
      } else if Truthy(section) && Truthy(chapter) {
        var text := Strip(line);
        if text != "" {
          phrase := phrase + [text];
        } else if phrase != [] {
          var s, c := section.value, chapter.value;
          book := book[s := book[s][c := book[s][c] + [Join("\n", phrase)]]];
          phrase := [];
        }
      }
      assert Apply(before, Read(lines)[i]) == Success(State(book, section, chapter, phrase));
    }
    return Success(book);
  }

  /** Why no quote can be picked: `random.choice` on an empty key list. */
  datatype PickError = NoSections | NoChapters(section: string)

  /** What is posted: the title and the message text. */
  datatype Quote = Quote(title: string, message: string)

  /** The title `f"{section} - Chapter {chapter}"`. */
  function Title(section: string, chapter: string): (t: string)
    ensures |t| == |section| + 11 + |chapter|
    ensures StartsWith(t, section) && EndsWith(t, chapter)
    ensures t[|section|..|t| - |chapter|] == " - Chapter "
  {
    section + " - Chapter " + chapter
  }

  /**
   * `random_phrase` once its two random choices are made: `section` is the key
   * picked from the book and `chapter` the key picked from that section. A pick
   * from an empty key list fails (Python raises IndexError there).
   */
  function RandomPhrase(book: Book, section: string, chapter: string): (r: Result<Quote, PickError>)
    requires book != map[] ==> section in book
    requires section in book && book[section] != map[] ==> chapter in book[section]
    ensures r == Failure(NoSections) <==> book == map[]
    ensures r == Failure(NoChapters(section)) <==> book != map[] && book[section] == map[]
    ensures r.Success? <==> book != map[] && book[section] != map[]
    ensures r.Success? ==> section in book && chapter in book[section]
    ensures r.Success? ==> r.value.title == Title(section, chapter)
    ensures r.Success? ==> r.value.message == Join("\n\n", book[section][chapter])
  {
    if book == map[] then Failure(NoSections)
    else if book[section] == map[] then Failure(NoChapters(section))
    else Success(Quote(Title(section, chapter), Join("\n\n", book[section][chapter])))
  }
}
