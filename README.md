# tao-bot in Dafny

A model of the two functions at the heart of `tao-bot`, a script that posts a
random passage of the Tao Te Ching to Slack:

- `parse_book` reads a Markdown file line by line into a book: section name ->
  chapter name -> list of passages. `## ` lines open sections, `### ` lines open
  chapters, and runs of text lines closed by a blank line become passages (the
  stripped lines joined with `"\n"`). A repeated section, or a repeated chapter
  within a section, stops the script with exit status 1.
- `random_phrase` picks a section and a chapter and returns the title
  `"<section> - Chapter <chapter>"` and the chapter's passages joined with
  `"\n\n"`.

Files:

- `wrappers.dfy` — `Option` and `Result`.
- `pystr.dfy` (module `PyStr`) — the Python string operations the script uses:
  `startswith`, `lstrip(chars)`, `rstrip`, `strip()` over Python's whitespace
  characters, and `sep.join`.
- `tao_bot.dfy` (module `TaoBot`) — the loop's variables as a `State`, the
  reading of one line (`Classify`), one loop iteration (`Apply`), the loop as a
  fold (`Run`, `Parse`), the loop as the script writes it, updating its
  variables in place (`ParseBook`, proved equal to `Parse`), and `RandomPhrase`.
- `tao_bot_properties.dfy` (module `TaoBotProperties`) — what the parser
  guarantees: the book only grows, duplicate sections and chapters are
  rejected exactly when they occur, passages are non-empty and stripped, the unflushed tail is dropped,
  and quotes drawn from a parsed book are well formed.
- `tao_bot_examples.dfy` (module `TaoBotExamples`) — how concrete lines are read,
  and whole small documents run and parse end to end.

The failure of `sys.exit(1)` is the `Failure` value of `Parse`; the random
picks of `random_phrase` are parameters chosen by the caller, and an empty key
list (where `random.choice` raises `IndexError`) is a `Failure` value too.
Python truthiness of `section` and `chapter` is kept: a heading whose name
strips to `""` sets the variable but does not count as open.

## Model

| member | source | states |
|---|---|---|
| PyStr.StartsWith | tao-bot.py:33-44 | `line.startswith(prefix)` holds exactly when the line is at least as long as the prefix and agrees with it character by character |
| PyStr.LStrip | tao-bot.py:35 | `lstrip(chars)` removes a leading run of characters from `chars`: the result is a suffix of the input, every removed character is in `chars`, and the result does not start with one |
| PyStr.RStrip | tao-bot.py:35 | `rstrip(chars)` removes a trailing run of characters from `chars`: the result is a prefix of the input, every removed character is in `chars`, and the result does not end with one |
| PyStr.Strip | tao-bot.py:54-55 | `strip()` is empty exactly when the line is blank, and otherwise starts and ends with a non-whitespace character; it never lengthens the line |
| PyStr.Join | tao-bot.py:57 | `sep.join(parts)` is empty for no parts and the part itself for one part, and otherwise starts with the first part and ends with the last; with `JoinCons` this fixes the join of any list |
| PyStr.JoinCons | tao-bot.py:57 | joining a part followed by further parts is that part, the separator, and the join of the rest: the separator stands between every two neighbours |
| PyStr.StripTrimmed | tao-bot.py:54-55 | `strip` leaves a text without surrounding whitespace unchanged |
| PyStr.StripIdempotent | tao-bot.py:54-55 | stripping twice is stripping once |
| PyStr.JoinTrimmed | tao-bot.py:57 | joining non-empty parts without surrounding whitespace gives a text without surrounding whitespace |
| PyStr.LStripPrefix | tao-bot.py:35 | `lstrip(chars)` removes exactly a leading run of `chars` ending before a character outside `chars` |
| PyStr.RStripSuffix | tao-bot.py:35 | `rstrip(chars)` removes exactly a trailing run of characters from `chars` ending after a character outside `chars` |
| PyStr.StripPadded | tao-bot.py:35 | `strip` of a trimmed text with whitespace on both sides is that text |
| TaoBot.Truthy | tao-bot.py:44-53 | the tests `section and ...` and `section and chapter` hold exactly for a variable that is neither `None` nor the empty string |
| TaoBot.HeadingName | tao-bot.py:35-46 | the name `line.lstrip("#").strip()` of a heading is never longer than the line, and is empty or without surrounding whitespace |
| TaoBot.HeadingsExclusive | tao-bot.py:33-44 | no line starts with both `"## "` and `"### "`, so the two heading tests never both hold |
| TaoBot.HeadingNotBlank | tao-bot.py:33-54 | a heading line is never blank |
| TaoBot.Classify | tao-bot.py:33-55 | a line is read as a section heading exactly when it starts with `"## "`, and as a chapter heading exactly when it starts with `"### "` |
| TaoBot.Apply | tao-bot.py:33-58 | one iteration of the loop keeps the variables consistent: an open section is in the book, and an open chapter is in the open section |
| TaoBot.ReadEach | tao-bot.py:32 | reading every line of the file gives one read line per line |
| TaoBot.Read | tao-bot.py:32 | the loop reads the file into as many classified lines as it has lines |
| TaoBot.ReadEachAt | tao-bot.py:32 | reading every line reads line `k` as line `k` alone |
| TaoBot.ReadAt | tao-bot.py:32 | the loop reads line `k` of the file as `Classify` reads it |
| TaoBot.Run | tao-bot.py:32-58 | the loop keeps the variables consistent from any consistent start |
| TaoBot.Parse | tao-bot.py:26-60 | `parse_book` runs the loop from the empty book with `section`, `chapter` and `phrase` unset (`Start`, tao-bot.py:26-30); an empty file gives the empty book |
| TaoBot.ParseBook | tao-bot.py:26-60 | the loop over the lines, updating `book`, `section`, `chapter` and `phrase` in place, returns the book that `Parse` defines, or the duplicate that stops it |
| TaoBot.Title | tao-bot.py:75 | the title is the section, then `" - Chapter "`, then the chapter |
| TaoBot.RandomPhrase | tao-bot.py:72-75 | the pick fails exactly when the book has no sections, or the picked section has no chapters, and succeeds whenever both are non-empty; otherwise the title is `Title(section, chapter)` and the message is the chapter's passages joined with `"\n\n"` |
| TaoBotProperties.ExtendsBySection | tao-bot.py:37-38 | adding a new empty section keeps every section, chapter and passage |
| TaoBotProperties.ExtendsByChapter | tao-bot.py:48-49 | adding a new empty chapter keeps every section, chapter and passage |
| TaoBotProperties.ExtendsByPassage | tao-bot.py:57 | appending a passage keeps every section, chapter and passage, each passage list growing only at its end |
| TaoBotProperties.ApplyExtends | tao-bot.py:33-58 | one iteration only adds to the book |
| TaoBotProperties.ExtendsTrans | tao-bot.py:32-58 | only adding, twice, only adds |
| TaoBotProperties.RunExtends | tao-bot.py:32-58 | a whole run only adds to the book it starts from |
| TaoBotProperties.ParseExtendsPrefix | tao-bot.py:32-60 | the book after any prefix of the lines is kept, grown only, in the final book |
| TaoBotProperties.RunAppend | tao-bot.py:32-58 | running over `a + b` is running over `a` and then over `b` from where `a` stopped; a failure in `a` is final |
| TaoBotProperties.RunSplit | tao-bot.py:32-58 | running the lines is running the first `k`, then the rest |
| TaoBotProperties.After | tao-bot.py:26-58 | the loop's variables when it reaches line `k`: before the first line they are the starting ones (`Start`, tao-bot.py:26-30), and whenever the loop has not stopped they are consistent |
| TaoBotProperties.ParseThrough | tao-bot.py:32-60 | a successful parse passes through a successful state after every prefix, and its result is the rest of the run from there |
| TaoBotProperties.ReadEachAppend | tao-bot.py:32 | reading `a + b` line by line is reading `a`, then `b` |
| TaoBotProperties.ReadAppend | tao-bot.py:32 | the loop reads `a + b` as it reads `a`, then `b` |
| TaoBotProperties.ClassifyLine | tao-bot.py:33-55 | a section heading is read with the name `lstrip("#").strip()`, a chapter heading likewise, and any other line as its stripped text |
| TaoBotProperties.ClassifyText | tao-bot.py:54-55 | a text line's stripped text is empty exactly when the line is blank, non-empty text has no surrounding whitespace, and a blank line is read as empty text |
| TaoBotProperties.SectionHeadingOpens | tao-bot.py:33-43 | a section heading fails exactly when its name is already in the book; otherwise it adds an empty section, makes it current, closes the chapter and empties the buffer |
| TaoBotProperties.ChapterHeadingOpens | tao-bot.py:44-52 | under an open section a chapter heading fails exactly when its name is already a chapter of that section; otherwise it adds an empty chapter there, makes it current and keeps the buffer |
| TaoBotProperties.LinesOutsideChapterIgnored | tao-bot.py:44-53 | with no open section only section headings change anything; with no open chapter only headings do |
| TaoBotProperties.TextLineBuffered | tao-bot.py:54-55 | inside a chapter a non-blank line appends its stripped text to the buffer and changes nothing else |
| TaoBotProperties.BlankLineFlushes | tao-bot.py:56-58 | inside a chapter a blank line after any buffered lines appends `"\n".join(buffer)` to the current chapter and empties the buffer; when every buffered line is stripped, that passage is stripped too |
| TaoBotProperties.BlankLineWithEmptyBuffer | tao-bot.py:56 | a blank line with an empty buffer changes nothing |
| TaoBotProperties.ApplyKeepsTrimmed | tao-bot.py:53-58 | one iteration keeps every passage and every buffered line non-empty and trimmed |
| TaoBotProperties.RunKeepsTrimmed | tao-bot.py:32-58 | a run keeps every passage and every buffered line non-empty and trimmed |
| TaoBotProperties.ParsedPassagesTrimmed | tao-bot.py:53-58 | every passage of a parsed book is non-empty and unchanged by `strip` |
| TaoBotProperties.RunTextKeepsBook | tao-bot.py:53-55 | non-blank text lines leave the book as it is |
| TaoBotProperties.TrailingPassageDropped | tao-bot.py:32-60 | text lines after the last blank line never reach the book: the buffer is not flushed at the end of the input |
| TaoBotProperties.FinalBlankLineFlushes | tao-bot.py:56-58 | appending a blank line to a document that ends with buffered lines in an open chapter records them as one passage |
| TaoBotProperties.RunIgnoredWithoutSection | tao-bot.py:44-53 | with no open section, lines that are not section headings change nothing |
| TaoBotProperties.EmptySectionNameIgnoresLines | tao-bot.py:35-53 | after a section heading whose name strips to `""`, chapter headings and text are ignored until the next section heading |
| TaoBotProperties.RunFailsOnKnownSection | tao-bot.py:37-43 | a heading for a section already in the book makes the run fail |
| TaoBotProperties.RunFailsOnRepeatedSection | tao-bot.py:37-43 | two section headings with the same name make the run fail |
| TaoBotProperties.DuplicateSectionRejected | tao-bot.py:33-43 | a document with two section headings of the same name is rejected |
| TaoBotProperties.RunSectionFailureWitness | tao-bot.py:37-43 | a run that fails on a duplicate section read a heading for it, after an earlier heading for it or with the name already in the starting book |
| TaoBotProperties.DuplicateSectionWitness | tao-bot.py:33-43 | a document is rejected for a duplicate section only when it holds two headings of that section |
| TaoBotProperties.RunFailsOnKnownChapter | tao-bot.py:44-52 | a heading for a chapter the open section already holds makes the run fail unless a section heading comes first |
| TaoBotProperties.ReadHeading | tao-bot.py:33-46 | a heading line of the file is read as a heading of its kind with its stripped name |
| TaoBotProperties.ReadNoSectionHeading | tao-bot.py:33 | lines that do not start with `"## "` are not read as section headings |
| TaoBotProperties.RunFailsOnRepeatedChapter | tao-bot.py:44-52 | two chapter headings with the same name, the first under an open section and no section heading between them, make the run fail |
| TaoBotProperties.DuplicateChapterRejected | tao-bot.py:44-52 | such a document is rejected |
| TaoBotProperties.RunChapterFailureWitness | tao-bot.py:44-52 | a run that fails on a duplicate chapter reaches, without failing, a heading of that chapter while the open section already holds it |
| TaoBotProperties.RunSnoc | tao-bot.py:32-58 | the state after `j + 1` lines is one more iteration from the state after `j` |
| TaoBotProperties.CurrentChapterOrigin | tao-bot.py:44-49 | from the empty book, a chapter of the open section was added by an earlier heading read under an open section, with no section heading since |
| TaoBotProperties.RunChapterFailureOrigin | tao-bot.py:44-52 | from the empty book, a run failing on a duplicate chapter read two headings of it, the first under an open section and no section heading between them |
| TaoBotProperties.ReadAsChapterHeading | tao-bot.py:44-46 | a line read as a chapter heading starts with `"### "` and its stripped name is the heading's name |
| TaoBotProperties.ReadAsNoSectionHeading | tao-bot.py:33 | lines not read as section headings do not start with `"## "` |
| TaoBotProperties.DuplicateChapterWitness | tao-bot.py:44-52 | a document is rejected for a duplicate chapter only when it holds two headings of that chapter, the first read while a section is open and no section heading between them: exactly the converse of `DuplicateChapterRejected` |
| TaoBotProperties.ChapterUnderCurrentSection | tao-bot.py:44-49 | a chapter heading read under an open section ends up, in a successful parse, as a chapter of that section |
| TaoBotProperties.QuoteFromParsedBook | tao-bot.py:72-75 | a quote drawn from a parsed book succeeds; its message is empty exactly when the chapter has no passage, and otherwise has no surrounding whitespace |
| TaoBotExamples.TextLineRead | tao-bot.py:54-55 | a text line with its newline, as `readlines` returns it, is read as its text |
| TaoBotExamples.HeadingNameRead | tao-bot.py:35 | `lstrip("#").strip()` of `#`s, a space, a name and a newline is the name |
| TaoBotExamples.SectionLineRead | tao-bot.py:33-35 | `"## " + name + "\n"` opens section `name` |
| TaoBotExamples.ChapterLineRead | tao-bot.py:44-46 | `"### " + name + "\n"` opens chapter `name` |
| TaoBotExamples.BlankLineRead | tao-bot.py:54 | a line holding only its newline is read as empty text |
| TaoBotExamples.RunStep | tao-bot.py:32-58 | a line whose iteration succeeds is consumed before the rest |
| TaoBotExamples.FirstSectionStep | tao-bot.py:37-40 | the first section heading adds an empty section and opens it |
| TaoBotExamples.FirstChapterStep | tao-bot.py:48-49 | the first chapter heading of a section adds an empty chapter and opens it |
| TaoBotExamples.BufferStep | tao-bot.py:54-55 | a text line in an open chapter is appended to the buffer |
| TaoBotExamples.FlushStep | tao-bot.py:56-58 | a blank line appends the joined buffer to the open chapter and empties the buffer |
| TaoBotExamples.OneLinePassageRun | tao-bot.py:53-58 | a one-line passage closed by a blank line is appended after the chapter's passages |
| TaoBotExamples.TwoPassagesRun | tao-bot.py:32-58 | a section, a chapter, two lines, a blank line, one line and a blank line give one chapter with the passages `a\nb` and `d` |
| TaoBotExamples.TwoPassagesQuoted | tao-bot.py:72-75 | the quote from that chapter is titled `"<s> - Chapter <c>"` and reads `a\nb\n\nd` |
| TaoBotExamples.ReadSectionLine | tao-bot.py:33-35 | a line `"## " + name + "\n"` of a file is read as a heading of section `name` |
| TaoBotExamples.ReadChapterLine | tao-bot.py:44-46 | a line `"### " + name + "\n"` of a file is read as a heading of chapter `name` |
| TaoBotExamples.ReadTextLine | tao-bot.py:54-55 | a text line of a file is read as its text |
| TaoBotExamples.ReadBlankLine | tao-bot.py:54 | an empty line of a file is read as empty text |
| TaoBotExamples.HeadingLinesRead | tao-bot.py:33-46 | a section heading line then a chapter heading line are read as those headings |
| TaoBotExamples.TextLinesRead | tao-bot.py:54-55 | two text lines are read as their texts |
| TaoBotExamples.BlankThenTextRead | tao-bot.py:54-55 | an empty line then a text line are read as empty text, then that text |
| TaoBotExamples.ReadPieces | tao-bot.py:32 | a file read in three pieces is read as the three readings one after the other |
| TaoBotExamples.WorkedDocumentRead | tao-bot.py:32-55 | the worked document is read as a section heading, a chapter heading, two text lines, an empty line and a text line |
| TaoBotExamples.WorkedDocumentRun | tao-bot.py:32-58 | running those lines leaves one chapter holding `a\nb` and the last line still in the buffer |
| TaoBotExamples.WorkedDocumentParsed | tao-bot.py:26-60 | parsing the worked document gives one section with one chapter holding the passage `a\nb`; the last line, with no empty line after it, is dropped |
| TaoBotExamples.CarriedRun | tao-bot.py:44-58 | a line not yet flushed when the next chapter heading comes is recorded in the next chapter, and the first chapter stays empty |

## Left out

- Reading the file (`open`, `readlines`, tao-bot.py:23-24): the model takes the list of lines, each with the newline `readlines` keeps.
- `main` (argument parsing, path resolution and existence check, the `SLACK_WEBHOOK` environment lookup, the `requests.post` call and the `print`s): input, output and the network, outside the parsing and selection logic.
- The diagnostics printed before `sys.exit(1)`: a duplicate is a `Failure` value naming the section or chapter.
- TaoBot.RandomPhrase: takes the two picks as parameters, so it says nothing about `random.choice` being uniform; it models which picks are possible and what each gives.
- Order of sections and chapters: Python dicts keep insertion order, and `list(book.keys())` lists keys in that order; `Book` is a Dafny `map`, which has none. The order of passages within a chapter is kept.
- PyStr.Strip: whitespace is the fixed set of characters Python's `str.isspace` accepts; Unicode data beyond that set, and characters that are not Unicode scalar values, are not modelled.
- The commented-out `random.choice` over a chapter's passages (tao-bot.py:74) is not code and is not modelled.
