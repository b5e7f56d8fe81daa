# gitdiff's `DiffParser`, modelled in Dafny

`gitdiff` is a Swift library that shows git diffs. Its one piece of real
logic is `DiffParser`. The parser takes the text of `git diff` and returns an
ordered list of `DiffFile` values. Each file holds `DiffHunk`s, and each hunk
holds numbered `DiffLine`s. This project models the parser and the
`DiffFile.displayName` property, and proves what they promise.

The parser works in four stages. Each has its own module:

- **Segmentation** (`DiffParser.Blocks`, `DiffParser.Parse`). The text is
  split at `\n`. Every `diff --git` line opens a new file entry. Lines before
  the first marker are dropped.
- **Header interpretation** (`FileHeader`). A file entry is scanned from the
  top until its first `Binary files` line or `@@` line. On the way, the
  `diff --git`, `rename from`, `rename to`, `--- ` and `+++ ` lines set the two
  paths and the rename flag, and each later line overwrites what an earlier
  one set. `extractPaths` is `FileHeader.ExtractPaths`.
- **Hunk header decoding** (`HunkHeader`). `@@ -a[,b] +c[,d] @@` is read by an
  anchored scanner tried left to right, which behaves like the source's
  regular expression. A missing count reads as 1, and a header that matches
  nowhere decodes to (1, 0, 1, 0).
- **Hunk bodies** (`HunkBody`). Each line is classified by its first
  character and numbered by two counters, one per side. A hunk ends at the
  next `@@` line, `diff --git` line or end of entry.

The three loops of the source (`parse`, `parseFile` and `parseHunk`) are
methods with `while` loops: `DiffParser.Parse`, `DiffParser.ParseFile`
(with its two loops `ScanFileHeader` and `ReadHunks`) and
`DiffParser.ParseHunk` (with its loop `ReadHunkLines`). Each method is proved
equal to a specification function: `ParsedFiles`, `FileOf`, `ScanHeader`,
`HunksAt` and `HunkAt`/`NumberLines`. The lemmas then state what those
functions promise. `parseHunkHeader`, `extractPaths` and `displayName` are
pure functions.

The records are datatypes without their `UUID` ids. A line's kind is a sum
type, so an added line has only a new number, a removed line only an old
number, and a context line both. `Scenarios` works the parser's test inputs
through the model. Each input is given as its list of lines;
`DiffParser.ParsedJoinedLines` carries a result about lines over to the text
that joins them with `\n`.

Files: `optional.dfy` (Swift's `T?`), `text.dfy` (prefix tests, `contains`,
`components(separatedBy:)` and `joined(separator:)`), `diff_model.dfy`,
`hunk_header.dfy`, `file_header.dfy`, `hunk_body.dfy`, `diff_parser.dfy`
and `scenarios.dfy`.

**Where the code and the usual description differ, the model follows the
code.** A binary entry is usually described as having no hunks. In the code,
the header scan stops at the `Binary files` line, but the hunk loop then
resumes from that line. So a binary entry that has an `@@` line after its
`Binary files` line still gets hunks. `DiffParser.NoHunksIffNoHunkHeader` and
`FileHeader.BinaryIffFirstStop` state exactly when each case happens.

## Model

| member | source | states |
|---|---|---|
| DiffModel.DiffLine.OldNumber | Sources/gitdiff/Models/DiffLine.swift:12-17 | a line has an old number exactly when it is removed or context |
| DiffModel.DiffLine.NewNumber | Sources/gitdiff/Models/DiffLine.swift:12-17 | a line has a new number exactly when it is added or context |
| DiffModel.DisplayName | Sources/gitdiff/Models/DiffFile.swift:21-26 | a rename's name is the old path, an arrow (U+2192 here; see Left out), then the new path; otherwise the name is one of the two paths |
| DiffModel.PlainDisplayName | Sources/gitdiff/Models/DiffFile.swift:25 | a file that is not renamed shows its new path when that is non-empty, else its old path; the name is empty only when both paths are |
| DiffModel.DeletedFileDisplayName | Sources/gitdiff/Models/DiffFile.swift:25 | a deleted file whose new path is `/dev/null` is named `/dev/null`, because only emptiness is tested |
| DiffModel.DisplayNameIgnoresContent | Sources/gitdiff/Models/DiffFile.swift:21-26 | the name depends only on the rename flag and the two paths |
| Text.Drop | Sources/gitdiff/Folder/DiffParser.swift:76 | `dropFirst(n)` leaves the text after the first n characters, or nothing when the text is shorter |
| Text.StripPrefix | Sources/gitdiff/Folder/DiffParser.swift:223-228 | a leading prefix is removed when present; otherwise the text is unchanged |
| Text.SplitPiecesFree | Sources/gitdiff/Folder/DiffParser.swift:217 | no piece of a split holds the separator |
| Text.JoinSplit | Sources/gitdiff/Folder/DiffParser.swift:19 | joining the pieces of a split gives back the text, so splitting loses nothing |
| Text.SplitJoin | Sources/gitdiff/Folder/DiffParser.swift:217 | pieces without the separator come back unchanged from a join then a split |
| Text.SplitCount | Sources/gitdiff/Folder/DiffParser.swift:217-218 | a split has one piece more than the text has separators |
| Text.MissingFirstNotContained | Sources/gitdiff/Folder/DiffParser.swift:97 | text without the first character of a pattern does not contain the pattern |
| HunkHeader.DigitRun | Sources/gitdiff/Folder/DiffParser.swift:198 | `\d+` is taken greedily: the run is all digits and is not followed by a digit |
| HunkHeader.ValueShow | Sources/gitdiff/Folder/DiffParser.swift:205-208 | reading back the decimal text of a number gives the number |
| HunkHeader.FirstMatchLeftmost | Sources/gitdiff/Folder/DiffParser.swift:200-201 | the search finds a match exactly when the pattern matches somewhere, and it finds the leftmost one |
| HunkHeader.ParseHunkHeaderMatch | Sources/gitdiff/Folder/DiffParser.swift:197-211 | a header decodes to the numbers of its leftmost match, or to (1, 0, 1, 0) when nothing matches |
| HunkHeader.UnmarkedHeaderFallback | Sources/gitdiff/Folder/DiffParser.swift:200-203 | a header in which `@@ -` does not occur decodes to (1, 0, 1, 0) |
| HunkHeader.NumberShow | Sources/gitdiff/Folder/DiffParser.swift:205 | `(\d+)` reads a printed number back when a non-digit follows it |
| HunkHeader.OptionalCountText | Sources/gitdiff/Folder/DiffParser.swift:206 | `(?:,(\d+))?` reads back a printed count, or nothing when the count was omitted |
| HunkHeader.SpanRendered | Sources/gitdiff/Folder/DiffParser.swift:205-208 | a start and optional count read back, with an omitted count read as 1 |
| HunkHeader.MatchRendered | Sources/gitdiff/Folder/DiffParser.swift:198 | the pattern matches a rendered header at its start and yields its four numbers |
| HunkHeader.ParseRenderedHeader | Sources/gitdiff/Folder/DiffParser.swift:197-211 | decoding undoes rendering, whatever follows the closing `@@`; an omitted count reads as 1 |
| FileHeader.ExtractPathsOfWords | Sources/gitdiff/Folder/DiffParser.swift:216-231 | for a line of four or more words, the paths are the third and fourth words with `a/` and `b/` stripped |
| FileHeader.ExtractGitPaths | Sources/gitdiff/Folder/DiffParser.swift:216-231 | `diff --git a/<old> b/<new>` gives back `<old>` and `<new>` |
| FileHeader.ExtractPathsTooFewWords | Sources/gitdiff/Folder/DiffParser.swift:218 | a line with fewer than four words gives two empty paths |
| FileHeader.FileLinePaths | Sources/gitdiff/Folder/DiffParser.swift:79-96 | `--- `/`+++ ` lines keep `/dev/null`; otherwise they drop four characters and then an `a/` or `b/` |
| FileHeader.RenameLinePaths | Sources/gitdiff/Folder/DiffParser.swift:74-78 | `rename from`/`rename to` lines give the path after the marker verbatim |
| FileHeader.HeaderEndFirst | Sources/gitdiff/Folder/DiffParser.swift:97-103 | the header scan stops at the first `Binary files` or `@@` line, and at no line before it |
| FileHeader.LastWriteWins | Sources/gitdiff/Folder/DiffParser.swift:67-106 | each path is the one written by the last line that writes it |
| FileHeader.UnwrittenPathEmpty | Sources/gitdiff/Folder/DiffParser.swift:59-60 | a path that no line writes stays empty |
| FileHeader.RenamedIffRenameFrom | Sources/gitdiff/Folder/DiffParser.swift:74-76 | the rename flag is set exactly when a `rename from` line was read |
| FileHeader.BinaryIffFirstStop | Sources/gitdiff/Folder/DiffParser.swift:97-103 | an entry is binary exactly when a `Binary files` line comes before any `@@` line, and the scan stops there |
| HunkBody.BodyEndFirst | Sources/gitdiff/Folder/DiffParser.swift:146-149 | a hunk's lines run up to the first `@@` or `diff --git` line, or to the end |
| HunkBody.LineAt | Sources/gitdiff/Folder/DiffParser.swift:151-181 | classifying a line never gives the header kind |
| HunkBody.LineTextRoundTrip | Sources/gitdiff/Folder/DiffParser.swift:151-175 | a line with a `+`, `-` or space marker is its marker plus its content; any other line is context and keeps all of its text |
| HunkBody.LineAtNumbers | Sources/gitdiff/Folder/DiffParser.swift:155-181 | an added line has no old number and a removed line no new number; every other number is the counter's current value |
| HunkBody.NumberLinesAt | Sources/gitdiff/Folder/DiffParser.swift:139-181 | line k is classified from its own text, with counters that count the earlier lines taking an old or a new number |
| HunkBody.NumberLinesNoHeader | Sources/gitdiff/Folder/DiffParser.swift:154-181 | no line of a hunk has the header kind |
| HunkBody.NumberLinesPrefix | Sources/gitdiff/Folder/DiffParser.swift:143-149 | stopping early numbers the lines read exactly as reading on would |
| HunkBody.OldNumbersConsecutive | Sources/gitdiff/Folder/DiffParser.swift:140-181 | the old numbers of removed and context lines run consecutively from oldStart |
| HunkBody.NewNumbersConsecutive | Sources/gitdiff/Folder/DiffParser.swift:141-181 | the new numbers of added and context lines run consecutively from newStart |
| HunkBody.HunkAt | Sources/gitdiff/Folder/DiffParser.swift:134-192 | a hunk keeps its raw header line, and has one line for each line before the next `@@` or `diff --git` line |
| DiffParser.BlocksCount | Sources/gitdiff/Folder/DiffParser.swift:27-35 | there are exactly as many entries as `diff --git` lines |
| DiffParser.BlocksAreEntries | Sources/gitdiff/Folder/DiffParser.swift:27-38 | every entry starts at a marker line and holds no other marker line |
| DiffParser.BlocksSuffix | Sources/gitdiff/Folder/DiffParser.swift:24-41 | the entries, laid end to end, are a suffix of the lines |
| DiffParser.BlocksDropNoMarker | Sources/gitdiff/Folder/DiffParser.swift:36-38 | none of the lines left out of every entry is a marker |
| DiffParser.HunkStartsHeaders | Sources/gitdiff/Folder/DiffParser.swift:109-110 | every hunk start listed is an `@@` line |
| DiffParser.HunkStartsComplete | Sources/gitdiff/Folder/DiffParser.swift:109-120 | every `@@` line of the range is listed as a hunk start |
| DiffParser.HunkStartsIncreasing | Sources/gitdiff/Folder/DiffParser.swift:109-120 | hunk starts are listed in increasing order |
| DiffParser.ParseHunk | Sources/gitdiff/Folder/DiffParser.swift:134-192 | no hunk unless the first line is an `@@` line; otherwise the hunk the specification defines |
| DiffParser.ReadHunkLines | Sources/gitdiff/Folder/DiffParser.swift:139-182 | the loop produces the numbered lines up to the next `@@` or `diff --git` line |
| DiffParser.BodyEndShift | Sources/gitdiff/Folder/DiffParser.swift:111-113 | the hunk parsed from `lines[i...]` ends where the scan of the whole entry finds the next marker |
| DiffParser.HunkStartsSkip | Sources/gitdiff/Folder/DiffParser.swift:117-119 | lines that are not `@@` lines add no hunk start |
| DiffParser.HunksAdvance | Sources/gitdiff/Folder/DiffParser.swift:110-113 | `i += hunk.lines.count + 1` stays in the entry and keeps the hunks read equal to those of the `@@` lines passed |
| DiffParser.HunkStartsAdvance | Sources/gitdiff/Folder/DiffParser.swift:110-113 | the skip passes exactly one `@@` line, the current one |
| DiffParser.ParseFile | Sources/gitdiff/Folder/DiffParser.swift:56-129 | nil for an empty entry; otherwise the file the specification defines |
| DiffParser.ScanFileHeader | Sources/gitdiff/Folder/DiffParser.swift:59-106 | the header loop ends with the specified paths, flags and stopping index |
| DiffParser.ReadHunks | Sources/gitdiff/Folder/DiffParser.swift:108-120 | the hunk loop yields one hunk per `@@` line from the stopping index on, in order |
| DiffParser.ReadHunk | Sources/gitdiff/Folder/DiffParser.swift:110-113 | one step over an `@@` line moves forward and keeps the hunks read in step with the `@@` lines passed |
| DiffParser.HunksSkip | Sources/gitdiff/Folder/DiffParser.swift:117-119 | stepping over a line that is not an `@@` line keeps the hunks read |
| DiffParser.ReadingAdvance | Sources/gitdiff/Folder/DiffParser.swift:25-38 | one step of the segmentation loop keeps the finished and open entries in step with the entries of the lines read |
| DiffParser.FinishEntry | Sources/gitdiff/Folder/DiffParser.swift:29-33 | closing an entry appends its file |
| DiffParser.Parse | Sources/gitdiff/Folder/DiffParser.swift:18-51 | parsing yields the files of the entries of the text's lines |
| DiffParser.FilesOfAt | Sources/gitdiff/Folder/DiffParser.swift:30-31 | file k is the file of entry k |
| DiffParser.NoMarkerNoCount | Sources/gitdiff/Folder/DiffParser.swift:27 | lines without a marker count no entry |
| DiffParser.ParsedFilesOrder | Sources/gitdiff/Folder/DiffParser.swift:24-50 | one file per `diff --git` line, in order; file k is what entry k describes |
| DiffParser.NoMarkerNoFiles | Sources/gitdiff/Folder/DiffParser.swift:24-38 | a text without a `diff --git` line yields no file |
| DiffParser.EmptyTextNoFiles | Tests/gitdiffTests/DiffParserTests.swift:88-92 | the empty text, which splits to one empty line, yields no file |
| DiffParser.ParsedJoinedLines | Sources/gitdiff/Folder/DiffParser.swift:19 | parsing lines joined with `\n` is parsing those lines |
| DiffParser.FileHunks | Sources/gitdiff/Folder/DiffParser.swift:108-120 | a file has one hunk per `@@` line from where the header scan stopped, in order, each with that line as its header |
| DiffParser.NoHunksIffNoHunkHeader | Sources/gitdiff/Folder/DiffParser.swift:97-120 | a file has no hunks exactly when no `@@` line follows the header stop |
| DiffParser.HunkLinesBetweenHeaders | Sources/gitdiff/Folder/DiffParser.swift:109-120 | within an entry, a hunk's lines are exactly those between its header and the next `@@` line or the end |
| DiffParser.BodyEndAtNextHeader | Sources/gitdiff/Folder/DiffParser.swift:143-149 | within an entry, the lines after an `@@` line end at the next `@@` line or the end |
| DiffParser.BodyEndAtMost | Sources/gitdiff/Folder/DiffParser.swift:147-149 | a hunk ends no later than any later `@@` or `diff --git` line |
| DiffParser.NextStartAtMost | Sources/gitdiff/Folder/DiffParser.swift:109-120 | an `@@` line after hunk start t is hunk start t + 1 or comes after it |
| Scenarios.PlainHeaderLine | Sources/gitdiff/Folder/DiffParser.swift:70-103 | a line none of the header markers matches changes nothing |
| Scenarios.GitHeaderLine | Sources/gitdiff/Folder/DiffParser.swift:70-73 | a `diff --git` line names both paths and is a marker |
| Scenarios.BinaryHeaderLine | Sources/gitdiff/Folder/DiffParser.swift:97-99 | a `Binary files` line stops the scan as binary |
| Scenarios.NotMarker | Sources/gitdiff/Folder/DiffParser.swift:147 | a line starting with neither `d` nor `@` neither ends a hunk nor opens an entry |
| Scenarios.SingleEntryBlocks | Sources/gitdiff/Folder/DiffParser.swift:24-41 | an entry read alone is the only entry of its lines |
| Scenarios.BinaryEntryHeader | Sources/gitdiff/Folder/DiffParser.swift:67-103 | the header scan of a binary entry stops at its `Binary files` line |
| Scenarios.BinaryEntryParsed | Tests/gitdiffTests/DiffParserTests.swift:66-72 | a binary entry gives one binary file with both paths and no hunk |
| Scenarios.BinaryExample | Tests/gitdiffTests/DiffParserTests.swift:127-135 | the test's binary diff gives `bin/file.bin`, binary, with no hunks |
| Scenarios.FileLines | Sources/gitdiff/Folder/DiffParser.swift:79-96 | `--- a/x` and `+++ b/y` name `x` and `y` |
| Scenarios.RenameEntryHeader | Sources/gitdiff/Folder/DiffParser.swift:67-106 | a rename entry's header scan reads every line and keeps the rename lines' paths |
| Scenarios.RenameLinesClassified | Sources/gitdiff/Folder/DiffParser.swift:70-96 | how each line of a rename entry is classified |
| Scenarios.RenameScan | Sources/gitdiff/Folder/DiffParser.swift:67-106 | reading a rename entry sets both paths and the rename flag |
| Scenarios.RenameEntryBlocks | Sources/gitdiff/Folder/DiffParser.swift:24-41 | a rename entry is one entry |
| Scenarios.RenameEntryParsed | Tests/gitdiffTests/DiffParserTests.swift:74-84 | a rename entry gives one renamed file named by its rename lines |
| Scenarios.RenameExample | Tests/gitdiffTests/DiffParserTests.swift:137-146 | the test's rename diff gives `old.txt` renamed to `new.txt` |
| Scenarios.RenameExampleName | Sources/gitdiff/Models/DiffFile.swift:22-24 | that file is shown as `old.txt → new.txt` |
| Scenarios.HunkHeaderLine | Sources/gitdiff/Folder/DiffParser.swift:100-103 | an `@@` line stops the header scan |
| Scenarios.OneHunkHeader | Sources/gitdiff/Folder/DiffParser.swift:67-106 | a one-hunk entry's scan stops at the hunk header with the `---`/`+++` paths |
| Scenarios.OneHunkShape | Sources/gitdiff/Folder/DiffParser.swift:109-120 | a one-hunk entry is one entry whose only `@@` line is the fifth |
| Scenarios.OneHunkEntryParsed | Tests/gitdiffTests/DiffParserTests.swift:34-46 | a one-hunk entry gives one file with both paths and that hunk |
| Scenarios.RenderedHeaderShape | Sources/gitdiff/Folder/DiffParser.swift:198 | a rendered header starts with `@@` and holds no `B` |
| Scenarios.FourLineBody | Sources/gitdiff/Folder/DiffParser.swift:151-181 | a context, removed, added, added body is numbered as `diff -u` counts |
| Scenarios.BodyRunsToEnd | Sources/gitdiff/Folder/DiffParser.swift:143-149 | a body without `@@` or `diff --git` lines runs to the end |
| Scenarios.HunkOverBody | Sources/gitdiff/Folder/DiffParser.swift:134-192 | such a hunk takes the whole body |
| Scenarios.FourLineHunk | Sources/gitdiff/Folder/DiffParser.swift:134-192 | the hunk a rendered header opens over the four-line body |
| Scenarios.FourLineHunkFile | Tests/gitdiffTests/DiffParserTests.swift:95-116 | a one-hunk file of that shape: both paths and the hunk with its numbers and four lines |
| Scenarios.SingleHunkExample | Tests/gitdiffTests/DiffParserTests.swift:94-116 | the test's single-hunk diff gives `foo.txt` with one hunk `@@ -1,2 +1,3 @@` of four lines, numbered (1,1), 2, 2, 3 |
| Scenarios.TwoStarts | Sources/gitdiff/Folder/DiffParser.swift:109-120 | two `@@` lines give two hunk starts |
| Scenarios.TwoHunkShape | Sources/gitdiff/Folder/DiffParser.swift:109-120 | a two-hunk entry is one entry whose `@@` lines are the two headers |
| Scenarios.TwoHunkEntryParsed | Tests/gitdiffTests/DiffParserTests.swift:48-64 | a two-hunk entry gives one file with both hunks, in order |
| Scenarios.TwoHunksExample | Tests/gitdiffTests/DiffParserTests.swift:118-125 | the test's two-hunk diff gives one file `bar.txt` with two hunks, in order |

## Left out

- Cancellation and `async`: the tests and the renderer `await` the parser and expect a `CancellationError`. The parser modelled here is synchronous and has no cancellation.
- `components(separatedBy: .newlines)` splits at every Unicode newline character, and a `\r\n` pair gives an extra empty line. The model splits at `\n` only.
- `NSRegularExpression` is modelled as a scanner anchored at one position and tried from left to right. `\d` is modelled as ASCII digits only.
- `Int(...) ?? 1` and `?? 0`: numbers are unbounded `nat`s, so the overflow fallbacks of `Int(...)` are not modelled.
- HunkBody.NumberLines: the counter updates `newLineNum += 1` and `oldLineNum += 1` (DiffParser.swift:162, :170, :179-180) trap in Swift when a counter passes `Int.max`; the model's line numbers are unbounded and keep counting, so a hunk whose header starts at `Int.max` numbers lines the source never produces.
- HunkBody.LineAt, FileHeader.Classify and Text.Drop: Swift's `first`, `dropFirst` and `hasPrefix` compare and drop whole grapheme clusters, while the model compares and drops single Unicode scalars. The results differ only when a combining mark follows the marker or prefix being examined (`+` followed by U+0301 is one `Character` in Swift, so such a line is context there and an added line here).
- DiffModel.DisplayName: DiffFile.swift:23 holds the arrow mis-encoded as the three characters `â†’` (U+00E2 U+2020 U+2019); the model uses the evidently intended arrow U+2192 ` → ` instead.
- `UUID` ids of `DiffFile`, `DiffHunk` and `DiffLine` are not modelled; they play no part in parsing.
- `DiffLine`'s `type`/`oldLineNumber`/`newLineNumber` triple is one sum type, so combinations the parser never builds (an added line with an old number) cannot be written.
- Each loop of `parseFile` is a method of its own (`ScanFileHeader`, `ReadHunks`), and so is the `for` loop of `parseHunk` (`ReadHunkLines`). `ReadHunk` and `FinishEntry` are the loop steps that parse one hunk and close one entry.
- The `else { i += 1 }` fallback after a failed `parseHunk` (DiffParser.swift:114-116) is never taken, because `parseHunk` cannot fail on an `@@` line. `ReadHunks` has no such branch.
- Presentation code (themes, configuration, views) and the example apps are not part of this model.
- The scenarios are stated on the lists of lines that the tests' texts split into; `DiffParser.ParsedJoinedLines` relates those lists to the joined text.
- Scenarios.TwoHunksExample: states the file count, the paths, the hunk count and the hunk headers that the test checks, but not the numbered lines of the two hunks.
