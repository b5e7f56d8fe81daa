/**
 * The file header interpreter: the lines of one file entry are scanned
 * from the top until a `Binary files` line or a hunk header, and the lines
 * on the way set the two paths and the rename flag, each later line
 * overwriting what earlier ones set.
 */
module FileHeader {
  import opened Optional
  import opened Text
  import opened DiffModel

  /** The two paths named by a `diff --git` line. */
  datatype Paths = Paths(oldPath: string, newPath: string)

  /**
   * `extractPaths`: the third and fourth space-separated words of the line,
   * without a leading `a/` and `b/` respectively; two empty paths when the
   * line has fewer than four words.
   */
  function ExtractPaths(line: string): Paths {
    var parts := Split(line, ' ');
    if |parts| < 4 then Paths("", "")
    else Paths(StripPrefix(parts[2], "a/"), StripPrefix(parts[3], "b/"))
  }

  /**
   * The words of a `diff --git` line come back as paths: for any line made
   * of four or more words, the paths are the third and fourth words with
   * their prefixes stripped; the words after the fourth are ignored.
   */
  lemma ExtractPathsOfWords(words: seq<string>)
    requires |words| >= 4
    requires forall k :: 0 <= k < |words| ==> ' ' !in words[k]
    ensures ExtractPaths(Join(words, ' ')) == Paths(StripPrefix(words[2], "a/"), StripPrefix(words[3], "b/"))
  {
    SplitJoin(words, ' ');
  }

  /** The usual git line `diff --git a/<old> b/<new>` gives back `<old>` and `<new>`. */
  lemma ExtractGitPaths(oldPath: string, newPath: string)
    requires ' ' !in oldPath && ' ' !in newPath
    ensures ExtractPaths("diff --git a/" + oldPath + " b/" + newPath) == Paths(oldPath, newPath)
  {
    var words := ["diff", "--git", "a/" + oldPath, "b/" + newPath];
    assert Join(words[3..], ' ') == "b/" + newPath;
    assert Join(words[2..], ' ') == "a/" + oldPath + " " + "b/" + newPath;
    assert Join(words[1..], ' ') == "--git" + " " + ("a/" + oldPath + " " + "b/" + newPath);
    assert Join(words, ' ') == "diff" + " " + ("--git" + " " + ("a/" + oldPath + " " + "b/" + newPath));
    assert "diff" + " " + ("--git" + " " + ("a/" + oldPath + " " + "b/" + newPath))
        == "diff --git a/" + oldPath + " b/" + newPath;
    ExtractPathsOfWords(words);
    assert StripPrefix("a/" + oldPath, "a/") == oldPath;
    assert StripPrefix("b/" + newPath, "b/") == newPath;
  }

  /** A line with fewer than three spaces has fewer than four words: no paths. */
  lemma ExtractPathsTooFewWords(line: string)
    requires Occurrences(line, ' ') < 3
    ensures ExtractPaths(line) == Paths("", "")
  {
    SplitCount(line, ' ');
  }

  /** What one header line is, decided in the order of the source's `if`/`else if` chain. */
  datatype HeaderLine =
    | GitLine(paths: Paths)
    | RenameFrom(path: string)
    | RenameTo(path: string)
    | OldFileLine(path: string)
    | NewFileLine(path: string)
    | BinaryLine
    | HunkLine
    | OtherLine

  /** The path of a `--- ` or `+++ ` line: the sentinel, or the text after the marker without `prefix`. */
  function FileLinePath(line: string, prefix: string): string
    requires |line| >= 4
  {
    if line[4..] == DevNull then DevNull else StripPrefix(Drop(line, 4), prefix)
  }

  function Classify(line: string): HeaderLine {
    if HasPrefix(line, FileMarker) then GitLine(ExtractPaths(line))
    else if HasPrefix(line, "rename from") then RenameFrom(Drop(line, |"rename from "|))
    else if HasPrefix(line, "rename to") then RenameTo(Drop(line, |"rename to "|))
    else if HasPrefix(line, "--- ") then OldFileLine(FileLinePath(line, "a/"))
    else if HasPrefix(line, "+++ ") then NewFileLine(FileLinePath(line, "b/"))
    else if Contains(line, "Binary files") then BinaryLine
    else if HasPrefix(line, HunkMarker) then HunkLine
    else OtherLine
  }

  /** Scanning stops at a `Binary files` line or a hunk header. */
  predicate StopsHeader(line: string) {
    Classify(line).BinaryLine? || Classify(line).HunkLine?
  }

  lemma DiffersAt(s: string, p: string, i: nat)
    requires i < |s| && i < |p| && s[i] != p[i]
    ensures !HasPrefix(s, p)
  {
  }

  /**
   * `--- /dev/null` and `+++ /dev/null` keep the sentinel; other file lines
   * drop the four-character marker and then an `a/` or `b/` prefix.
   */
  lemma FileLinePaths(path: string)
    ensures Classify("--- " + path) == OldFileLine(if path == DevNull then DevNull else StripPrefix(path, "a/"))
    ensures Classify("+++ " + path) == NewFileLine(if path == DevNull then DevNull else StripPrefix(path, "b/"))
  {
    assert ("--- " + path)[4..] == path;
    assert ("+++ " + path)[4..] == path;
    DiffersAt("--- " + path, FileMarker, 0);
    DiffersAt("--- " + path, "rename from", 0);
    DiffersAt("--- " + path, "rename to", 0);
    DiffersAt("+++ " + path, FileMarker, 0);
    DiffersAt("+++ " + path, "rename from", 0);
    DiffersAt("+++ " + path, "rename to", 0);
    DiffersAt("+++ " + path, "--- ", 0);
  }

  /** A `rename from`/`rename to` line gives the path after the marker verbatim. */
  lemma RenameLinePaths(path: string)
    ensures Classify("rename from " + path) == RenameFrom(path)
    ensures Classify("rename to " + path) == RenameTo(path)
  {
    DiffersAt("rename from " + path, FileMarker, 0);
    DiffersAt("rename to " + path, FileMarker, 0);
    DiffersAt("rename to " + path, "rename from", 7);
    assert ("rename from " + path)[12..] == path;
    assert ("rename to " + path)[10..] == path;
  }

  /** What the header lines read so far have set. */
  datatype HeaderState = HeaderState(oldPath: string, newPath: string, isRenamed: bool)

  const Initial: HeaderState := HeaderState("", "", false)

  /** The effect of one header line. */
  function Step(st: HeaderState, line: string): HeaderState {
    match Classify(line)
    case GitLine(paths) => st.(oldPath := paths.oldPath, newPath := paths.newPath)
    case RenameFrom(path) => st.(isRenamed := true, oldPath := path)
    case RenameTo(path) => st.(newPath := path)
    case OldFileLine(path) => st.(oldPath := path)
    case NewFileLine(path) => st.(newPath := path)
    case _ => st
  }

  /** The state after reading `lines` in order from the initial state. */
  function Scan(lines: seq<string>): HeaderState
    decreases |lines|
  {
    if lines == [] then Initial
    else Step(Scan(lines[..|lines| - 1]), lines[|lines| - 1])
  }

  /** Reading one more line applies its step. */
  lemma ScanStep(lines: seq<string>, i: nat)
    requires i < |lines|
    ensures Scan(lines[..i + 1]) == Step(Scan(lines[..i]), lines[i])
  {
    assert lines[..i + 1][..i] == lines[..i];
  }

  /**
   * Index of the first line at or after `from` that stops the header scan,
   * or the number of lines when none does.
   */
  function HeaderEnd(lines: seq<string>, from: nat): (e: nat)
    requires from <= |lines|
    ensures from <= e <= |lines|
    decreases |lines| - from
  {
    if from == |lines| || StopsHeader(lines[from]) then from else HeaderEnd(lines, from + 1)
  }

  /** The scan stops at the first stopping line from `from` on. */
  lemma {:induction false} HeaderEndFirst(lines: seq<string>, from: nat)
    requires from <= |lines|
    ensures forall j :: from <= j < HeaderEnd(lines, from) ==> !StopsHeader(lines[j])
    ensures HeaderEnd(lines, from) < |lines| ==> StopsHeader(lines[HeaderEnd(lines, from)])
    decreases |lines| - from
  {
    if from < |lines| && !StopsHeader(lines[from]) {
      HeaderEndFirst(lines, from + 1);
    }
  }

  /** Which of the two paths. */
  datatype Side = OldSide | NewSide

  function PathOf(st: HeaderState, side: Side): string {
    if side == OldSide then st.oldPath else st.newPath
  }

  /** The path a line writes on one side, if it writes one. */
  function PathWrite(line: string, side: Side): Option<string> {
    match Classify(line)
    case GitLine(paths) => Some(if side == OldSide then paths.oldPath else paths.newPath)
    case RenameFrom(path) => if side == OldSide then Some(path) else None
    case RenameTo(path) => if side == NewSide then Some(path) else None
    case OldFileLine(path) => if side == OldSide then Some(path) else None
    case NewFileLine(path) => if side == NewSide then Some(path) else None
    case _ => None
  }

  /** The last line that writes a path decides it. */
  lemma {:induction false} LastWriteWins(lines: seq<string>, side: Side, j: nat)
    requires j < |lines| && PathWrite(lines[j], side).Some?
    requires forall k :: j < k < |lines| ==> PathWrite(lines[k], side).None?
    ensures PathOf(Scan(lines), side) == PathWrite(lines[j], side).value
    decreases |lines|
  {
    var init := lines[..|lines| - 1];
    if j < |lines| - 1 {
      LastWriteWins(init, side, j);
    }
  }

  /** A path no line writes stays empty. */
  lemma {:induction false} UnwrittenPathEmpty(lines: seq<string>, side: Side)
    requires forall k :: 0 <= k < |lines| ==> PathWrite(lines[k], side).None?
    ensures PathOf(Scan(lines), side) == ""
    decreases |lines|
  {
    if lines != [] {
      UnwrittenPathEmpty(lines[..|lines| - 1], side);
    }
  }

  /** The file counts as renamed exactly when some line read is a `rename from` line. */
  lemma {:induction false} RenamedIffRenameFrom(lines: seq<string>)
    ensures Scan(lines).isRenamed <==> exists j :: 0 <= j < |lines| && Classify(lines[j]).RenameFrom?
    decreases |lines|
  {
    if lines != [] {
      var init := lines[..|lines| - 1];
      RenamedIffRenameFrom(init);
      assert forall j :: 0 <= j < |init| ==> init[j] == lines[j];
    }
  }

  /** What the header scan of one file entry yields: the state, where it stopped, and the binary flag. */
  datatype HeaderScan = HeaderScan(state: HeaderState, stop: nat, isBinary: bool)

  function ScanHeader(lines: seq<string>): (h: HeaderScan)
    ensures h.stop <= |lines|
  {
    var stop := HeaderEnd(lines, 0);
    HeaderScan(Scan(lines[..stop]), stop, stop < |lines| && Classify(lines[stop]).BinaryLine?)
  }

  /**
   * The entry is binary exactly when a `Binary files` line comes before any
   * hunk header; the scan stops at that line.
   */
  lemma BinaryIffFirstStop(lines: seq<string>)
    ensures ScanHeader(lines).isBinary <==>
      exists j :: 0 <= j < |lines| && Classify(lines[j]).BinaryLine?
                  && forall i :: 0 <= i < j ==> !Classify(lines[i]).HunkLine?
    ensures ScanHeader(lines).isBinary ==> Classify(lines[ScanHeader(lines).stop]).BinaryLine?
  {
    var stop := HeaderEnd(lines, 0);
    HeaderEndFirst(lines, 0);
    if exists j :: 0 <= j < |lines| && Classify(lines[j]).BinaryLine?
                   && forall i :: 0 <= i < j ==> !Classify(lines[i]).HunkLine? {
      var j :| 0 <= j < |lines| && Classify(lines[j]).BinaryLine?
               && forall i :: 0 <= i < j ==> !Classify(lines[i]).HunkLine?;
      assert stop <= j;
    }
  }
}
