/**
 * The parser's documented examples, worked through the model. Each diff is
 * given as its list of lines; `DiffParser.ParsedJoinedLines` carries a
 * result over to the text that joins them with `\n`.
 */
module Scenarios {
  import opened Optional
  import opened Text
  import opened DiffModel
  import opened HunkHeader
  import opened FileHeader
  import opened HunkBody
  import opened DiffParser

  /** The `diff --git` line git writes for a file. */
  function GitText(oldPath: string, newPath: string): string {
    "diff --git a/" + oldPath + " b/" + newPath
  }

  /** An ordinary header line: none of the markers the header scan looks for. */
  lemma PlainHeaderLine(line: string)
    requires line != [] && line[0] !in "dr-+@" && 'B' !in line
    ensures Classify(line) == OtherLine
  {
    DiffersAt(line, FileMarker, 0);
    DiffersAt(line, "rename from", 0);
    DiffersAt(line, "rename to", 0);
    DiffersAt(line, "--- ", 0);
    DiffersAt(line, "+++ ", 0);
    DiffersAt(line, HunkMarker, 0);
    MissingFirstNotContained(line, "Binary files");
  }

  /** The `diff --git` line names both paths. */
  lemma GitHeaderLine(oldPath: string, newPath: string)
    requires ' ' !in oldPath && ' ' !in newPath
    ensures Classify(GitText(oldPath, newPath)) == GitLine(Paths(oldPath, newPath))
    ensures IsFileMarker(GitText(oldPath, newPath)) && !IsHunkHeader(GitText(oldPath, newPath))
  {
    ExtractGitPaths(oldPath, newPath);
    assert GitText(oldPath, newPath)[..|FileMarker|] == FileMarker;
    DiffersAt(GitText(oldPath, newPath), HunkMarker, 0);
  }

  /** A line starting with `Binary files` stops the header scan as binary. */
  lemma BinaryHeaderLine(rest: string)
    ensures Classify("Binary files" + rest) == BinaryLine
    ensures !IsFileMarker("Binary files" + rest) && !IsHunkHeader("Binary files" + rest)
  {
    var line := "Binary files" + rest;
    DiffersAt(line, FileMarker, 0);
    DiffersAt(line, "rename from", 0);
    DiffersAt(line, "rename to", 0);
    DiffersAt(line, "--- ", 0);
    DiffersAt(line, "+++ ", 0);
    DiffersAt(line, HunkMarker, 0);
    assert line[..12] == "Binary files";
  }

  /** A line that is neither a marker nor a hunk header. */
  lemma NotMarker(line: string)
    requires line != [] && line[0] != 'd' && line[0] != '@'
    ensures !IsFileMarker(line) && !IsHunkHeader(line) && !EndsHunk(line)
  {
    DiffersAt(line, FileMarker, 0);
    DiffersAt(line, HunkMarker, 0);
  }

  /** An entry made of one marker line and no other is the only entry of its lines. */
  lemma {:induction false} SingleEntryBlocks(block: seq<string>)
    requires IsEntry(block)
    ensures Blocks(block) == [block]
    decreases |block|
  {
    var init := block[..|block| - 1];
    if |block| > 1 {
      assert IsEntry(init);
      SingleEntryBlocks(init);
      assert !IsFileMarker(block[|block| - 1]);
      assert block == init + [block[|block| - 1]];
    } else {
      assert init == [];
      assert block == [block[0]];
    }
  }

  /** The header scan of a binary entry stops at its `Binary files` line. */
  lemma BinaryEntryHeader(oldPath: string, newPath: string, index: string, rest: string)
    requires ' ' !in oldPath && ' ' !in newPath
    requires index != [] && index[0] !in "dr-+@" && 'B' !in index
    ensures ScanHeader([GitText(oldPath, newPath), index, "Binary files" + rest])
         == HeaderScan(HeaderState(oldPath, newPath, false), 2, true)
  {
    var b := [GitText(oldPath, newPath), index, "Binary files" + rest];
    GitHeaderLine(oldPath, newPath);
    PlainHeaderLine(index);
    BinaryHeaderLine(rest);
    assert !StopsHeader(b[0]) && !StopsHeader(b[1]) && StopsHeader(b[2]);
    assert HeaderEnd(b, 2) == 2;
    assert HeaderEnd(b, 0) == 2;
    assert b[..2][..1] == b[..1] && b[..1][..0] == [];
    assert Scan(b[..1]) == HeaderState(oldPath, newPath, false);
  }

  /**
   * A binary entry: the `diff --git` line, one plain line, and the
   * `Binary files` line give one binary file with both paths and no hunk.
   */
  lemma BinaryEntryParsed(oldPath: string, newPath: string, index: string, rest: string)
    requires ' ' !in oldPath && ' ' !in newPath
    requires index != [] && index[0] !in "dr-+@" && 'B' !in index
    ensures FilesOf(Blocks([GitText(oldPath, newPath), index, "Binary files" + rest]))
         == [DiffFile(oldPath, newPath, [], true, false)]
  {
    var b := [GitText(oldPath, newPath), index, "Binary files" + rest];
    GitHeaderLine(oldPath, newPath);
    NotMarker(index);
    BinaryHeaderLine(rest);
    SingleEntryBlocks(b);
    BinaryEntryHeader(oldPath, newPath, index, rest);
    assert HunkStarts(b, 2, 3) == [];
  }

  /** The binary example: `bin/file.bin`, marked binary, no hunks. */
  lemma BinaryExample()
    ensures FilesOf(Blocks([GitText("bin/file.bin", "bin/file.bin"),
                            "index abcdef1..abcdef2 100644",
                            "Binary files" + " a/bin/file.bin and b/bin/file.bin differ"]))
         == [DiffFile("bin/file.bin", "bin/file.bin", [], true, false)]
  {
    BinaryEntryParsed("bin/file.bin", "bin/file.bin", "index abcdef1..abcdef2 100644",
                      " a/bin/file.bin and b/bin/file.bin differ");
  }

  /** The `---`/`+++` lines of an ordinary file name it with its `a/` or `b/` prefix removed. */
  lemma FileLines(oldPath: string, newPath: string)
    ensures Classify("--- " + ("a/" + oldPath)) == OldFileLine(oldPath)
    ensures Classify("+++ " + ("b/" + newPath)) == NewFileLine(newPath)
    ensures !StopsHeader("--- " + ("a/" + oldPath)) && !StopsHeader("+++ " + ("b/" + newPath))
    ensures !IsFileMarker("--- " + ("a/" + oldPath)) && !IsFileMarker("+++ " + ("b/" + newPath))
  {
    FileLinePaths("a/" + oldPath);
    FileLinePaths("b/" + newPath);
    DiffersAt("a/" + oldPath, DevNull, 0);
    DiffersAt("b/" + newPath, DevNull, 0);
    assert StripPrefix("a/" + oldPath, "a/") == oldPath;
    assert StripPrefix("b/" + newPath, "b/") == newPath;
    NotMarker("--- " + ("a/" + oldPath));
    NotMarker("+++ " + ("b/" + newPath));
  }

  /** The lines of a rename entry as git writes them, without hunks. */
  function RenameLines(oldPath: string, newPath: string, similarity: string, index: string): seq<string> {
    [GitText(oldPath, newPath), similarity, "rename from " + oldPath, "rename to " + newPath, index,
     "--- " + ("a/" + oldPath), "+++ " + ("b/" + newPath)]
  }

  /** The header scan of a rename entry reads every line and keeps the rename lines' paths. */
  lemma RenameEntryHeader(oldPath: string, newPath: string, similarity: string, index: string)
    requires ' ' !in oldPath && ' ' !in newPath
    requires similarity != [] && similarity[0] !in "dr-+@" && 'B' !in similarity
    requires index != [] && index[0] !in "dr-+@" && 'B' !in index
    ensures ScanHeader(RenameLines(oldPath, newPath, similarity, index))
         == HeaderScan(HeaderState(oldPath, newPath, true), 7, false)
  {
    var b := RenameLines(oldPath, newPath, similarity, index);
    RenameLinesClassified(oldPath, newPath, similarity, index);
    HeaderEndFirst(b, 0);
    assert HeaderEnd(b, 0) == 7;
    RenameScan(oldPath, newPath, similarity, index);
    assert b[..7] == b;
  }

  /** How each line of a rename entry is classified. */
  lemma RenameLinesClassified(oldPath: string, newPath: string, similarity: string, index: string)
    requires ' ' !in oldPath && ' ' !in newPath
    requires similarity != [] && similarity[0] !in "dr-+@" && 'B' !in similarity
    requires index != [] && index[0] !in "dr-+@" && 'B' !in index
    ensures var b := RenameLines(oldPath, newPath, similarity, index);
      && Classify(b[0]) == GitLine(Paths(oldPath, newPath))
      && Classify(b[1]) == OtherLine
      && Classify(b[2]) == RenameFrom(oldPath)
      && Classify(b[3]) == RenameTo(newPath)
      && Classify(b[4]) == OtherLine
      && Classify(b[5]) == OldFileLine(oldPath)
      && Classify(b[6]) == NewFileLine(newPath)
  {
    GitHeaderLine(oldPath, newPath);
    PlainHeaderLine(similarity);
    RenameLinePaths(oldPath);
    RenameLinePaths(newPath);
    PlainHeaderLine(index);
    FileLines(oldPath, newPath);
  }

  /** Reading the lines of a rename entry sets both paths and the rename flag. */
  lemma RenameScan(oldPath: string, newPath: string, similarity: string, index: string)
    requires ' ' !in oldPath && ' ' !in newPath
    requires similarity != [] && similarity[0] !in "dr-+@" && 'B' !in similarity
    requires index != [] && index[0] !in "dr-+@" && 'B' !in index
    ensures Scan(RenameLines(oldPath, newPath, similarity, index)) == HeaderState(oldPath, newPath, true)
  {
    var b := RenameLines(oldPath, newPath, similarity, index);
    RenameLinesClassified(oldPath, newPath, similarity, index);
    assert b[..0] == [];
    ScanStep(b, 0);
    ScanStep(b, 1);
    ScanStep(b, 2);
    ScanStep(b, 3);
    ScanStep(b, 4);
    ScanStep(b, 5);
    ScanStep(b, 6);
    assert b[..7] == b;
  }

  /** A rename entry is one file entry. */
  lemma RenameEntryBlocks(oldPath: string, newPath: string, similarity: string, index: string)
    requires ' ' !in oldPath && ' ' !in newPath
    requires similarity != [] && similarity[0] !in "dr-+@"
    requires index != [] && index[0] !in "dr-+@"
    ensures Blocks(RenameLines(oldPath, newPath, similarity, index)) == [RenameLines(oldPath, newPath, similarity, index)]
  {
    var b := RenameLines(oldPath, newPath, similarity, index);
    GitHeaderLine(oldPath, newPath);
    NotMarker(similarity);
    NotMarker("rename from " + oldPath);
    NotMarker("rename to " + newPath);
    NotMarker(index);
    FileLines(oldPath, newPath);
    assert IsEntry(b);
    SingleEntryBlocks(b);
  }

  /**
   * A rename entry gives one renamed file named by its `rename from` and
   * `rename to` lines.
   */
  lemma RenameEntryParsed(oldPath: string, newPath: string, similarity: string, index: string)
    requires ' ' !in oldPath && ' ' !in newPath
    requires similarity != [] && similarity[0] !in "dr-+@" && 'B' !in similarity
    requires index != [] && index[0] !in "dr-+@" && 'B' !in index
    ensures FilesOf(Blocks(RenameLines(oldPath, newPath, similarity, index)))
         == [DiffFile(oldPath, newPath, [], false, true)]
  {
    var b := RenameLines(oldPath, newPath, similarity, index);
    RenameEntryBlocks(oldPath, newPath, similarity, index);
    RenameEntryHeader(oldPath, newPath, similarity, index);
    assert HunkStarts(b, 7, 7) == [];
    assert FilesOf([b]) == [FileOf(b)];
  }

  /** The rename example: `old.txt` renamed to `new.txt`. */
  lemma RenameExample()
    ensures FilesOf(Blocks(RenameLines("old.txt", "new.txt", "similarity index 100%", "index 5555555..6666666 100644")))
         == [DiffFile("old.txt", "new.txt", [], false, true)]
  {
    RenameEntryParsed("old.txt", "new.txt", "similarity index 100%", "index 5555555..6666666 100644");
  }

  /** The renamed file of the example is shown as `old.txt → new.txt`. */
  lemma RenameExampleName()
    ensures DisplayName(DiffFile("old.txt", "new.txt", [], false, true)) == "old.txt \U{2192} new.txt"
  {
    assert "old.txt" + RenameArrow + "new.txt" == "old.txt \U{2192} new.txt";
  }

  /** A line starting with `@@` that mentions no `Binary files` stops the header scan as a hunk header. */
  lemma HunkHeaderLine(line: string)
    requires HasPrefix(line, HunkMarker) && 'B' !in line
    ensures Classify(line) == HunkLine && StopsHeader(line) && !IsFileMarker(line)
  {
    DiffersAt(line, FileMarker, 0);
    DiffersAt(line, "rename from", 0);
    DiffersAt(line, "rename to", 0);
    DiffersAt(line, "--- ", 0);
    DiffersAt(line, "+++ ", 0);
    MissingFirstNotContained(line, "Binary files");
  }

  /** The lines of an entry for an edited file with one hunk. */
  function OneHunkLines(oldPath: string, newPath: string, index: string, header: string, body: seq<string>): seq<string> {
    [GitText(oldPath, newPath), index, "--- " + ("a/" + oldPath), "+++ " + ("b/" + newPath), header] + body
  }

  /** The header scan of a one-hunk entry stops at the hunk header, with the paths of the `---`/`+++` lines. */
  lemma OneHunkHeader(oldPath: string, newPath: string, index: string, header: string, body: seq<string>)
    requires ' ' !in oldPath && ' ' !in newPath
    requires index != [] && index[0] !in "dr-+@" && 'B' !in index
    requires HasPrefix(header, HunkMarker) && 'B' !in header
    ensures ScanHeader(OneHunkLines(oldPath, newPath, index, header, body))
         == HeaderScan(HeaderState(oldPath, newPath, false), 4, false)
  {
    var b := OneHunkLines(oldPath, newPath, index, header, body);
    GitHeaderLine(oldPath, newPath);
    PlainHeaderLine(index);
    FileLines(oldPath, newPath);
    HunkHeaderLine(header);
    assert !StopsHeader(b[0]) && !StopsHeader(b[1]) && !StopsHeader(b[2]) && !StopsHeader(b[3]);
    assert StopsHeader(b[4]);
    HeaderEndFirst(b, 0);
    assert HeaderEnd(b, 0) == 4;
    assert b[..0] == [];
    ScanStep(b, 0);
    ScanStep(b, 1);
    ScanStep(b, 2);
    ScanStep(b, 3);
  }

  /** A one-hunk entry is one file entry, and its only hunk header is the fifth line. */
  lemma OneHunkShape(oldPath: string, newPath: string, index: string, header: string, body: seq<string>)
    requires ' ' !in oldPath && ' ' !in newPath
    requires index != [] && index[0] !in "dr-+@"
    requires HasPrefix(header, HunkMarker) && 'B' !in header
    requires forall k :: 0 <= k < |body| ==> body[k] != [] && body[k][0] != 'd' && body[k][0] != '@'
    ensures var b := OneHunkLines(oldPath, newPath, index, header, body);
      Blocks(b) == [b] && HunkStarts(b, 4, |b|) == [4]
  {
    var b := OneHunkLines(oldPath, newPath, index, header, body);
    GitHeaderLine(oldPath, newPath);
    NotMarker(index);
    FileLines(oldPath, newPath);
    HunkHeaderLine(header);
    forall k | 0 <= k < |body|
      ensures !IsFileMarker(body[k]) && !IsHunkHeader(body[k])
    {
      NotMarker(body[k]);
    }
    assert IsEntry(b);
    SingleEntryBlocks(b);
    assert HunkStarts(b, 4, 5) == [4];
    HunkStartsSkip(b, 4, 5, |b|);
  }

  /**
   * An entry for an edited file whose one hunk has a body without hunk
   * headers or markers: one file with both paths and that one hunk.
   */
  lemma OneHunkEntryParsed(oldPath: string, newPath: string, index: string, header: string, body: seq<string>)
    requires ' ' !in oldPath && ' ' !in newPath
    requires index != [] && index[0] !in "dr-+@" && 'B' !in index
    requires HasPrefix(header, HunkMarker) && 'B' !in header
    requires forall k :: 0 <= k < |body| ==> body[k] != [] && body[k][0] != 'd' && body[k][0] != '@'
    ensures FilesOf(Blocks(OneHunkLines(oldPath, newPath, index, header, body)))
         == [DiffFile(oldPath, newPath, [HunkAt([header] + body)], false, false)]
  {
    var b := OneHunkLines(oldPath, newPath, index, header, body);
    OneHunkShape(oldPath, newPath, index, header, body);
    OneHunkHeader(oldPath, newPath, index, header, body);
    assert b[4..] == [header] + body;
    assert HunksAt(b, [4]) == [HunkAt(b[4..])];
    assert FilesOf([b]) == [FileOf(b)];
  }

  /** Two hunk headers, at 4 and at `second`, and no other from line 4 on. */
  lemma TwoStarts(b: seq<string>, second: nat)
    requires 4 < second < |b| && IsHunkHeader(b[4]) && IsHunkHeader(b[second])
    requires forall t :: 4 < t < |b| && t != second ==> !IsHunkHeader(b[t])
    ensures HunkStarts(b, 4, |b|) == [4, second]
  {
    HunkStartsAtHeader(b, 4, 4);
    HunkStartsSkip(b, 4, 5, second);
    HunkStartsAtHeader(b, 4, second);
    HunkStartsSkip(b, 4, second + 1, |b|);
  }

  /** An entry with two hunks: the second header follows the first hunk's lines. */
  lemma TwoHunkShape(oldPath: string, newPath: string, index: string,
                     h1: string, body1: seq<string>, h2: string, body2: seq<string>)
    requires ' ' !in oldPath && ' ' !in newPath
    requires index != [] && index[0] !in "dr-+@"
    requires HasPrefix(h1, HunkMarker) && 'B' !in h1
    requires HasPrefix(h2, HunkMarker) && 'B' !in h2
    requires forall k :: 0 <= k < |body1| ==> body1[k] != [] && body1[k][0] != 'd' && body1[k][0] != '@'
    requires forall k :: 0 <= k < |body2| ==> body2[k] != [] && body2[k][0] != 'd' && body2[k][0] != '@'
    ensures var b := OneHunkLines(oldPath, newPath, index, h1, body1 + [h2] + body2);
      Blocks(b) == [b] && HunkStarts(b, 4, |b|) == [4, 5 + |body1|]
  {
    var b := OneHunkLines(oldPath, newPath, index, h1, body1 + [h2] + body2);
    var second := 5 + |body1|;
    GitHeaderLine(oldPath, newPath);
    NotMarker(index);
    FileLines(oldPath, newPath);
    HunkHeaderLine(h1);
    HunkHeaderLine(h2);
    forall t | 4 < t < |b|
      ensures !IsFileMarker(b[t]) && (t != second ==> !IsHunkHeader(b[t]))
    {
      if t < second {
        assert b[t] == body1[t - 5];
        NotMarker(b[t]);
      } else if t > second {
        assert b[t] == body2[t - second - 1];
        NotMarker(b[t]);
      }
    }
    assert IsEntry(b);
    SingleEntryBlocks(b);
    TwoStarts(b, second);
  }

  /**
   * An entry for an edited file with two hunks, each with a body without
   * hunk headers or markers: one file with both paths and the two hunks.
   */
  lemma TwoHunkEntryParsed(oldPath: string, newPath: string, index: string,
                           h1: string, body1: seq<string>, h2: string, body2: seq<string>)
    requires ' ' !in oldPath && ' ' !in newPath
    requires index != [] && index[0] !in "dr-+@" && 'B' !in index
    requires HasPrefix(h1, HunkMarker) && 'B' !in h1
    requires HasPrefix(h2, HunkMarker) && 'B' !in h2
    requires forall k :: 0 <= k < |body1| ==> body1[k] != [] && body1[k][0] != 'd' && body1[k][0] != '@'
    requires forall k :: 0 <= k < |body2| ==> body2[k] != [] && body2[k][0] != 'd' && body2[k][0] != '@'
    ensures var b := OneHunkLines(oldPath, newPath, index, h1, body1 + [h2] + body2);
      FilesOf(Blocks(b)) == [DiffFile(oldPath, newPath, [HunkAt(b[4..]), HunkAt(b[5 + |body1|..])], false, false)]
  {
    var b := OneHunkLines(oldPath, newPath, index, h1, body1 + [h2] + body2);
    TwoHunkShape(oldPath, newPath, index, h1, body1, h2, body2);
    OneHunkHeader(oldPath, newPath, index, h1, body1 + [h2] + body2);
    assert HunksAt(b, [4, 5 + |body1|]) == [HunkAt(b[4..]), HunkAt(b[5 + |body1|..])];
    assert FilesOf([b]) == [FileOf(b)];
  }

  /**
   * The two-hunk example: `bar.txt` with the hunks `@@ -1,2 +1,2 @@` and
   * `@@ -5,2 +5,3 @@` gives one file holding those two hunks. The lines
   * after the first hunk header are given one by one.
   */
  lemma TwoHunksExample(body: seq<string>)
    requires |body| == 8
    requires body[0] == " a" && body[1] == "-b" && body[2] == "+B" && body[3] == "@@ -5,2 +5,3 @@"
    requires body[4] == " five" && body[5] == "-six" && body[6] == "+six!" && body[7] == "+seven"
    ensures var files := FilesOf(Blocks(OneHunkLines("bar.txt", "bar.txt", "index 3333333..4444444 100644",
                                                     "@@ -1,2 +1,2 @@", body)));
      && |files| == 1
      && files[0].oldPath == "bar.txt" && files[0].newPath == "bar.txt"
      && |files[0].hunks| == 2
      && files[0].hunks[0].header == "@@ -1,2 +1,2 @@"
      && files[0].hunks[1].header == "@@ -5,2 +5,3 @@"
  {
    var body1, body2 := body[..3], body[4..];
    assert body == body1 + [body[3]] + body2;
    TwoHunkExampleLines(body[0], body[1], body[2], body[4], body[5], body[6], body[7]);
    assert body1 == [body[0], body[1], body[2]] && body2 == [body[4], body[5], body[6], body[7]];
    TwoHunkEntryParsed("bar.txt", "bar.txt", "index 3333333..4444444 100644",
                       "@@ -1,2 +1,2 @@", body1, body[3], body2);
  }

  /** The lines of the two-hunk example meet what `TwoHunkEntryParsed` asks of them. */
  lemma TwoHunkExampleLines(a1: string, a2: string, a3: string, b1: string, b2: string, b3: string, b4: string)
    requires a1 == " a" && a2 == "-b" && a3 == "+B"
    requires b1 == " five" && b2 == "-six" && b3 == "+six!" && b4 == "+seven"
    ensures ' ' !in "bar.txt"
    ensures "index 3333333..4444444 100644"[0] !in "dr-+@" && 'B' !in "index 3333333..4444444 100644"
    ensures HasPrefix("@@ -1,2 +1,2 @@", HunkMarker) && 'B' !in "@@ -1,2 +1,2 @@"
    ensures HasPrefix("@@ -5,2 +5,3 @@", HunkMarker) && 'B' !in "@@ -5,2 +5,3 @@"
    ensures var body := [a1, a2, a3];
      forall k :: 0 <= k < |body| ==> body[k] != [] && body[k][0] != 'd' && body[k][0] != '@'
    ensures var body := [b1, b2, b3, b4];
      forall k :: 0 <= k < |body| ==> body[k] != [] && body[k][0] != 'd' && body[k][0] != '@'
  {
    ExampleHunkHeaders();
  }

  lemma ExampleHunkHeaders()
    ensures HasPrefix("@@ -1,2 +1,2 @@", HunkMarker) && 'B' !in "@@ -1,2 +1,2 @@"
    ensures HasPrefix("@@ -5,2 +5,3 @@", HunkMarker) && 'B' !in "@@ -5,2 +5,3 @@"
  {
    assert "@@ -1,2 +1,2 @@"[..2] == HunkMarker;
    assert "@@ -5,2 +5,3 @@"[..2] == HunkMarker;
  }

  /** No `B` in a rendered header: its text is digits, spaces and the marks `@ - + ,`. */
  lemma RenderedHeaderShape(oldStart: nat, oldCount: Option<nat>, newStart: nat, newCount: Option<nat>)
    ensures var header := Render(oldStart, oldCount, newStart, newCount, "");
      HasPrefix(header, HunkMarker) && 'B' !in header
  {
    var header := Render(oldStart, oldCount, newStart, newCount, "");
    assert header[..2] == HunkMarker;
    forall n: nat ensures 'B' !in Show(n) {
      var ds := Show(n);
      assert forall i :: 0 <= i < |ds| ==> IsDigit(ds[i]);
    }
    forall count: Option<nat> ensures 'B' !in CountText(count) {
      if count.Some? {
        assert 'B' !in Show(count.value);
      }
    }
  }

  /**
   * A hunk body of one context line, one removed line and two added lines
   * is numbered as `diff -u` counts: the context line takes both starts,
   * the removed line the next old number, the added lines the next new ones.
   */
  lemma FourLineBody(c: string, r: string, a1: string, a2: string, oldStart: nat, newStart: nat)
    ensures NumberLines([" " + c, "-" + r, "+" + a1, "+" + a2], oldStart, newStart)
         == [Context(c, oldStart, newStart), Removed(r, oldStart + 1), Added(a1, newStart + 1), Added(a2, newStart + 2)]
  {
    var body := [" " + c, "-" + r, "+" + a1, "+" + a2];
    assert body[..0] == [] && body[..1][..0] == [];
    assert body[..2][..1] == body[..1] && body[..3][..2] == body[..2] && body[..4][..3] == body[..3];
    assert body[0][0] == ' ' && body[1][0] == '-' && body[2][0] == '+' && body[3][0] == '+';
    assert OldSpan(body[..1]) == 1 && NewSpan(body[..1]) == 1;
    assert OldSpan(body[..2]) == 2 && NewSpan(body[..2]) == 1;
    assert OldSpan(body[..3]) == 2 && NewSpan(body[..3]) == 2;
    assert StripPrefix(" " + c, " ") == c;
    assert ("-" + r)[1..] == r;
    assert ("+" + a1)[1..] == a1;
    assert ("+" + a2)[1..] == a2;
    NumberLinesAt(body, oldStart, newStart, 0);
    NumberLinesAt(body, oldStart, newStart, 1);
    NumberLinesAt(body, oldStart, newStart, 2);
    NumberLinesAt(body, oldStart, newStart, 3);
  }

  /** Lines that are neither hunk headers nor markers run to the end. */
  lemma BodyRunsToEnd(header: string, body: seq<string>)
    requires forall k :: 0 <= k < |body| ==> body[k] != [] && body[k][0] != 'd' && body[k][0] != '@'
    ensures BodyEnd([header] + body, 1) == |body| + 1
  {
    var lines := [header] + body;
    var e := BodyEnd(lines, 1);
    BodyEndFirst(lines, 1);
    if e < |lines| {
      NotMarker(body[e - 1]);
    }
  }

  /** A hunk whose body holds no hunk header or marker takes the whole body. */
  lemma HunkOverBody(header: string, body: seq<string>)
    requires forall k :: 0 <= k < |body| ==> body[k] != [] && body[k][0] != 'd' && body[k][0] != '@'
    ensures var range := ParseHunkHeader(header);
      HunkAt([header] + body)
      == DiffHunk(range.oldStart, range.oldCount, range.newStart, range.newCount, header,
                  NumberLines(body, range.oldStart, range.newStart))
  {
    BodyRunsToEnd(header, body);
    HeaderAndBody(header, body);
  }

  lemma HeaderAndBody(header: string, body: seq<string>)
    ensures ([header] + body)[0] == header && ([header] + body)[1..|body| + 1] == body
  {
  }

  /** The hunk a rendered header opens over such a body. */
  lemma FourLineHunk(c: string, r: string, a1: string, a2: string,
                     oldStart: nat, oldCount: nat, newStart: nat, newCount: nat)
    ensures var header := Render(oldStart, Some(oldCount), newStart, Some(newCount), "");
      HunkAt([header] + [" " + c, "-" + r, "+" + a1, "+" + a2])
      == DiffHunk(oldStart, oldCount, newStart, newCount, header,
                  [Context(c, oldStart, newStart), Removed(r, oldStart + 1),
                   Added(a1, newStart + 1), Added(a2, newStart + 2)])
  {
    var header := Render(oldStart, Some(oldCount), newStart, Some(newCount), "");
    var body := [" " + c, "-" + r, "+" + a1, "+" + a2];
    assert forall k :: 0 <= k < |body| ==> body[k] != [] && body[k][0] != 'd' && body[k][0] != '@';
    HunkOverBody(header, body);
    ParseRenderedHeader(oldStart, Some(oldCount), newStart, Some(newCount), "");
    FourLineBody(c, r, a1, a2, oldStart, newStart);
  }

  /**
   * An edited file with one hunk of that shape: one file, its path on both
   * sides, and the hunk with the header's four numbers and the four lines.
   */
  lemma FourLineHunkFile(path: string, index: string, c: string, r: string, a1: string, a2: string,
                         oldStart: nat, oldCount: nat, newStart: nat, newCount: nat)
    requires ' ' !in path
    requires index != [] && index[0] !in "dr-+@" && 'B' !in index
    ensures var header := Render(oldStart, Some(oldCount), newStart, Some(newCount), "");
      FilesOf(Blocks(OneHunkLines(path, path, index, header, [" " + c, "-" + r, "+" + a1, "+" + a2])))
      == [DiffFile(path, path,
                   [DiffHunk(oldStart, oldCount, newStart, newCount, header,
                             [Context(c, oldStart, newStart), Removed(r, oldStart + 1),
                              Added(a1, newStart + 1), Added(a2, newStart + 2)])],
                   false, false)]
  {
    var header := Render(oldStart, Some(oldCount), newStart, Some(newCount), "");
    var body := [" " + c, "-" + r, "+" + a1, "+" + a2];
    RenderedHeaderShape(oldStart, Some(oldCount), newStart, Some(newCount));
    assert forall k :: 0 <= k < |body| ==> body[k] != [] && body[k][0] != 'd' && body[k][0] != '@';
    OneHunkEntryParsed(path, path, index, header, body);
    FourLineHunk(c, r, a1, a2, oldStart, oldCount, newStart, newCount);
  }

  /**
   * The single-hunk example: `foo.txt`, neither binary nor renamed, one hunk
   * `@@ -1,2 +1,3 @@` with a context line, a removed line and two added lines.
   */
  lemma SingleHunkExample()
    ensures var header := Render(1, Some(2), 1, Some(3), "");
      FilesOf(Blocks(OneHunkLines("foo.txt", "foo.txt", "index 1111111..2222222 100644", header,
                                  [" line1", "-line2", "+line2 changed", "+line3"])))
      == [DiffFile("foo.txt", "foo.txt",
                   [DiffHunk(1, 2, 1, 3, header,
                             [Context("line1", 1, 1), Removed("line2", 2), Added("line2 changed", 2), Added("line3", 3)])],
                   false, false)]
  {
    FourLineHunkFile("foo.txt", "index 1111111..2222222 100644", "line1", "line2", "line2 changed", "line3", 1, 2, 1, 3);
    ExampleBodyLines();
  }

  lemma ExampleBodyLines()
    ensures [" " + "line1", "-" + "line2", "+" + "line2 changed", "+" + "line3"]
         == [" line1", "-line2", "+line2 changed", "+line3"]
  {
    assert " " + "line1" == " line1";
    assert "-" + "line2" == "-line2";
    assert "+" + "line2 changed" == "+line2 changed";
    assert "+" + "line3" == "+line3";
  }
}
