/**
 * `DiffParser`: unified-diff text in, an ordered list of files out. The
 * three methods keep the source's loops; each is proved equal to a
 * specification function, and the lemmas below state what those
 * functions promise.
 */
module DiffParser {
  import opened Optional
  import opened Text
  import opened DiffModel
  import opened HunkHeader
  import opened FileHeader
  import opened HunkBody

  predicate IsFileMarker(line: string) {
    HasPrefix(line, FileMarker)
  }

  predicate IsHunkHeader(line: string) {
    HasPrefix(line, HunkMarker)
  }

  // ---------------------------------------------------------------------
  // Segmentation into file entries

  /**
   * The file entries of a list of lines, built line by line: a marker line
   * opens a new entry, any other line joins the open entry, and lines read
   * while no entry is open are dropped.
   */
  function Blocks(lines: seq<string>): seq<seq<string>>
    decreases |lines|
  {
    if lines == [] then []
    else
      var init := Blocks(lines[..|lines| - 1]);
      var line := lines[|lines| - 1];
      if IsFileMarker(line) then init + [[line]]
      else if init == [] then []
      else init[..|init| - 1] + [init[|init| - 1] + [line]]
  }

  /** Number of lines starting with `diff --git`. */
  function MarkerCount(lines: seq<string>): nat
    decreases |lines|
  {
    if lines == [] then 0
    else MarkerCount(lines[..|lines| - 1]) + (if IsFileMarker(lines[|lines| - 1]) then 1 else 0)
  }

  /** The blocks laid end to end. */
  function Flatten(blocks: seq<seq<string>>): seq<string>
    decreases |blocks|
  {
    if blocks == [] then [] else Flatten(blocks[..|blocks| - 1]) + blocks[|blocks| - 1]
  }

  /** One file entry: it starts at a marker line and holds no other marker line. */
  predicate IsEntry(block: seq<string>) {
    |block| > 0 && IsFileMarker(block[0]) && forall j :: 0 < j < |block| ==> !IsFileMarker(block[j])
  }

  lemma BlocksStep(lines: seq<string>, i: nat)
    requires i < |lines|
    ensures var init := Blocks(lines[..i]);
      Blocks(lines[..i + 1])
        == if IsFileMarker(lines[i]) then init + [[lines[i]]]
           else if init == [] then []
           else init[..|init| - 1] + [init[|init| - 1] + [lines[i]]]
  {
    assert lines[..i + 1][..i] == lines[..i];
  }

  /** There are exactly as many entries as marker lines. */
  lemma {:induction false} BlocksCount(lines: seq<string>)
    ensures |Blocks(lines)| == MarkerCount(lines)
    decreases |lines|
  {
    if lines != [] {
      BlocksCount(lines[..|lines| - 1]);
    }
  }

  /** Every entry starts at a marker line and runs up to the next one. */
  lemma {:induction false} BlocksAreEntries(lines: seq<string>)
    ensures forall k :: 0 <= k < |Blocks(lines)| ==> IsEntry(Blocks(lines)[k])
    decreases |lines|
  {
    if lines != [] {
      var init := Blocks(lines[..|lines| - 1]);
      BlocksAreEntries(lines[..|lines| - 1]);
      var line := lines[|lines| - 1];
      if !IsFileMarker(line) && init != [] {
        var last := init[|init| - 1];
        assert IsEntry(last);
        assert IsEntry(last + [line]);
      }
    }
  }

  /** Reading one more line adds it to the entries, unless no entry is open and it is not a marker. */
  lemma FlattenStep(lines: seq<string>)
    requires lines != []
    ensures var prefix, line := lines[..|lines| - 1], lines[|lines| - 1];
      Flatten(Blocks(lines))
        == if IsFileMarker(line) || Blocks(prefix) != [] then Flatten(Blocks(prefix)) + [line] else []
  {
    var prefix, line := lines[..|lines| - 1], lines[|lines| - 1];
    var init := Blocks(prefix);
    if IsFileMarker(line) {
      assert (init + [[line]])[..|init|] == init;
    } else if init != [] {
      var blocks := init[..|init| - 1] + [init[|init| - 1] + [line]];
      assert blocks[..|blocks| - 1] == init[..|init| - 1];
    }
  }

  lemma SuffixSnoc(lines: seq<string>, n: nat)
    requires n < |lines|
    ensures lines[|lines| - n - 1..] == lines[..|lines| - 1][|lines| - 1 - n..] + [lines[|lines| - 1]]
  {
  }

  /** A suffix of the text without its last line, extended by that line, is a suffix of the text. */
  lemma SuffixExtend(lines: seq<string>, before: seq<string>, after: seq<string>)
    requires lines != []
    requires |before| <= |lines| - 1 && lines[..|lines| - 1][|lines| - 1 - |before|..] == before
    requires after == before + [lines[|lines| - 1]] || after == []
    ensures |after| <= |lines| && lines[|lines| - |after|..] == after
  {
    if after != [] {
      SuffixSnoc(lines, |before|);
    }
  }

  /** The entries, laid end to end, are a suffix of the input. */
  lemma {:induction false} BlocksSuffix(lines: seq<string>)
    ensures var flat := Flatten(Blocks(lines));
      |flat| <= |lines| && lines[|lines| - |flat|..] == flat
    decreases |lines|
  {
    if lines != [] {
      var prefix := lines[..|lines| - 1];
      BlocksSuffix(prefix);
      FlattenStep(lines);
      SuffixExtend(lines, Flatten(Blocks(prefix)), Flatten(Blocks(lines)));
    }
  }

  /** No line left out of the entries is a marker. */
  lemma {:induction false} BlocksDropNoMarker(lines: seq<string>)
    ensures forall j :: 0 <= j < |lines| - |Flatten(Blocks(lines))| ==> !IsFileMarker(lines[j])
    decreases |lines|
  {
    if lines != [] {
      var prefix := lines[..|lines| - 1];
      BlocksDropNoMarker(prefix);
      FlattenStep(lines);
      BlocksSuffix(prefix);
      forall j | 0 <= j < |lines| - |Flatten(Blocks(lines))|
        ensures !IsFileMarker(lines[j])
      {
        if j < |prefix| {
          assert lines[j] == prefix[j];
        }
      }
    }
  }

  /**
   * The entries, laid end to end, are the input with the lines before the
   * first marker removed, and none of those removed lines is a marker.
   */
  lemma BlocksCover(lines: seq<string>)
    ensures var flat := Flatten(Blocks(lines));
      && |flat| <= |lines|
      && lines[|lines| - |flat|..] == flat
      && forall j :: 0 <= j < |lines| - |flat| ==> !IsFileMarker(lines[j])
  {
    BlocksSuffix(lines);
    BlocksDropNoMarker(lines);
  }

  // ---------------------------------------------------------------------
  // One file entry

  /** Indices of the hunk header lines in `lines[lo..hi]`, in order. */
  function HunkStarts(lines: seq<string>, lo: nat, hi: nat): (idx: seq<nat>)
    requires lo <= hi <= |lines|
    ensures forall t :: 0 <= t < |idx| ==> lo <= idx[t] < hi
    decreases hi - lo
  {
    if hi == lo then []
    else HunkStarts(lines, lo, hi - 1) + (if IsHunkHeader(lines[hi - 1]) then [hi - 1] else [])
  }

  /** Every index listed is a hunk header line. */
  lemma {:induction false} HunkStartsHeaders(lines: seq<string>, lo: nat, hi: nat)
    requires lo <= hi <= |lines|
    ensures forall t :: 0 <= t < |HunkStarts(lines, lo, hi)| ==> IsHunkHeader(lines[HunkStarts(lines, lo, hi)[t]])
    decreases hi - lo
  {
    if lo < hi {
      HunkStartsHeaders(lines, lo, hi - 1);
      var prev := HunkStarts(lines, lo, hi - 1);
      var idx := HunkStarts(lines, lo, hi);
      forall t | 0 <= t < |idx|
        ensures IsHunkHeader(lines[idx[t]])
      {
        if t < |prev| {
          assert idx[t] == prev[t];
          assert IsHunkHeader(lines[prev[t]]);
        }
      }
    }
  }

  /** Every hunk header line of the range is listed. */
  lemma {:induction false} HunkStartsComplete(lines: seq<string>, lo: nat, hi: nat)
    requires lo <= hi <= |lines|
    ensures forall j :: lo <= j < hi && IsHunkHeader(lines[j]) ==> j in HunkStarts(lines, lo, hi)
    decreases hi - lo
  {
    if lo < hi {
      HunkStartsComplete(lines, lo, hi - 1);
      var prev := HunkStarts(lines, lo, hi - 1);
      var idx := HunkStarts(lines, lo, hi);
      assert forall j :: j in prev ==> j in idx;
    }
  }

  /** The indices are listed in increasing order, so each at most once. */
  lemma {:induction false} HunkStartsIncreasing(lines: seq<string>, lo: nat, hi: nat)
    requires lo <= hi <= |lines|
    ensures forall s, t :: 0 <= s < t < |HunkStarts(lines, lo, hi)| ==> HunkStarts(lines, lo, hi)[s] < HunkStarts(lines, lo, hi)[t]
    decreases hi - lo
  {
    if lo < hi {
      HunkStartsIncreasing(lines, lo, hi - 1);
      var prev := HunkStarts(lines, lo, hi - 1);
      var idx := HunkStarts(lines, lo, hi);
      assert forall t :: 0 <= t < |prev| ==> idx[t] == prev[t] && prev[t] < hi - 1;
    }
  }

  /** The hunks that start at the given header lines, in the same order. */
  function HunksAt(lines: seq<string>, idx: seq<nat>): (hunks: seq<DiffHunk>)
    requires forall t :: 0 <= t < |idx| ==> idx[t] < |lines|
    ensures |hunks| == |idx|
  {
    seq(|idx|, t requires 0 <= t < |idx| => HunkAt(lines[idx[t]..]))
  }

  /**
   * The file one entry describes: the header scan gives the paths and the
   * flags, and every hunk header from where the scan stopped opens a hunk.
   */
  function FileOf(block: seq<string>): DiffFile {
    var h := ScanHeader(block);
    DiffFile(h.state.oldPath, h.state.newPath, HunksAt(block, HunkStarts(block, h.stop, |block|)),
             h.isBinary, h.state.isRenamed)
  }

  /** The files of a list of entries, in the same order. */
  function FilesOf(blocks: seq<seq<string>>): (files: seq<DiffFile>)
    ensures |files| == |blocks|
    decreases |blocks|
  {
    if blocks == [] then [] else FilesOf(blocks[..|blocks| - 1]) + [FileOf(blocks[|blocks| - 1])]
  }

  lemma FilesOfSnoc(blocks: seq<seq<string>>, block: seq<string>)
    ensures FilesOf(blocks + [block]) == FilesOf(blocks) + [FileOf(block)]
  {
    assert (blocks + [block])[..|blocks|] == blocks;
  }

  /** The lines of the text, split at each `\n`. */
  function Lines(diffText: string): seq<string> {
    Split(diffText, '\n')
  }

  /** What parsing a diff text yields. */
  function ParsedFiles(diffText: string): seq<DiffFile> {
    FilesOf(Blocks(Lines(diffText)))
  }

  // ---------------------------------------------------------------------
  // The parser

  /**
   * `parseHunk`: the hunk whose header is `lines[0]`, reading lines until
   * the next hunk header or file marker; no hunk unless `lines[0]` is a
   * hunk header.
   */
  method ParseHunk(lines: seq<string>) returns (hunk: Option<DiffHunk>)
    ensures hunk.None? <==> lines == [] || !IsHunkHeader(lines[0])
    ensures hunk.Some? ==> hunk.value == HunkAt(lines)
  {
    if lines == [] || !IsHunkHeader(lines[0]) {
      return None;
    }
    var header := lines[0];
    var info := ParseHunkHeader(header);
    var hunkLines := ReadHunkLines(lines, info.oldStart, info.newStart);
    hunk := Some(DiffHunk(info.oldStart, info.oldCount, info.newStart, info.newCount, header, hunkLines));
  }

  /**
   * The loop of `parseHunk`: classify and number each line after the header
   * until the next hunk header or file marker, keeping one counter per side.
   */
  method ReadHunkLines(lines: seq<string>, oldStart: nat, newStart: nat) returns (hunkLines: seq<DiffLine>)
    requires |lines| > 0
    ensures hunkLines == NumberLines(lines[1..BodyEnd(lines, 1)], oldStart, newStart)
  {
    hunkLines := [];
    var oldLineNum, newLineNum := oldStart, newStart;
    ghost var end := BodyEnd(lines, 1);
    BodyEndFirst(lines, 1);
    var i := 1;
    while i < |lines|
      invariant 1 <= i <= end
      invariant Numbered(lines, i, oldStart, newStart, hunkLines, oldLineNum, newLineNum)
    {
      var line := lines[i];
      // Stop at the next hunk or file.
      if HasPrefix(line, HunkMarker) || HasPrefix(line, FileMarker) {
        break;
      }
      NumberedAdvance(lines, i, oldStart, newStart, hunkLines, oldLineNum, newLineNum);
      ghost var next := hunkLines + [LineAt(line, oldLineNum, newLineNum)];
      ghost var nextOld := oldLineNum + (if StartsWith(line, '+') then 0 else 1);
      ghost var nextNew := newLineNum + (if StartsWith(line, '-') then 0 else 1);
      if StartsWith(line, '+') {
        hunkLines := hunkLines + [Added(line[1..], newLineNum)];
        newLineNum := newLineNum + 1;
      } else if StartsWith(line, '-') {
        hunkLines := hunkLines + [Removed(line[1..], oldLineNum)];
        oldLineNum := oldLineNum + 1;
      } else {
        var content := if line == "" then "" else if HasPrefix(line, " ") then line[1..] else line;
        hunkLines := hunkLines + [Context(content, oldLineNum, newLineNum)];
        oldLineNum := oldLineNum + 1;
        newLineNum := newLineNum + 1;
      }
      assert hunkLines == next && oldLineNum == nextOld && newLineNum == nextNew;
      i := i + 1;
    }
    assert i == end;
  }

  /** The lines after the header read so far, and the two counters, as the numbering defines them. */
  ghost predicate Numbered(lines: seq<string>, i: nat, oldStart: nat, newStart: nat,
                           hunkLines: seq<DiffLine>, oldLineNum: nat, newLineNum: nat)
    requires 1 <= i <= |lines|
  {
    && hunkLines == NumberLines(lines[1..i], oldStart, newStart)
    && oldLineNum == oldStart + OldSpan(lines[1..i])
    && newLineNum == newStart + NewSpan(lines[1..i])
  }

  /** Numbering one more line: it is classified with the current counters, which then move on. */
  lemma NumberedAdvance(lines: seq<string>, i: nat, oldStart: nat, newStart: nat,
                        hunkLines: seq<DiffLine>, oldLineNum: nat, newLineNum: nat)
    requires 1 <= i < |lines|
    requires Numbered(lines, i, oldStart, newStart, hunkLines, oldLineNum, newLineNum)
    ensures Numbered(lines, i + 1, oldStart, newStart,
                     hunkLines + [LineAt(lines[i], oldLineNum, newLineNum)],
                     oldLineNum + (if StartsWith(lines[i], '+') then 0 else 1),
                     newLineNum + (if StartsWith(lines[i], '-') then 0 else 1))
  {
    var before, after := lines[1..i], lines[1..i + 1];
    assert after[..|after| - 1] == before && after[|after| - 1] == lines[i];
  }

  /** The hunk at `i` ends where the next hunk header or file marker after it stands. */
  lemma {:induction false} BodyEndShift(lines: seq<string>, i: nat, from: nat)
    requires i < |lines| && 1 <= from <= |lines| - i
    ensures BodyEnd(lines[i..], from) + i == BodyEnd(lines, i + from)
    decreases |lines| - i - from
  {
    if from < |lines| - i && !EndsHunk(lines[i..][from]) {
      BodyEndShift(lines, i, from + 1);
    }
  }

  /** Lines that are not hunk headers add no hunk start. */
  lemma {:induction false} HunkStartsSkip(lines: seq<string>, from: nat, i: nat, j: nat)
    requires from <= i <= j <= |lines|
    requires forall t :: i <= t < j ==> !IsHunkHeader(lines[t])
    ensures HunkStarts(lines, from, j) == HunkStarts(lines, from, i)
    decreases j - i
  {
    if i < j {
      HunkStartsSkip(lines, from, i, j - 1);
    }
  }

  /** A hunk header at `hi` is listed after those before it. */
  lemma HunkStartsAtHeader(lines: seq<string>, lo: nat, hi: nat)
    requires lo <= hi < |lines| && IsHunkHeader(lines[hi])
    ensures HunkStarts(lines, lo, hi + 1) == HunkStarts(lines, lo, hi) + [hi]
  {
  }

  /** Reading the hunk at `i` adds it and moves on to where its lines end. */
  lemma HunksAdvance(lines: seq<string>, from: nat, i: nat, hunks: seq<DiffHunk>, h: DiffHunk)
    requires from <= i < |lines| && IsHunkHeader(lines[i])
    requires h == HunkAt(lines[i..])
    requires HunksRead(lines, from, i, hunks)
    ensures i + |h.lines| + 1 <= |lines|
    ensures HunksRead(lines, from, i + |h.lines| + 1, hunks + [h])
  {
    BodyEndShift(lines, i, 1);
    assert i + |h.lines| + 1 == BodyEnd(lines, i + 1);
    HunkStartsAdvance(lines, from, i);
    HunksAtSnoc(lines, HunkStarts(lines, from, i), i);
  }

  /** The hunk headers up to where the body of the hunk at `i` ends are those before `i`, then `i`. */
  lemma HunkStartsAdvance(lines: seq<string>, from: nat, i: nat)
    requires from <= i < |lines| && IsHunkHeader(lines[i])
    ensures HunkStarts(lines, from, BodyEnd(lines, i + 1)) == HunkStarts(lines, from, i) + [i]
  {
    assert HunkStarts(lines, from, i + 1) == HunkStarts(lines, from, i) + [i];
    BodyEndFirst(lines, i + 1);
    HunkStartsSkip(lines, from, i + 1, BodyEnd(lines, i + 1));
  }

  lemma HunksAtSnoc(lines: seq<string>, idx: seq<nat>, i: nat)
    requires forall t :: 0 <= t < |idx| ==> idx[t] < |lines|
    requires i < |lines|
    ensures HunksAt(lines, idx + [i]) == HunksAt(lines, idx) + [HunkAt(lines[i..])]
  {
    var hunks := HunksAt(lines, idx + [i]);
    assert hunks[|idx|] == HunkAt(lines[i..]);
    assert hunks[..|idx|] == HunksAt(lines, idx);
  }

  /**
   * `parseFile`: the header scan, then the hunks; no file for an empty
   * entry.
   */
  method ParseFile(lines: seq<string>) returns (file: Option<DiffFile>)
    ensures file == if lines == [] then None else Some(FileOf(lines))
  {
    if lines == [] {
      return None;
    }
    var oldPath, newPath, isBinary, isRenamed, i := ScanFileHeader(lines);
    var hunks := ReadHunks(lines, i);
    file := Some(DiffFile(oldPath, newPath, hunks, isBinary, isRenamed));
  }

  /**
   * The first loop of `parseFile`: read header lines until a `Binary files`
   * line or a hunk header, updating the paths and the rename flag.
   */
  method ScanFileHeader(lines: seq<string>)
    returns (oldPath: string, newPath: string, isBinary: bool, isRenamed: bool, i: nat)
    ensures ScanHeader(lines) == HeaderScan(HeaderState(oldPath, newPath, isRenamed), i, isBinary)
  {
    oldPath, newPath := "", "";
    isBinary, isRenamed := false, false;
    ghost var stop := HeaderEnd(lines, 0);
    HeaderEndFirst(lines, 0);
    i := 0;
    while i < |lines|
      invariant i <= stop
      invariant Scan(lines[..i]) == HeaderState(oldPath, newPath, isRenamed)
      invariant !isBinary
    {
      var line := lines[i];
      ScanStep(lines, i);
      ghost var next := Step(HeaderState(oldPath, newPath, isRenamed), line);
      if HasPrefix(line, FileMarker) {
        var paths := ExtractPaths(line);
        oldPath := paths.oldPath;
        newPath := paths.newPath;
      } else if HasPrefix(line, "rename from") {
        isRenamed := true;
        oldPath := Drop(line, |"rename from "|);
      } else if HasPrefix(line, "rename to") {
        newPath := Drop(line, |"rename to "|);
      } else if HasPrefix(line, "--- ") {
        if line == "--- " + DevNull {
          oldPath := DevNull;
        } else {
          oldPath := Drop(line, 4);
          if HasPrefix(oldPath, "a/") {
            oldPath := oldPath[2..];
          }
        }
      } else if HasPrefix(line, "+++ ") {
        if line == "+++ " + DevNull {
          newPath := DevNull;
        } else {
          newPath := Drop(line, 4);
          if HasPrefix(newPath, "b/") {
            newPath := newPath[2..];
          }
        }
      } else if Contains(line, "Binary files") {
        isBinary := true;
        break;
      } else if HasPrefix(line, HunkMarker) {
        break;
      }
      assert HeaderState(oldPath, newPath, isRenamed) == next;
      i := i + 1;
    }
    assert i == stop;
  }

  /**
   * The second loop of `parseFile`: from `from` on, every hunk header opens a
   * hunk and the scan resumes where that hunk's lines end. `parseHunk`
   * cannot fail on a line that starts with `@@`, so the source's fallback
   * step past a failed hunk is never taken.
   */
  method ReadHunks(lines: seq<string>, from: nat) returns (hunks: seq<DiffHunk>)
    requires from <= |lines|
    ensures hunks == HunksAt(lines, HunkStarts(lines, from, |lines|))
  {
    hunks := [];
    var i := from;
    while i < |lines|
      invariant from <= i <= |lines|
      invariant HunksRead(lines, from, i, hunks)
    {
      if HasPrefix(lines[i], HunkMarker) {
        hunks, i := ReadHunk(lines, from, i, hunks);
      } else {
        HunksSkip(lines, from, i, hunks);
        i := i + 1;
      }
    }
  }

  /**
   * The loop's step at a hunk header: parse the hunk, append it, and resume
   * after its lines.
   */
  method ReadHunk(lines: seq<string>, from: nat, i: nat, hunks: seq<DiffHunk>)
    returns (hunks': seq<DiffHunk>, next: nat)
    requires from <= i < |lines| && IsHunkHeader(lines[i])
    requires HunksRead(lines, from, i, hunks)
    ensures i < next <= |lines|
    ensures HunksRead(lines, from, next, hunks')
  {
    var hunk := ParseHunk(lines[i..]);
    var h := hunk.value;
    HunksAdvance(lines, from, i, hunks, h);
    hunks', next := hunks + [h], i + |h.lines| + 1;
    assert HunksRead(lines, from, next, hunks');
  }

  /** A line that is not a hunk header adds no hunk. */
  lemma HunksSkip(lines: seq<string>, from: nat, i: nat, hunks: seq<DiffHunk>)
    requires from <= i < |lines| && !IsHunkHeader(lines[i])
    requires HunksRead(lines, from, i, hunks)
    ensures HunksRead(lines, from, i + 1, hunks)
  {
    assert HunkStarts(lines, from, i + 1) == HunkStarts(lines, from, i);
  }

  /** The hunks read so far are those of the hunk headers in `lines[from..i]`. */
  ghost predicate HunksRead(lines: seq<string>, from: nat, i: nat, hunks: seq<DiffHunk>)
    requires from <= i <= |lines|
  {
    hunks == HunksAt(lines, HunkStarts(lines, from, i))
  }

  /**
   * After reading `lines[..i]`: the finished entries `done`, then the open
   * entry `cur` if there is one, are the entries of those lines.
   */
  ghost predicate Reading(lines: seq<string>, i: nat, done: seq<seq<string>>, cur: seq<string>)
    requires i <= |lines|
  {
    && Blocks(lines[..i]) == (if cur == [] then [] else done + [cur])
    && (cur == [] ==> done == [])
  }

  /** The finished entries after reading `line`: a marker closes the open entry. */
  ghost function NextDone(done: seq<seq<string>>, cur: seq<string>, line: string): seq<seq<string>> {
    if IsFileMarker(line) && cur != [] then done + [cur] else done
  }

  /** The open entry after reading `line`: a marker opens a new one, other lines join the open one. */
  ghost function NextOpen(cur: seq<string>, line: string): seq<string> {
    if IsFileMarker(line) then [line] else if cur != [] then cur + [line] else []
  }

  /** One more line read keeps the finished and open entries in step with `Blocks`. */
  lemma ReadingAdvance(lines: seq<string>, i: nat, done: seq<seq<string>>, cur: seq<string>)
    requires i < |lines|
    requires Reading(lines, i, done, cur)
    ensures Reading(lines, i + 1, NextDone(done, cur, lines[i]), NextOpen(cur, lines[i]))
  {
    BlocksStep(lines, i);
    if cur != [] {
      var blocks := done + [cur];
      assert blocks[..|blocks| - 1] == done;
    }
  }

  /** Parses a finished entry and appends its file to those already parsed. */
  method FinishEntry(files: seq<DiffFile>, ghost done: seq<seq<string>>, entry: seq<string>)
    returns (files': seq<DiffFile>)
    requires entry != [] && files == FilesOf(done)
    ensures files' == FilesOf(done + [entry])
  {
    var file := ParseFile(entry);
    FilesOfSnoc(done, entry);
    files' := files + [file.value];
  }

  /** `parse`: split the text into lines, cut it into entries, parse each entry. */
  method Parse(diffText: string) returns (files: seq<DiffFile>)
    ensures files == ParsedFiles(diffText)
  {
    var lines := Split(diffText, '\n');
    files := [];
    var currentFileLines: seq<string> := [];
    ghost var done: seq<seq<string>> := [];
    var i := 0;
    assert lines[..0] == [];
    while i < |lines|
      invariant i <= |lines|
      invariant Reading(lines, i, done, currentFileLines)
      invariant files == FilesOf(done)
    {
      var line := lines[i];
      ReadingAdvance(lines, i, done, currentFileLines);
      ghost var nextDone, nextOpen := NextDone(done, currentFileLines, line), NextOpen(currentFileLines, line);
      if HasPrefix(line, FileMarker) {
        // Process the previous file, if there is one.
        if currentFileLines != [] {
          files := FinishEntry(files, done, currentFileLines);
          done := done + [currentFileLines];
        }
        currentFileLines := [line];
      } else if currentFileLines != [] {
        currentFileLines := currentFileLines + [line];
      }
      assert done == nextDone && currentFileLines == nextOpen;
      i := i + 1;
    }
    assert lines[..i] == lines;
    if currentFileLines != [] {
      files := FinishEntry(files, done, currentFileLines);
    }
  }

  // ---------------------------------------------------------------------
  // What parsing promises

  /** The files of a list of entries are the entries' files, index for index. */
  lemma {:induction false} FilesOfAt(blocks: seq<seq<string>>, k: nat)
    requires k < |blocks|
    ensures FilesOf(blocks)[k] == FileOf(blocks[k])
    decreases |blocks|
  {
    if k < |blocks| - 1 {
      FilesOfAt(blocks[..|blocks| - 1], k);
    }
  }

  /** A run of lines with no marker line holds no entry. */
  lemma {:induction false} NoMarkerNoCount(lines: seq<string>)
    requires forall j :: 0 <= j < |lines| ==> !IsFileMarker(lines[j])
    ensures MarkerCount(lines) == 0
    decreases |lines|
  {
    if lines != [] {
      NoMarkerNoCount(lines[..|lines| - 1]);
    }
  }

  /**
   * One file per `diff --git` line, in the order of those lines: file `k`
   * is what entry `k` describes, and entry `k` runs from the `k`-th marker
   * line up to the next one. Lines before the first marker belong to no
   * file.
   */
  lemma ParsedFilesOrder(diffText: string)
    ensures var blocks := Blocks(Lines(diffText));
      && |ParsedFiles(diffText)| == |blocks| == MarkerCount(Lines(diffText))
      && forall k :: 0 <= k < |blocks| ==> ParsedFiles(diffText)[k] == FileOf(blocks[k]) && IsEntry(blocks[k])
  {
    var blocks := Blocks(Lines(diffText));
    BlocksCount(Lines(diffText));
    BlocksAreEntries(Lines(diffText));
    forall k | 0 <= k < |blocks|
      ensures ParsedFiles(diffText)[k] == FileOf(blocks[k])
    {
      FilesOfAt(blocks, k);
    }
  }

  /** A text without a `diff --git` line, the empty text among them, yields no file. */
  lemma NoMarkerNoFiles(diffText: string)
    requires forall j :: 0 <= j < |Lines(diffText)| ==> !IsFileMarker(Lines(diffText)[j])
    ensures ParsedFiles(diffText) == []
  {
    NoMarkerNoCount(Lines(diffText));
    BlocksCount(Lines(diffText));
  }

  /** The empty text yields no file. */
  lemma EmptyTextNoFiles()
    ensures ParsedFiles("") == []
  {
    assert Lines("") == [""];
    NoMarkerNoFiles("");
  }

  /**
   * Parsing lines joined with `\n` is parsing those lines: splitting gives
   * back exactly the lines that were joined.
   */
  lemma ParsedJoinedLines(lines: seq<string>)
    requires |lines| >= 1
    requires forall k :: 0 <= k < |lines| ==> '\n' !in lines[k]
    ensures ParsedFiles(Join(lines, '\n')) == FilesOf(Blocks(lines))
  {
    SplitJoin(lines, '\n');
  }

  /**
   * A file's hunks: one for each hunk header line from where the header scan
   * stopped, in order, each with that line as its header text; lines above
   * that point open no hunk.
   */
  lemma FileHunks(block: seq<string>)
    ensures var idx := HunkStarts(block, ScanHeader(block).stop, |block|);
      && |FileOf(block).hunks| == |idx|
      && (forall t :: 0 <= t < |idx| ==>
            && FileOf(block).hunks[t] == HunkAt(block[idx[t]..])
            && FileOf(block).hunks[t].header == block[idx[t]]
            && IsHunkHeader(FileOf(block).hunks[t].header))
      && (forall j :: ScanHeader(block).stop <= j < |block| && IsHunkHeader(block[j]) ==> j in idx)
  {
    var idx := HunkStarts(block, ScanHeader(block).stop, |block|);
    HunkStartsHeaders(block, ScanHeader(block).stop, |block|);
    HunkStartsComplete(block, ScanHeader(block).stop, |block|);
    forall t | 0 <= t < |idx|
      ensures FileOf(block).hunks[t] == HunkAt(block[idx[t]..])
    {
      assert FileOf(block).hunks == HunksAt(block, idx);
    }
  }

  /**
   * A file has no hunks exactly when no line from where the header scan
   * stopped on is a hunk header. A binary entry normally ends at its
   * `Binary files` line and so has none; one with a hunk header after that
   * line still gets its hunks.
   */
  lemma NoHunksIffNoHunkHeader(block: seq<string>)
    ensures FileOf(block).hunks == [] <==>
      forall j :: ScanHeader(block).stop <= j < |block| ==> !IsHunkHeader(block[j])
  {
    var stop := ScanHeader(block).stop;
    var idx := HunkStarts(block, stop, |block|);
    HunkStartsHeaders(block, stop, |block|);
    HunkStartsComplete(block, stop, |block|);
    if |idx| > 0 {
      assert stop <= idx[0] < |block| && IsHunkHeader(block[idx[0]]);
    }
    if !(forall j :: stop <= j < |block| ==> !IsHunkHeader(block[j])) {
      var j :| stop <= j < |block| && IsHunkHeader(block[j]);
      assert j in idx;
    }
  }

  /**
   * Within one file entry a hunk's lines are exactly the lines between its
   * header and the next hunk header, or the end of the entry.
   */
  lemma HunkLinesBetweenHeaders(block: seq<string>, t: nat)
    requires IsEntry(block)
    requires t < |HunkStarts(block, ScanHeader(block).stop, |block|)|
    ensures var idx := HunkStarts(block, ScanHeader(block).stop, |block|);
      var next := if t + 1 < |idx| then idx[t + 1] else |block|;
      |FileOf(block).hunks[t].lines| == next - idx[t] - 1
  {
    var idx := HunkStarts(block, ScanHeader(block).stop, |block|);
    BodyEndShift(block, idx[t], 1);
    BodyEndAtNextHeader(block, ScanHeader(block).stop, t);
  }

  /** In an entry, the lines after a hunk header end at the next hunk header, or at the end. */
  lemma BodyEndAtNextHeader(block: seq<string>, lo: nat, t: nat)
    requires IsEntry(block) && lo <= |block|
    requires t < |HunkStarts(block, lo, |block|)|
    ensures var idx := HunkStarts(block, lo, |block|);
      BodyEnd(block, idx[t] + 1) == if t + 1 < |idx| then idx[t + 1] else |block|
  {
    var idx := HunkStarts(block, lo, |block|);
    var e := BodyEnd(block, idx[t] + 1);
    if t + 1 < |idx| {
      HunkStartsHeaders(block, lo, |block|);
      HunkStartsIncreasing(block, lo, |block|);
      BodyEndAtMost(block, idx[t] + 1, idx[t + 1]);
    }
    BodyEndFirst(block, idx[t] + 1);
    if e < |block| {
      assert IsHunkHeader(block[e]) by {
        assert !IsFileMarker(block[e]);
      }
      NextStartAtMost(block, lo, t, e);
    }
  }

  /** The body from `from` ends no later than any line at or after it that ends a hunk. */
  lemma {:induction false} BodyEndAtMost(lines: seq<string>, from: nat, j: nat)
    requires from <= j < |lines| && EndsHunk(lines[j])
    ensures BodyEnd(lines, from) <= j
    decreases j - from
  {
    if from < j && !EndsHunk(lines[from]) {
      BodyEndAtMost(lines, from + 1, j);
    }
  }

  /** A hunk header after the `t`-th one is the next one or comes after it. */
  lemma NextStartAtMost(block: seq<string>, lo: nat, t: nat, j: nat)
    requires lo <= |block|
    requires t < |HunkStarts(block, lo, |block|)|
    requires HunkStarts(block, lo, |block|)[t] < j < |block| && IsHunkHeader(block[j])
    ensures var idx := HunkStarts(block, lo, |block|);
      t + 1 < |idx| && idx[t + 1] <= j
  {
    var idx := HunkStarts(block, lo, |block|);
    HunkStartsComplete(block, lo, |block|);
    HunkStartsIncreasing(block, lo, |block|);
    assert j in idx;
    var s :| 0 <= s < |idx| && idx[s] == j;
    assert t < s;
    if t + 1 < s {
      assert idx[t + 1] < idx[s];
    }
  }
}
