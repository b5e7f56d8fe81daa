/**
 * The lines of one hunk: where they end, how each is classified by its
 * first character, and how the two line counters number them.
 */
module HunkBody {
  import opened Optional
  import opened Text
  import opened DiffModel
  import opened HunkHeader

  /** A hunk's lines stop at the next hunk header or file marker. */
  predicate EndsHunk(line: string) {
    HasPrefix(line, HunkMarker) || HasPrefix(line, FileMarker)
  }

  /** Index of the first line at or after `from` that ends the hunk, or the number of lines. */
  function BodyEnd(lines: seq<string>, from: nat): (e: nat)
    requires from <= |lines|
    ensures from <= e <= |lines|
    decreases |lines| - from
  {
    if from == |lines| || EndsHunk(lines[from]) then from else BodyEnd(lines, from + 1)
  }

  /** The body ends at the first line from `from` on that ends a hunk. */
  lemma {:induction false} BodyEndFirst(lines: seq<string>, from: nat)
    requires from <= |lines|
    ensures forall j :: from <= j < BodyEnd(lines, from) ==> !EndsHunk(lines[j])
    ensures BodyEnd(lines, from) < |lines| ==> EndsHunk(lines[BodyEnd(lines, from)])
    decreases |lines| - from
  {
    if from < |lines| && !EndsHunk(lines[from]) {
      BodyEndFirst(lines, from + 1);
    }
  }

  /** `line.first == c`; the source reads an empty line's first character as a space. */
  predicate StartsWith(line: string, c: char) {
    |line| > 0 && line[0] == c
  }

  /** How many of `body`'s lines take an old-side number: all but the `+` lines. */
  function OldSpan(body: seq<string>): nat
    decreases |body|
  {
    if body == [] then 0
    else OldSpan(body[..|body| - 1]) + (if StartsWith(body[|body| - 1], '+') then 0 else 1)
  }

  /** How many of `body`'s lines take a new-side number: all but the `-` lines. */
  function NewSpan(body: seq<string>): nat
    decreases |body|
  {
    if body == [] then 0
    else NewSpan(body[..|body| - 1]) + (if StartsWith(body[|body| - 1], '-') then 0 else 1)
  }

  /**
   * One hunk line, given the current values of the two counters: `+` is an
   * added line, `-` a removed one, anything else (an empty line or a `\`
   * line included) is context with at most one leading space stripped.
   */
  function LineAt(line: string, oldNumber: nat, newNumber: nat): (d: DiffLine)
    ensures !d.Header?
  {
    if StartsWith(line, '+') then Added(line[1..], newNumber)
    else if StartsWith(line, '-') then Removed(line[1..], oldNumber)
    else Context(if line == "" then "" else StripPrefix(line, " "), oldNumber, newNumber)
  }

  /**
   * Every line takes an old number except an added one, and a new number
   * except a removed one; the numbers are the counters' current values.
   */
  lemma LineAtNumbers(line: string, oldNumber: nat, newNumber: nat)
    ensures LineAt(line, oldNumber, newNumber).OldNumber()
         == if StartsWith(line, '+') then None else Some(oldNumber)
    ensures LineAt(line, oldNumber, newNumber).NewNumber()
         == if StartsWith(line, '-') then None else Some(newNumber)
  {
  }

  /** The text `diff -u` writes for a hunk line: its marker, then its content. */
  function LineText(d: DiffLine): string {
    match d
    case Added(content, _) => "+" + content
    case Removed(content, _) => "-" + content
    case Context(content, _, _) => " " + content
    case Header(content) => content
  }

  /**
   * Classification loses nothing: a line carrying one of the three markers is
   * written back exactly, and a context line without its space keeps all of
   * its text as content.
   */
  lemma LineTextRoundTrip(line: string, oldNumber: nat, newNumber: nat)
    ensures StartsWith(line, '+') || StartsWith(line, '-') || StartsWith(line, ' ') ==>
      LineText(LineAt(line, oldNumber, newNumber)) == line
    ensures !(StartsWith(line, '+') || StartsWith(line, '-') || StartsWith(line, ' ')) ==>
      LineAt(line, oldNumber, newNumber) == Context(line, oldNumber, newNumber)
  {
    if |line| > 0 {
      assert line == [line[0]] + line[1..];
    }
  }

  /**
   * The hunk's lines numbered from `oldStart` and `newStart`, built line by
   * line: each line is classified from its own text and takes the counters
   * that the lines before it leave.
   */
  function NumberLines(body: seq<string>, oldStart: nat, newStart: nat): (ds: seq<DiffLine>)
    ensures |ds| == |body|
    decreases |body|
  {
    if body == [] then []
    else
      var init := body[..|body| - 1];
      NumberLines(init, oldStart, newStart)
        + [LineAt(body[|body| - 1], oldStart + OldSpan(init), newStart + NewSpan(init))]
  }

  /** A hunk holds only added, removed and context lines: the `header` tag is never produced. */
  lemma {:induction false} NumberLinesNoHeader(body: seq<string>, oldStart: nat, newStart: nat)
    ensures forall k :: 0 <= k < |body| ==> !NumberLines(body, oldStart, newStart)[k].Header?
    decreases |body|
  {
    if body != [] {
      NumberLinesNoHeader(body[..|body| - 1], oldStart, newStart);
    }
  }

  /** Numbering a prefix of the lines gives a prefix of the numbering. */
  lemma {:induction false} NumberLinesPrefix(body: seq<string>, oldStart: nat, newStart: nat, j: nat)
    requires j <= |body|
    ensures NumberLines(body[..j], oldStart, newStart) == NumberLines(body, oldStart, newStart)[..j]
    decreases |body|
  {
    if j == |body| {
      assert body[..j] == body;
    } else {
      var init := body[..|body| - 1];
      NumberLinesPrefix(init, oldStart, newStart, j);
      assert init[..j] == body[..j];
    }
  }

  /**
   * Line `k` of the numbering is line `k` of the text, classified with the
   * counters advanced once for each earlier line that takes an old or a new
   * number.
   */
  lemma NumberLinesAt(body: seq<string>, oldStart: nat, newStart: nat, k: nat)
    requires k < |body|
    ensures NumberLines(body, oldStart, newStart)[k]
         == LineAt(body[k], oldStart + OldSpan(body[..k]), newStart + NewSpan(body[..k]))
  {
    var upTo := body[..k + 1];
    NumberLinesPrefix(body, oldStart, newStart, k + 1);
    var all, pre := NumberLines(body, oldStart, newStart), NumberLines(upTo, oldStart, newStart);
    assert all[k] == pre[k];
    NumberLinesLast(upTo, oldStart, newStart);
    assert upTo[..k] == body[..k] && upTo[k] == body[k];
  }

  /** The last line of a numbered run takes the counters the lines before it leave. */
  lemma NumberLinesLast(body: seq<string>, oldStart: nat, newStart: nat)
    requires body != []
    ensures var n := |body| - 1;
      NumberLines(body, oldStart, newStart)[n]
        == LineAt(body[n], oldStart + OldSpan(body[..n]), newStart + NewSpan(body[..n]))
  {
  }

  /** The old-side numbers of a run of lines, in order, skipping lines without one. */
  function OldNumbers(ds: seq<DiffLine>): seq<nat>
    decreases |ds|
  {
    if ds == [] then []
    else
      var last := ds[|ds| - 1];
      OldNumbers(ds[..|ds| - 1]) + (if last.OldNumber().Some? then [last.OldNumber().value] else [])
  }

  /** The new-side numbers of a run of lines, in order, skipping lines without one. */
  function NewNumbers(ds: seq<DiffLine>): seq<nat>
    decreases |ds|
  {
    if ds == [] then []
    else
      var last := ds[|ds| - 1];
      NewNumbers(ds[..|ds| - 1]) + (if last.NewNumber().Some? then [last.NewNumber().value] else [])
  }

  /** `count` consecutive numbers from `start`. */
  function Range(start: nat, count: nat): (r: seq<nat>)
    ensures |r| == count
  {
    seq(count, i requires 0 <= i < count => start + i)
  }

  lemma RangeSnoc(start: nat, count: nat)
    ensures Range(start, count + 1) == Range(start, count) + [start + count]
  {
    assert Range(start, count + 1)[..count] == Range(start, count);
  }

  lemma OldNumbersSnoc(ds: seq<DiffLine>, d: DiffLine)
    ensures OldNumbers(ds + [d]) == OldNumbers(ds) + (if d.OldNumber().Some? then [d.OldNumber().value] else [])
  {
    assert (ds + [d])[..|ds|] == ds;
  }
  /** A run numbered consecutively stays so when a line with the next number, or with none, is added. */
  lemma OldNumbersStep(ds: seq<DiffLine>, d: DiffLine, start: nat, count: nat)
    requires OldNumbers(ds) == Range(start, count)
    requires d.OldNumber().Some? ==> d.OldNumber().value == start + count
    ensures OldNumbers(ds + [d]) == Range(start, count + (if d.OldNumber().Some? then 1 else 0))
  {
    OldNumbersSnoc(ds, d);
    RangeSnoc(start, count);
  }


  lemma NewNumbersSnoc(ds: seq<DiffLine>, d: DiffLine)
    ensures NewNumbers(ds + [d]) == NewNumbers(ds) + (if d.NewNumber().Some? then [d.NewNumber().value] else [])
  {
    assert (ds + [d])[..|ds|] == ds;
  }
  /** A run numbered consecutively stays so when a line with the next number, or with none, is added. */
  lemma NewNumbersStep(ds: seq<DiffLine>, d: DiffLine, start: nat, count: nat)
    requires NewNumbers(ds) == Range(start, count)
    requires d.NewNumber().Some? ==> d.NewNumber().value == start + count
    ensures NewNumbers(ds + [d]) == Range(start, count + (if d.NewNumber().Some? then 1 else 0))
  {
    NewNumbersSnoc(ds, d);
    RangeSnoc(start, count);
  }


  /**
   * The old numbers of a hunk's removed and context lines run consecutively
   * from `oldStart`, one per such line.
   */
  lemma {:induction false} OldNumbersConsecutive(body: seq<string>, oldStart: nat, newStart: nat)
    ensures OldNumbers(NumberLines(body, oldStart, newStart)) == Range(oldStart, OldSpan(body))
    decreases |body|
  {
    if body != [] {
      var init, line := body[..|body| - 1], body[|body| - 1];
      var before := NumberLines(init, oldStart, newStart);
      OldNumbersConsecutive(init, oldStart, newStart);
      var d := LineAt(line, oldStart + OldSpan(init), newStart + NewSpan(init));
      assert NumberLines(body, oldStart, newStart) == before + [d];
      LineAtNumbers(line, oldStart + OldSpan(init), newStart + NewSpan(init));
      OldNumbersStep(before, d, oldStart, OldSpan(init));
    }
  }


  /**
   * The new numbers of a hunk's added and context lines run consecutively
   * from `newStart`, one per such line.
   */
  lemma {:induction false} NewNumbersConsecutive(body: seq<string>, oldStart: nat, newStart: nat)
    ensures NewNumbers(NumberLines(body, oldStart, newStart)) == Range(newStart, NewSpan(body))
    decreases |body|
  {
    if body != [] {
      var init, line := body[..|body| - 1], body[|body| - 1];
      var before := NumberLines(init, oldStart, newStart);
      NewNumbersConsecutive(init, oldStart, newStart);
      var d := LineAt(line, oldStart + OldSpan(init), newStart + NewSpan(init));
      assert NumberLines(body, oldStart, newStart) == before + [d];
      LineAtNumbers(line, oldStart + OldSpan(init), newStart + NewSpan(init));
      NewNumbersStep(before, d, newStart, NewSpan(init));
    }
  }


  /**
   * The hunk that starts at the header `lines[0]`: the decoded header, the
   * raw header text, and one numbered line for each line up to the next
   * hunk header, file marker or end.
   */
  function HunkAt(lines: seq<string>): (h: DiffHunk)
    requires |lines| > 0
    ensures h.header == lines[0]
    ensures |h.lines| == BodyEnd(lines, 1) - 1
  {
    var range := ParseHunkHeader(lines[0]);
    var end := BodyEnd(lines, 1);
    DiffHunk(range.oldStart, range.oldCount, range.newStart, range.newCount, lines[0],
             NumberLines(lines[1..end], range.oldStart, range.newStart))
  }
}
