/**
 * Decoding of a hunk header `@@ -a[,b] +c[,d] @@`. The source matches the
 * regular expression `@@ -(\d+)(?:,(\d+))? \+(\d+)(?:,(\d+))? @@` anywhere in
 * the line; that pattern has exactly one way to match at a given position
 * (a run of digits is always followed by `,` or a space), so it is modelled
 * as a scanner anchored at one position, tried from left to right.
 */
module HunkHeader {
  import opened Optional
  import opened Text

  /** The four numbers of a hunk header. */
  datatype HunkRange = HunkRange(oldStart: nat, oldCount: nat, newStart: nat, newCount: nat)

  /** What a header the pattern does not match decodes to. */
  const Fallback: HunkRange := HunkRange(1, 0, 1, 0)

  predicate IsDigit(c: char) {
    '0' <= c <= '9'
  }

  predicate AllDigits(ds: string) {
    forall i :: 0 <= i < |ds| ==> IsDigit(ds[i])
  }

  function DigitChar(d: nat): (c: char)
    requires d < 10
    ensures IsDigit(c)
  {
    ('0' as int + d) as char
  }

  /** Length of the run of digits at the front of `t`: `\d+` taken greedily. */
  function DigitRun(t: string): (k: nat)
    ensures k <= |t|
    ensures AllDigits(t[..k])
    ensures k < |t| ==> !IsDigit(t[k])
  {
    if t != [] && IsDigit(t[0]) then
      var k := 1 + DigitRun(t[1..]);
      assert t[..k] == [t[0]] + t[1..][..k - 1];
      k
    else 0
  }

  /** The number a string of decimal digits denotes, most significant first. */
  function Value(ds: string): nat
    requires AllDigits(ds)
  {
    if ds == [] then 0
    else 10 * Value(ds[..|ds| - 1]) + (ds[|ds| - 1] as int - '0' as int)
  }

  /** The decimal text of `n`, as string interpolation prints it. */
  function Show(n: nat): (ds: string)
    ensures |ds| >= 1 && AllDigits(ds)
  {
    if n < 10 then [DigitChar(n)] else Show(n / 10) + [DigitChar(n % 10)]
  }

  /** Printing a number and reading it back gives the number. */
  lemma {:induction false} ValueShow(n: nat)
    ensures Value(Show(n)) == n
  {
    if n >= 10 {
      ValueShow(n / 10);
      var ds := Show(n);
      assert ds[..|ds| - 1] == Show(n / 10);
    }
  }

  /** `(\d+)` at the front of `t`: the number and the text after it. */
  function Number(t: string): Option<(nat, string)> {
    var k := DigitRun(t);
    if k == 0 then None else Some((Value(t[..k]), t[k..]))
  }

  /** `(?:,(\d+))?` at the front of `t`: the count if present, and the text after it. */
  function OptionalCount(t: string): (Option<nat>, string) {
    if HasPrefix(t, ",") && Number(t[1..]).Some? then
      (Some(Number(t[1..]).value.0), Number(t[1..]).value.1)
    else (None, t)
  }

  /**
   * `(\d+)(?:,(\d+))?` followed by the literal `next`, at the front of `t`:
   * the start, the count (1 when omitted), and the text after `next`.
   */
  function Span(t: string, next: string): Option<(nat, nat, string)> {
    match Number(t)
    case None => None
    case Some((start, r)) =>
      var (count, r') := OptionalCount(r);
      if HasPrefix(r', next) then Some((start, count.GetOr(1), r'[|next|..])) else None
  }

  /** The pattern anchored at the front of `t`. */
  function MatchHere(t: string): Option<HunkRange> {
    if !HasPrefix(t, "@@ -") then None
    else match Span(t[4..], " +")
      case None => None
      case Some((oldStart, oldCount, r)) =>
        match Span(r, " @@")
        case None => None
        case Some((newStart, newCount, _)) => Some(HunkRange(oldStart, oldCount, newStart, newCount))
  }

  /**
   * `firstMatch`: the match at the leftmost position where the pattern
   * matches, if there is one.
   */
  function FirstMatch(s: string): Option<HunkRange>
    decreases |s|
  {
    if s == [] then None
    else match MatchHere(s)
      case Some(range) => Some(range)
      case None => FirstMatch(s[1..])
  }

  /**
   * The search finds a match exactly when the pattern matches at some
   * position, and what it finds is the match at the leftmost such position.
   */
  lemma {:induction false} FirstMatchLeftmost(s: string)
    ensures FirstMatch(s).None? <==> forall i :: 0 <= i < |s| ==> MatchHere(s[i..]).None?
    ensures FirstMatch(s).Some? ==>
      exists i :: 0 <= i < |s| && MatchHere(s[i..]) == FirstMatch(s)
                  && forall j :: 0 <= j < i ==> MatchHere(s[j..]).None?
    decreases |s|
  {
    if s != [] {
      assert s[0..] == s;
      FirstMatchLeftmost(s[1..]);
      assert forall i :: 1 <= i < |s| ==> s[i..] == s[1..][i - 1..];
      if MatchHere(s).None? && FirstMatch(s).Some? {
        var i :| 0 <= i < |s[1..]| && MatchHere(s[1..][i..]) == FirstMatch(s[1..])
                 && forall j :: 0 <= j < i ==> MatchHere(s[1..][j..]).None?;
        assert MatchHere(s[i + 1..]) == FirstMatch(s);
        forall j | 0 <= j < i + 1
          ensures MatchHere(s[j..]).None?
        {
          if j > 0 {
            assert s[j..] == s[1..][j - 1..];
          }
        }
      }
    }
  }

  /** `parseHunkHeader`: the first match, or (1, 0, 1, 0) when there is none. */
  function ParseHunkHeader(header: string): HunkRange {
    match FirstMatch(header)
    case Some(range) => range
    case None => Fallback
  }

  /**
   * A header decodes to the numbers of the leftmost place where the pattern
   * matches; where it matches nowhere, to the fallback.
   */
  lemma ParseHunkHeaderMatch(header: string)
    ensures (forall i :: 0 <= i < |header| ==> MatchHere(header[i..]).None?) ==>
      ParseHunkHeader(header) == Fallback
    ensures (exists i :: 0 <= i < |header| && MatchHere(header[i..]).Some?) ==>
      exists i :: 0 <= i < |header| && MatchHere(header[i..]) == Some(ParseHunkHeader(header))
                  && forall j :: 0 <= j < i ==> MatchHere(header[j..]).None?
  {
    FirstMatchLeftmost(header);
  }

  lemma {:induction false} ContainsSuffixPrefix(s: string, p: string, i: nat)
    requires i <= |s| && HasPrefix(s[i..], p)
    ensures Contains(s, p)
    decreases i
  {
    if i > 0 {
      assert s[1..][i - 1..] == s[i..];
      ContainsSuffixPrefix(s[1..], p, i - 1);
    } else {
      assert s[0..] == s;
    }
  }

  /**
   * A line in which `@@ -` occurs nowhere cannot match, so it decodes to the
   * fallback rather than being rejected.
   */
  lemma UnmarkedHeaderFallback(header: string)
    requires !Contains(header, "@@ -")
    ensures ParseHunkHeader(header) == Fallback
  {
    FirstMatchLeftmost(header);
    forall i | 0 <= i < |header|
      ensures MatchHere(header[i..]).None?
    {
      if HasPrefix(header[i..], "@@ -") {
        ContainsSuffixPrefix(header, "@@ -", i);
      }
    }
  }

  /** The text of a count: `,n`, or nothing when the count is omitted. */
  function CountText(count: Option<nat>): string {
    match count
    case None => ""
    case Some(n) => "," + Show(n)
  }

  /**
   * A hunk header line as `diff -u` writes it, with either count possibly
   * omitted, followed by `tail` (a function signature, say).
   */
  function Render(oldStart: nat, oldCount: Option<nat>, newStart: nat, newCount: Option<nat>, tail: string): string {
    "@@ -" + (Show(oldStart) + (CountText(oldCount) + (" +" + (Show(newStart) + (CountText(newCount) + (" @@" + tail))))))
  }

  lemma {:induction false} DigitRunAppend(ds: string, rest: string)
    requires AllDigits(ds)
    requires rest == [] || !IsDigit(rest[0])
    ensures DigitRun(ds + rest) == |ds|
  {
    if ds != [] {
      assert (ds + rest)[1..] == ds[1..] + rest;
      DigitRunAppend(ds[1..], rest);
    }
  }

  lemma NumberShow(n: nat, rest: string)
    requires rest == [] || !IsDigit(rest[0])
    ensures Number(Show(n) + rest) == Some((n, rest))
  {
    var ds := Show(n);
    DigitRunAppend(ds, rest);
    assert (ds + rest)[..|ds|] == ds;
    assert (ds + rest)[|ds|..] == rest;
    ValueShow(n);
  }

  lemma OptionalCountText(count: Option<nat>, rest: string)
    requires HasPrefix(rest, " ")
    ensures OptionalCount(CountText(count) + rest) == (count, rest)
  {
    match count
    case None =>
      assert CountText(count) + rest == rest;
    case Some(n) =>
      var t := CountText(count) + rest;
      assert t == "," + (Show(n) + rest);
      assert t[1..] == Show(n) + rest;
      NumberShow(n, rest);
  }

  lemma SpanRendered(start: nat, count: Option<nat>, next: string, rest: string)
    requires HasPrefix(next, " ")
    ensures Span(Show(start) + (CountText(count) + (next + rest)), next) == Some((start, count.GetOr(1), rest))
  {
    var r := CountText(count) + (next + rest);
    NumberShow(start, r);
    OptionalCountText(count, next + rest);
    assert (next + rest)[|next|..] == rest;
  }

  lemma MatchRendered(oldStart: nat, oldCount: Option<nat>, newStart: nat, newCount: Option<nat>, tail: string)
    ensures MatchHere(Render(oldStart, oldCount, newStart, newCount, tail))
         == Some(HunkRange(oldStart, oldCount.GetOr(1), newStart, newCount.GetOr(1)))
  {
    var r := Show(newStart) + (CountText(newCount) + (" @@" + tail));
    var t := Show(oldStart) + (CountText(oldCount) + (" +" + r));
    var header := Render(oldStart, oldCount, newStart, newCount, tail);
    assert header == "@@ -" + t;
    assert HasPrefix(header, "@@ -") && header[4..] == t;
    SeparatorsStartWithSpace();
    SpanRendered(oldStart, oldCount, " +", r);
    SpanRendered(newStart, newCount, " @@", tail);
  }

  lemma SeparatorsStartWithSpace()
    ensures HasPrefix(" +", " ") && HasPrefix(" @@", " ")
  {
    assert " +"[..1] == " ";
    assert " @@"[..1] == " ";
  }

  /**
   * Decoding undoes rendering, whatever follows the closing `@@`: the
   * numbers come back, and an omitted count reads as 1.
   */
  lemma ParseRenderedHeader(oldStart: nat, oldCount: Option<nat>, newStart: nat, newCount: Option<nat>, tail: string)
    ensures ParseHunkHeader(Render(oldStart, oldCount, newStart, newCount, tail))
         == HunkRange(oldStart, oldCount.GetOr(1), newStart, newCount.GetOr(1))
  {
    MatchRendered(oldStart, oldCount, newStart, newCount, tail);
    assert Render(oldStart, oldCount, newStart, newCount, tail) != [];
  }
}
