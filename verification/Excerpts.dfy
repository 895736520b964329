/** The excerpt matcher of the example pages (site/scripts/check-example-excerpts.ts). */
module Excerpts {
  import opened Common
  import opened Text

  type Run = seq<string>

  const MARK := "// ..."

  /** A trimmed line that starts with the elision mark. */
  predicate IsElision(line: string) { MARK <= Trim(line) }

  /** A line is an elision exactly when the mark is the first thing on it. */
  lemma {:induction false} ElisionMeans(line: string)
    ensures IsElision(line) <==> exists i :: 0 <= i <= |line| && AllSpace(line[..i]) && MARK <= line[i..]
  {
    TrimMeans(line);
    var a, b :| 0 <= a <= b <= |line| && Trim(line) == line[a..b] && AllSpace(line[..a]) && AllSpace(line[b..])
                && (Trim(line) != [] ==> !IsSpace(Trim(line)[0]) && !IsSpace(Trim(line)[|Trim(line)| - 1]));
    if MARK <= Trim(line) { assert line[a..][..|MARK|] == line[a..b][..|MARK|]; }
    if i :| 0 <= i <= |line| && AllSpace(line[..i]) && MARK <= line[i..] { MarkInside(line, i, a, b); }
  }

  lemma {:induction false} MarkInside(line: string, i: nat, a: nat, b: nat)
    requires i <= |line| && AllSpace(line[..i]) && MARK <= line[i..]
    requires a <= b <= |line| && AllSpace(line[..a]) && AllSpace(line[b..]) && (a < b ==> !IsSpace(line[a]))
    ensures MARK <= line[a..b]
  {
    assert line[i] == line[i..][0] == MARK[0] == '/' && line[i + 5] == line[i..][5] == MARK[5] == '.';
    assert a <= i by { if i < a { SpaceInside(line, a, i); } }
    assert i + 5 < b by { if b <= i + 5 { SpaceBehind(line, b, i + 5); } }
    assert i <= a by { if a < i { SpaceInside(line, i, a); } }
    assert line[a..b][..|MARK|] == line[i..][..|MARK|];
  }

  lemma {:induction false} SpaceInside(line: string, end: nat, k: nat)
    requires k < end <= |line| && AllSpace(line[..end])
    ensures IsSpace(line[k])
  {
    assert line[..end][k] == line[k];
  }

  lemma {:induction false} SpaceBehind(line: string, from: nat, k: nat)
    requires from <= k < |line| && AllSpace(line[from..])
    ensures IsSpace(line[k])
  {
    assert line[from..][k - from] == line[k];
  }

  function TrimAll(lines: seq<string>): (r: seq<string>)
    ensures |r| == |lines| && forall i :: 0 <= i < |lines| ==> r[i] == TrimEnd(lines[i])
  {
    seq(|lines|, i requires 0 <= i < |lines| => TrimEnd(lines[i]))
  }

  /** Lines cut at the elisions: always one run more than elisions. */
  function Cut(lines: seq<string>): (runs: seq<Run>)
    ensures runs != []
  {
    if lines == [] then [[]]
    else
      var n := |lines| - 1;
      var before := Cut(lines[..n]);
      if IsElision(lines[n]) then before + [[]]
      else before[..|before| - 1] + [before[|before| - 1] + [lines[n]]]
  }

  function FirstText(run: Run): nat {
    if run == [] || run[0] != "" then 0 else 1 + FirstText(run[1..])
  }

  function AfterLastText(run: Run): nat {
    if run == [] || run[|run| - 1] != "" then |run| else AfterLastText(run[..|run| - 1])
  }

  predicate Blank(run: Run) { forall line :: line in run ==> line == "" }

  lemma {:induction false} TextBounds(run: Run)
    ensures FirstText(run) <= |run| && AfterLastText(run) <= |run|
    ensures forall i :: 0 <= i < FirstText(run) ==> run[i] == ""
    ensures forall i :: AfterLastText(run) <= i < |run| ==> run[i] == ""
    ensures FirstText(run) < |run| ==> run[FirstText(run)] != ""
    ensures AfterLastText(run) > 0 ==> run[AfterLastText(run) - 1] != ""
    ensures !Blank(run) <==> FirstText(run) < AfterLastText(run)
  {
    FirstBounds(run);
    LastBounds(run);
    if !Blank(run) {
      var line :| line in run && line != "";
      var i :| 0 <= i < |run| && run[i] == line;
      assert FirstText(run) <= i < AfterLastText(run);
    }
    if FirstText(run) < AfterLastText(run) { assert run[FirstText(run)] in run; }
  }

  lemma {:induction false} FirstBounds(run: Run)
    ensures FirstText(run) <= |run|
    ensures forall i :: 0 <= i < FirstText(run) ==> run[i] == ""
    ensures FirstText(run) < |run| ==> run[FirstText(run)] != ""
  {
    if run != [] && run[0] == "" {
      FirstBounds(run[1..]);
      forall i | 0 <= i < FirstText(run) ensures run[i] == "" {
        if i > 0 { assert run[1..][i - 1] == run[i]; }
      }
    }
  }

  lemma {:induction false} LastBounds(run: Run)
    ensures AfterLastText(run) <= |run|
    ensures forall i :: AfterLastText(run) <= i < |run| ==> run[i] == ""
    ensures AfterLastText(run) > 0 ==> run[AfterLastText(run) - 1] != ""
  {
    if run != [] && run[|run| - 1] == "" { LastBounds(run[..|run| - 1]); }
  }

  /** A run without the blank lines at its ends; nothing when it is all blank. */
  function Strip(run: Run): seq<Run> {
    if FirstText(run) < AfterLastText(run) <= |run| then [run[FirstText(run)..AfterLastText(run)]] else []
  }

  function StripAll(runs: seq<Run>): seq<Run> {
    if runs == [] then [] else StripAll(runs[..|runs| - 1]) + Strip(runs[|runs| - 1])
  }

  function SegmentsOf(body: string): seq<Run> { StripAll(Cut(TrimAll(Lines(body)))) }

  lemma {:induction false} CutNext(lines: seq<string>, i: nat)
    requires i < |lines|
    ensures var before := Cut(lines[..i]);
      Cut(lines[..i + 1]) == if IsElision(lines[i]) then before + [[]]
                             else before[..|before| - 1] + [before[|before| - 1] + [lines[i]]]
  {
    assert lines[..i + 1][..i] == lines[..i];
  }

  lemma {:induction false} StripNext(runs: seq<Run>, i: nat)
    requires i < |runs|
    ensures StripAll(runs[..i + 1]) == StripAll(runs[..i]) + Strip(runs[i])
  {
    assert runs[..i + 1][..i] == runs[..i];
  }

  /** `excerptSegments` */
  method ExcerptSegments(body: string) returns (result: seq<Run>)
    ensures result == SegmentsOf(body)
  {
    var lines := TrimAll(Lines(body));
    var segments: seq<Run> := [[]];
    for i := 0 to |lines|
      invariant segments == Cut(lines[..i])
    {
      CutNext(lines, i);
      if IsElision(lines[i]) {
        segments := segments + [[]];
      } else {
        segments := segments[..|segments| - 1] + [segments[|segments| - 1] + [lines[i]]];
      }
    }
    assert lines[..|lines|] == lines;
    result := [];
    for i := 0 to |segments|
      invariant result == StripAll(segments[..i])
    {
      StripNext(segments, i);
      result := result + Strip(segments[i]);
    }
    assert segments[..|segments|] == segments;
  }

  /** The elision lines, in order. */
  function Elisions(lines: seq<string>): seq<string> {
    if lines == [] then []
    else Elisions(lines[..|lines| - 1]) + (if IsElision(lines[|lines| - 1]) then [lines[|lines| - 1]] else [])
  }

  /** Runs with the elision lines put back between them. */
  function Weave(runs: seq<Run>, marks: seq<string>): seq<string>
    requires |runs| == |marks| + 1
  {
    if marks == [] then runs[0]
    else Weave(runs[..|runs| - 1], marks[..|marks| - 1]) + [marks[|marks| - 1]] + runs[|runs| - 1]
  }

  /** Cutting loses nothing: the runs and the elisions weave back into the lines. */
  lemma {:induction false} CutWeavesBack(lines: seq<string>)
    ensures |Cut(lines)| == |Elisions(lines)| + 1
    ensures Weave(Cut(lines), Elisions(lines)) == lines
  {
    if lines != [] {
      var n := |lines| - 1;
      var runs, marks := Cut(lines[..n]), Elisions(lines[..n]);
      assert lines == lines[..n] + [lines[n]];
      CutWeavesBack(lines[..n]);
      if IsElision(lines[n]) {
        assert Cut(lines) == runs + [[]] && Elisions(lines) == marks + [lines[n]];
        WeaveMark(runs, marks, lines[n]);
      } else {
        assert Cut(lines) == runs[..|runs| - 1] + [runs[|runs| - 1] + [lines[n]]] && Elisions(lines) == marks;
        WeaveLine(runs, marks, lines[n]);
      }
    }
  }

  lemma {:induction false} WeaveMark(runs: seq<Run>, marks: seq<string>, mark: string)
    requires |runs| == |marks| + 1
    ensures Weave(runs + [[]], marks + [mark]) == Weave(runs, marks) + [mark]
  {
    assert (runs + [[]])[..|runs|] == runs && (marks + [mark])[..|marks|] == marks;
  }

  lemma {:induction false} WeaveLine(runs: seq<Run>, marks: seq<string>, line: string)
    requires |runs| == |marks| + 1
    ensures var last := runs[|runs| - 1];
      Weave(runs[..|runs| - 1] + [last + [line]], marks) == Weave(runs, marks) + [line]
  {
    var last := runs[|runs| - 1];
    var next := runs[..|runs| - 1] + [last + [line]];
    assert next[..|next| - 1] == runs[..|runs| - 1];
    if marks != [] {
      var head := Weave(runs[..|runs| - 1], marks[..|marks| - 1]) + [marks[|marks| - 1]];
      assert head + (last + [line]) == (head + last) + [line];
    }
  }

  /** No run holds an elision. */
  lemma {:induction false} RunsHoldNoElision(lines: seq<string>)
    ensures forall i, j :: 0 <= i < |Cut(lines)| && 0 <= j < |Cut(lines)[i]| ==> !IsElision(Cut(lines)[i][j])
  {
    if lines != [] { RunsHoldNoElision(lines[..|lines| - 1]); }
  }

  /** Every segment has a text line at both ends. */
  ghost predicate Segment(run: Run) { run != [] && run[0] != "" && run[|run| - 1] != "" }

  lemma {:induction false} StripIsSegment(run: Run)
    ensures Strip(run) == [] <==> Blank(run)
    ensures forall i :: 0 <= i < |Strip(run)| ==> Segment(Strip(run)[i])
  {
    TextBounds(run);
  }

  ghost predicate AllBlank(runs: seq<Run>) { forall i :: 0 <= i < |runs| ==> Blank(runs[i]) }

  lemma {:induction false} SegmentsHaveText(runs: seq<Run>)
    ensures forall i :: 0 <= i < |StripAll(runs)| ==> Segment(StripAll(runs)[i])
    ensures StripAll(runs) == [] <==> AllBlank(runs)
  {
    if runs != [] {
      var n := |runs| - 1;
      SegmentsHaveText(runs[..n]);
      StripIsSegment(runs[n]);
      assert AllBlank(runs) <==> AllBlank(runs[..n]) && Blank(runs[n]) by {
        assert forall i :: 0 <= i < n ==> runs[..n][i] == runs[i];
      }
    }
  }

  // ---- Searching ---------------------------------------------------------------------------------------

  function Indented(line: string, indent: string): string { if line == "" then "" else indent + line }

  /** The segment occurs in the source at `at`, with the indent on every text line. */
  predicate Occurs(segment: Run, source: seq<string>, at: nat, indent: string) {
    at + |segment| <= |source| && forall k :: 0 <= k < |segment| ==> source[at + k] == Indented(segment[k], indent)
  }

  /** How many lines of the segment match from `at` on. */
  function Matched(segment: Run, source: seq<string>, at: nat, indent: string): (n: nat)
    ensures n <= |segment| && (n == 0 || at + n <= |source|)
    decreases |segment|
  {
    if segment == [] || at >= |source| || source[at] != Indented(segment[0], indent) then 0
    else 1 + Matched(segment[1..], source, at + 1, indent)
  }

  lemma {:induction false} MatchedLines(segment: Run, source: seq<string>, at: nat, indent: string)
    ensures forall k :: 0 <= k < Matched(segment, source, at, indent) ==> source[at + k] == Indented(segment[k], indent)
    decreases |segment|
  {
    if Matched(segment, source, at, indent) > 0 {
      MatchedLines(segment[1..], source, at + 1, indent);
      forall k | 0 < k < Matched(segment, source, at, indent) ensures source[at + k] == Indented(segment[k], indent) {
        assert source[at + 1 + (k - 1)] == Indented(segment[1..][k - 1], indent);
      }
    }
  }

  datatype Found = At(start: nat) | Missing(line: string)

  lemma {:induction false} MatchedIs(segment: Run, source: seq<string>, at: nat, indent: string, n: nat)
    requires n <= |segment| && at + n <= |source|
    requires forall k :: 0 <= k < n ==> source[at + k] == Indented(segment[k], indent)
    requires n < |segment| && at + n < |source| ==> source[at + n] != Indented(segment[n], indent)
    ensures Matched(segment, source, at, indent) == n
  {
    if n > 0 {
      assert source[at + 0] == Indented(segment[0], indent);
      forall k | 0 <= k < n - 1 ensures source[at + 1 + k] == Indented(segment[1..][k], indent) {
        assert source[at + (k + 1)] == Indented(segment[k + 1], indent);
      }
      MatchedIs(segment[1..], source, at + 1, indent, n - 1);
    }
  }

  lemma {:induction false} OccursIsMatched(segment: Run, source: seq<string>, at: nat, indent: string)
    requires segment != []
    ensures Occurs(segment, source, at, indent) <==> Matched(segment, source, at, indent) == |segment|
  {
    if Occurs(segment, source, at, indent) { MatchedIs(segment, source, at, indent, |segment|); }
    MatchedLines(segment, source, at, indent);
  }

  /** The longest partial match of the segment among the starts from `from` to before `end`. */
  ghost predicate LongestIn(segment: Run, source: seq<string>, from: nat, end: nat, indent: string, n: nat) {
    && (forall at :: from <= at < end ==> Matched(segment, source, at, indent) <= n)
    && (n > 0 ==> exists at :: from <= at < end && Matched(segment, source, at, indent) == n)
  }

  lemma {:induction false} LongestExtends(segment: Run, source: seq<string>, from: nat, end: nat, indent: string, n: nat)
    requires from <= end && LongestIn(segment, source, from, end, indent, n)
    ensures var here := Matched(segment, source, end, indent);
      LongestIn(segment, source, from, end + 1, indent, if n < here then here else n)
  {
    var here := Matched(segment, source, end, indent);
    if here <= n && n > 0 {
      var at :| from <= at < end && Matched(segment, source, at, indent) == n;
      assert from <= at < end + 1 && Matched(segment, source, at, indent) == n;
    } else {
      assert from <= end < end + 1 && Matched(segment, source, end, indent) == here;
    }
  }

  /** Starts whose matches are all shorter than the segment are no occurrences. */
  lemma {:induction false} NoOccurrence(segment: Run, source: seq<string>, from: nat, end: nat, indent: string, n: nat)
    requires segment != [] && n < |segment| && LongestIn(segment, source, from, end, indent, n)
    ensures forall at :: from <= at < end ==> !Occurs(segment, source, at, indent)
  {
    forall at | from <= at < end ensures !Occurs(segment, source, at, indent) {
      OccursIsMatched(segment, source, at, indent);
    }
  }

  /** `findSegment`: the first occurrence, or the line after the longest partial match. */
  method FindSegment(segment: Run, source: seq<string>, from: nat, indent: string) returns (found: Found)
    requires segment != []
    ensures found.At? ==>
      from <= found.start && Occurs(segment, source, found.start, indent)
      && forall at :: from <= at < found.start ==> !Occurs(segment, source, at, indent)
    ensures found.Missing? ==>
      && (forall at :: from <= at ==> !Occurs(segment, source, at, indent))
      && exists n: nat :: n < |segment| && found.line == segment[n]
           && LongestIn(segment, source, from, if from < |source| then |source| else from, indent, n)
  {
    var longest: nat := 0;
    var start := from;
    while start < |source|
      invariant from <= start && (start <= |source| || start == from)
      invariant longest < |segment| && LongestIn(segment, source, from, start, indent, longest)
    {
      var matched := MatchAt(segment, source, start, indent);
      if matched == |segment| {
        NoOccurrence(segment, source, from, start, indent, longest);
        OccursIsMatched(segment, source, start, indent);
        return At(start);
      }
      LongestExtends(segment, source, from, start, indent, longest);
      longest := if longest < matched then matched else longest;
      start := start + 1;
    }
    NoOccurrence(segment, source, from, start, indent, longest);
    return Missing(segment[longest]);
  }

  /** The inner loop: how far the segment matches at one start. */
  method MatchAt(segment: Run, source: seq<string>, start: nat, indent: string) returns (matched: nat)
    requires start < |source|
    ensures matched == Matched(segment, source, start, indent)
  {
    matched := 0;
    while matched < |segment| && start + matched < |source| && source[start + matched] == Indented(segment[matched], indent)
      invariant matched <= |segment| && start + matched <= |source|
      invariant forall k :: 0 <= k < matched ==> source[start + k] == Indented(segment[k], indent)
    {
      matched := matched + 1;
    }
    MatchedIs(segment, source, start, indent, matched);
  }

  // ---- Embeddings ------------------------------------------------------------------------------------------

  /** The segments occur in the source in order, at `places`, without overlap, none before `from`. */
  ghost predicate EmbeddedAt(segments: seq<Run>, source: seq<string>, from: nat, indent: string, places: seq<nat>) {
    && |places| == |segments|
    && (forall i :: 0 <= i < |segments| ==> Occurs(segments[i], source, places[i], indent))
    && (|segments| > 0 ==> from <= places[0])
    && (forall i :: 0 <= i < |segments| - 1 ==> places[i] + |segments[i]| <= places[i + 1])
  }

  ghost predicate Embeds(segments: seq<Run>, source: seq<string>, from: nat, indent: string) {
    exists places :: EmbeddedAt(segments, source, from, indent, places)
  }

  /** Taking the first occurrence of the first segment never loses an embedding of the rest. */
  lemma {:induction false} LeftmostIsEnough(segments: seq<Run>, source: seq<string>, from: nat, indent: string, first: nat)
    requires segments != [] && segments[0] != []
    requires from <= first && Occurs(segments[0], source, first, indent)
    requires forall at :: from <= at < first ==> !Occurs(segments[0], source, at, indent)
    ensures Embeds(segments, source, from, indent)
       <==> Embeds(segments[1..], source, first + |segments[0]|, indent)
  {
    var rest := segments[1..];
    if Embeds(segments, source, from, indent) {
      var places :| EmbeddedAt(segments, source, from, indent, places);
      assert Occurs(segments[0], source, places[0], indent);
      assert first <= places[0];
      var tail := places[1..];
      forall i | 0 <= i < |rest| ensures Occurs(rest[i], source, tail[i], indent) {
        assert rest[i] == segments[i + 1] && tail[i] == places[i + 1];
      }
      forall i | 0 <= i < |rest| - 1 ensures tail[i] + |rest[i]| <= tail[i + 1] {
        assert places[i + 1] + |segments[i + 1]| <= places[i + 2];
      }
      assert EmbeddedAt(rest, source, first + |segments[0]|, indent, tail);
    }
    if Embeds(rest, source, first + |segments[0]|, indent) {
      var tail :| EmbeddedAt(rest, source, first + |segments[0]|, indent, tail);
      ConsEmbedded(segments, source, first, indent, tail);
      var places := [first] + tail;
      assert EmbeddedAt(segments, source, from, indent, places);
    }
  }

  lemma {:induction false} NoneEmbeds(segments: seq<Run>, source: seq<string>, from: nat, indent: string)
    requires segments != [] && forall at :: from <= at ==> !Occurs(segments[0], source, at, indent)
    ensures !Embeds(segments, source, from, indent)
  {
    forall places ensures !EmbeddedAt(segments, source, from, indent, places) {
      if |places| == |segments| && from <= places[0] { assert !Occurs(segments[0], source, places[0], indent); }
    }
  }

  /** The first occurrence from `from` on. */
  ghost predicate FirstOccurrence(segment: Run, source: seq<string>, from: nat, at: nat, indent: string) {
    && from <= at && Occurs(segment, source, at, indent)
    && forall earlier :: from <= earlier < at ==> !Occurs(segment, source, earlier, indent)
  }

  /** The line after the longest partial match from `from` on. */
  ghost predicate DriftsAt(segment: Run, source: seq<string>, from: nat, indent: string, line: string) {
    exists n: nat :: n < |segment| && line == segment[n]
      && LongestIn(segment, source, from, if from < |source| then |source| else from, indent, n)
  }

  /** Placing each segment at its first occurrence behind the one before, the search stops at this line. */
  ghost predicate StopsAt(segments: seq<Run>, source: seq<string>, from: nat, indent: string, line: string)
    decreases |segments|
  {
    segments != [] &&
    if exists at: nat :: FirstOccurrence(segments[0], source, from, at, indent) then
      exists at: nat :: FirstOccurrence(segments[0], source, from, at, indent)
                     && StopsAt(segments[1..], source, at + |segments[0]|, indent, line)
    else DriftsAt(segments[0], source, from, indent, line)
  }

  /** `missingWithIndent`: greedy search finds an embedding whenever there is one. */
  method MissingWithIndent(segments: seq<Run>, source: seq<string>, indent: string) returns (missing: Option<string>)
    requires forall i :: 0 <= i < |segments| ==> segments[i] != []
    ensures missing.None? <==> Embeds(segments, source, 0, indent)
    ensures missing.Some? ==> exists i :: 0 <= i < |segments| && missing.value in segments[i]
    ensures missing.Some? ==> StopsAt(segments, source, 0, indent, missing.value)
  {
    var position: nat := 0;
    for i := 0 to |segments|
      invariant Embeds(segments, source, 0, indent) <==> Embeds(segments[i..], source, position, indent)
      invariant forall line :: StopsAt(segments[i..], source, position, indent, line) ==> StopsAt(segments, source, 0, indent, line)
    {
      var found := FindSegment(segments[i], source, position, indent);
      if found.Missing? {
        NoneEmbeds(segments[i..], source, position, indent);
        assert found.line in segments[i];
        assert DriftsAt(segments[i..][0], source, position, indent, found.line);
        assert StopsAt(segments[i..], source, position, indent, found.line);
        return Some(found.line);
      }
      assert FirstOccurrence(segments[i..][0], source, position, found.start, indent);
      forall line | StopsAt(segments[i + 1..], source, found.start + |segments[i]|, indent, line)
        ensures StopsAt(segments[i..], source, position, indent, line)
      {
        assert segments[i..][1..] == segments[i + 1..];
      }
      LeftmostIsEnough(segments[i..], source, position, indent, found.start);
      assert segments[i..][1..] == segments[i + 1..];
      position := found.start + |segments[i]|;
    }
    assert EmbeddedAt(segments[|segments|..], source, position, indent, []);
    return None;
  }

  // ---- The indents that are tried -----------------------------------------------------------------------------

  function LeadingSpaces(line: string): int { |line| - |TrimStart(line)| }

  function Shifts(source: seq<string>): set<int> {
    set i | 0 <= i < |source| && LeadingSpaces(source[i]) > 0 :: LeadingSpaces(source[i])
  }

  function SourceLines(source: string): seq<string> { TrimAll(Lines(source)) }

  /** `line` is `whole` without the white space at its end. */
  ghost predicate CutBack(line: string, whole: string) {
    line <= whole && AllSpace(whole[|line|..]) && (line != "" ==> !IsSpace(line[|line| - 1]))
  }

  /** The source's lines without the white space at their ends; joined they are the source but for that space. */
  lemma {:induction false} SourceLinesMean(source: string)
    ensures var lines := SourceLines(source);
      exists whole: seq<string> :: whole != [] && |whole| == |lines| && Join(whole, '\n') == source
        && (forall i :: 0 <= i < |lines| ==> '\n' !in whole[i] && CutBack(lines[i], whole[i]))
  {
    var whole, lines := Lines(source), SourceLines(source);
    SplitJoins(source, '\n');
    forall i | 0 <= i < |lines| ensures CutBack(lines[i], whole[i]) { TrimEndIsPrefix(whole[i]); }
  }

  /** The excerpt matches the source at one of the tried indents. */
  ghost predicate Matches(body: string, source: string) { MatchesRuns(SegmentsOf(body), SourceLines(source)) }

  ghost predicate EmbedsShifted(segments: seq<Run>, lines: seq<string>, n: nat) {
    Embeds(segments, lines, 0, Spaces(n))
  }

  ghost predicate MatchesRuns(segments: seq<Run>, lines: seq<string>) {
    exists n: nat :: EmbedsShifted(segments, lines, n) && (n == 0 || n in Shifts(lines))
  }

  /** `firstMissingLine`: no line is missing exactly when the excerpt matches at a tried indent. */
  method FirstMissingLine(body: string, source: string) returns (missing: Option<string>)
    ensures missing.None? <==> Matches(body, source)
    ensures missing.Some? ==> exists i :: 0 <= i < |SegmentsOf(body)| && missing.value in SegmentsOf(body)[i]
    ensures missing.Some? ==> StopsAt(SegmentsOf(body), SourceLines(source), 0, "", missing.value)
  {
    var lines := SourceLines(source);
    var segments := ExcerptSegments(body);
    SegmentsHaveText(Cut(TrimAll(Lines(body))));
    HaveText(segments);
    missing := MissingIn(segments, lines);
  }

  lemma {:induction false} HaveText(segments: seq<Run>)
    requires forall i :: 0 <= i < |segments| ==> Segment(segments[i])
    ensures forall i :: 0 <= i < |segments| ==> segments[i] != []
  {
    forall i | 0 <= i < |segments| ensures segments[i] != [] { assert Segment(segments[i]); }
  }

  /** The unshifted excerpt first, then the indents of the source; the answer is that of the unshifted one. */
  method MissingIn(segments: seq<Run>, lines: seq<string>) returns (missing: Option<string>)
    requires forall i :: 0 <= i < |segments| ==> segments[i] != []
    ensures missing.None? <==> MatchesRuns(segments, lines)
    ensures missing.Some? ==> exists i :: 0 <= i < |segments| && missing.value in segments[i]
    ensures missing.Some? ==> StopsAt(segments, lines, 0, "", missing.value)
  {
    missing := MissingWithIndent(segments, lines, "");
    assert Spaces(0) == "";
    assert missing.None? <==> EmbedsShifted(segments, lines, 0);
    if missing.None? { return; }
    var shifted := AnyShift(segments, lines);
    if shifted { return None; }
  }

  /** Whether the excerpt matches at one of the indents of the source's own lines. */
  method AnyShift(segments: seq<Run>, lines: seq<string>) returns (found: bool)
    requires forall i :: 0 <= i < |segments| ==> segments[i] != []
    ensures found <==> exists n: nat :: EmbedsShifted(segments, lines, n) && n in Shifts(lines)
  {
    var shifts := Shifts(lines);
    while shifts != {}
      invariant shifts <= Shifts(lines)
      invariant forall n: nat :: n in Shifts(lines) - shifts ==> !EmbedsShifted(segments, lines, n)
      decreases |shifts|
    {
      var shift :| shift in shifts;
      shifts := shifts - {shift};
      var shifted := MissingWithIndent(segments, lines, Spaces(shift));
      assert shifted.None? <==> EmbedsShifted(segments, lines, shift);
      if shifted.None? { return true; }
    }
    return false;
  }

  // ---- Completeness over every indent ----------------------------------------------------------------------------

  /** Some excerpt line has no indentation, as the formatter of a fence leaves it. */
  ghost predicate Dedented(segments: seq<Run>) {
    exists i, k :: 0 <= i < |segments| && 0 <= k < |segments[i]|
                   && segments[i][k] != "" && !IsSpace(segments[i][k][0])
  }

  lemma {:induction false} LeadingOfIndented(n: nat, line: string)
    requires line != "" && !IsSpace(line[0])
    ensures LeadingSpaces(Spaces(n) + line) == n
  {
    if n > 0 {
      assert (Spaces(n) + line)[1..] == Spaces(n - 1) + line;
      LeadingOfIndented(n - 1, line);
      assert IsSpace(' ');
      assert TrimStart(Spaces(n) + line) == TrimStart(Spaces(n - 1) + line);
    } else {
      assert Spaces(0) + line == line;
    }
  }

  lemma {:induction false} IndentIsTried(segments: seq<Run>, lines: seq<string>, n: nat)
    requires Dedented(segments) && n > 0 && EmbedsShifted(segments, lines, n)
    ensures n in Shifts(lines)
  {
    var places :| EmbeddedAt(segments, lines, 0, Spaces(n), places);
    var i, k :| 0 <= i < |segments| && 0 <= k < |segments[i]|
                && segments[i][k] != "" && !IsSpace(segments[i][k][0]);
    assert Occurs(segments[i], lines, places[i], Spaces(n));
    LeadingOfIndented(n, segments[i][k]);
    assert lines[places[i] + k] == Spaces(n) + segments[i][k];
  }

  /**
   * For an excerpt that keeps a line without indentation, the tried indents are all that
   * matter: it passes exactly when it embeds at any constant number of spaces.
   */
  lemma {:induction false} TriedIndentsAreEnough(segments: seq<Run>, lines: seq<string>)
    requires Dedented(segments)
    ensures MatchesRuns(segments, lines) <==> exists n: nat :: EmbedsShifted(segments, lines, n)
  {
    forall n: nat | EmbedsShifted(segments, lines, n) ensures n == 0 || n in Shifts(lines) {
      if n > 0 { IndentIsTried(segments, lines, n); }
    }
  }

  /** The excerpt's lines one column to the right, run behind run. */
  function ShiftedOnce(segments: seq<Run>): seq<string> {
    if segments == [] then [] else IndentAll(segments[0]) + ShiftedOnce(segments[1..])
  }

  function IndentAll(run: Run): (lines: seq<string>)
    ensures |lines| == |run| && forall i :: 0 <= i < |run| ==> lines[i] == Indented(run[i], Spaces(1))
  {
    if run == [] then [] else [Indented(run[0], Spaces(1))] + IndentAll(run[1..])
  }

  function Total(segments: seq<Run>): nat { if segments == [] then 0 else |segments[0]| + Total(segments[1..]) }

  function PlacesFrom(segments: seq<Run>, at: nat): (places: seq<nat>)
    ensures |places| == |segments| && (segments != [] ==> places[0] == at)
  {
    if segments == [] then [] else [at] + PlacesFrom(segments[1..], at + |segments[0]|)
  }

  /** An occurrence of the first run in front of an embedding of the rest. */
  lemma {:induction false} ConsEmbedded(segments: seq<Run>, lines: seq<string>, at: nat, indent: string, tail: seq<nat>)
    requires segments != [] && Occurs(segments[0], lines, at, indent)
    requires EmbeddedAt(segments[1..], lines, at + |segments[0]|, indent, tail)
    ensures EmbeddedAt(segments, lines, at, indent, [at] + tail)
  {
    var rest, places := segments[1..], [at] + tail;
    forall i | 0 <= i < |segments| ensures Occurs(segments[i], lines, places[i], indent) {
      if i > 0 { assert segments[i] == rest[i - 1] && places[i] == tail[i - 1]; }
    }
    forall i | 0 <= i < |segments| - 1 ensures places[i] + |segments[i]| <= places[i + 1] {
      if i > 0 { assert tail[i - 1] + |rest[i - 1]| <= tail[i]; }
    }
  }

  lemma {:induction false} OccursHere(run: Run, lines: seq<string>, at: nat)
    requires at + |run| <= |lines| && lines[at..at + |run|] == IndentAll(run)
    ensures Occurs(run, lines, at, Spaces(1))
  {
    forall k | 0 <= k < |run| ensures lines[at + k] == Indented(run[k], Spaces(1)) {
      assert lines[at + k] == lines[at..at + |run|][k];
    }
  }

  lemma {:induction false} ShiftedTotal(segments: seq<Run>)
    ensures |ShiftedOnce(segments)| == Total(segments)
  {
    if segments != [] { ShiftedTotal(segments[1..]); }
  }

  lemma {:induction false} SplitTail(lines: seq<string>, at: nat, here: seq<string>, rest: seq<string>)
    requires at <= |lines| && lines[at..] == here + rest
    ensures at + |here| <= |lines| && lines[at..at + |here|] == here && lines[at + |here|..] == rest
  {
    assert lines[at..at + |here|] == lines[at..][..|here|];
    assert lines[at + |here|..] == lines[at..][|here|..];
  }

  /** The shifted lines hold the excerpt one column to the right, wherever they stand. */
  lemma {:induction false} ShiftedEmbeds(segments: seq<Run>, lines: seq<string>, at: nat)
    requires at <= |lines| && lines[at..] == ShiftedOnce(segments)
    ensures EmbeddedAt(segments, lines, at, Spaces(1), PlacesFrom(segments, at))
  {
    if segments != [] {
      var rest, here := segments[1..], IndentAll(segments[0]);
      var next := at + |here|;
      SplitTail(lines, at, here, ShiftedOnce(rest));
      OccursHere(segments[0], lines, at);
      ShiftedEmbeds(rest, lines, next);
      ConsEmbedded(segments, lines, at, Spaces(1), PlacesFrom(rest, next));
    }
  }

  /** Runs take room: an embedding that fills the source starts at its first line. */
  lemma {:induction false} RunsTakeRoom(segments: seq<Run>, lines: seq<string>, from: nat, indent: string, places: seq<nat>)
    requires segments != [] && EmbeddedAt(segments, lines, from, indent, places)
    ensures places[0] + Total(segments) <= |lines|
  {
    var rest, tail := segments[1..], places[1..];
    assert Occurs(segments[0], lines, places[0], indent);
    if rest != [] {
      forall i | 0 <= i < |rest| ensures Occurs(rest[i], lines, tail[i], indent) {
        assert rest[i] == segments[i + 1] && tail[i] == places[i + 1];
      }
      forall i | 0 <= i < |rest| - 1 ensures tail[i] + |rest[i]| <= tail[i + 1] {
        assert places[i + 1] + |segments[i + 1]| <= places[i + 2];
      }
      assert places[0] + |segments[0]| <= places[1];
      RunsTakeRoom(rest, lines, tail[0], indent, tail);
    }
  }

  /** Lines that were all indented stand at least two columns in after the shift. */
  lemma {:induction false} NoSingleSpace(segments: seq<Run>)
    requires !Dedented(segments)
    ensures forall i :: 0 <= i < |ShiftedOnce(segments)| ==> LeadingSpaces(ShiftedOnce(segments)[i]) != 1
  {
    if segments != [] {
      var run, rest := segments[0], segments[1..];
      assert forall i, k :: 0 <= i < |rest| && 0 <= k < |rest[i]| ==> rest[i][k] == segments[i + 1][k];
      NoSingleSpace(rest);
      forall k | 0 <= k < |run| ensures LeadingSpaces(IndentAll(run)[k]) != 1 { AlreadyIndented(run[k]); }
    }
  }

  lemma {:induction false} AlreadyIndented(line: string)
    requires line == "" || IsSpace(line[0])
    ensures LeadingSpaces(Indented(line, Spaces(1))) != 1
  {
    if line != "" {
      var shifted := Spaces(1) + line;
      assert shifted[0] == ' ' && shifted[1..] == line;
      TrimStartIsSuffix(line[1..]);
      assert IsSpace(' ');
      assert TrimStart(shifted) == TrimStart(line) == TrimStart(line[1..]);
    } else {
      assert LeadingSpaces("") == 0;
    }
  }

  /** An excerpt without an unindented line is missed in some source that holds it one column to the right. */
  lemma {:induction false} IndentedExcerptMissed(segments: seq<Run>)
    requires segments != [] && segments[0] != [] && segments[0][0] != "" && !Dedented(segments)
    ensures EmbedsShifted(segments, ShiftedOnce(segments), 1) && !MatchesRuns(segments, ShiftedOnce(segments))
  {
    var lines := ShiftedOnce(segments);
    ShiftedTotal(segments);
    assert lines[0..] == lines;
    ShiftedEmbeds(segments, lines, 0);
    NoSingleSpace(segments);
    assert lines[0] == Indented(segments[0][0], Spaces(1));
    forall n: nat | n != 1 ensures !EmbedsShifted(segments, lines, n) {
      assert |Indented(segments[0][0], Spaces(n))| == n + |segments[0][0]|;
      assert !Occurs(segments[0], lines, 0, Spaces(n));
      forall places ensures !EmbeddedAt(segments, lines, 0, Spaces(n), places) {
        FillingStartsFirst(segments, lines, Spaces(n), places);
      }
    }
  }

  lemma {:induction false} FillingStartsFirst(segments: seq<Run>, lines: seq<string>, indent: string, places: seq<nat>)
    requires segments != [] && Total(segments) == |lines|
    ensures EmbeddedAt(segments, lines, 0, indent, places) ==> Occurs(segments[0], lines, 0, indent)
  {
    if EmbeddedAt(segments, lines, 0, indent, places) { RunsTakeRoom(segments, lines, 0, indent, places); }
  }

  /**
   * The tried indents are enough in every source exactly when the excerpt keeps a line without
   * indentation, or is empty. Segments are as the excerpt cutter leaves them: text at both ends.
   */
  lemma {:induction false} EnoughExactlyWhenDedented(segments: seq<Run>)
    requires forall i :: 0 <= i < |segments| ==> Segment(segments[i])
    ensures (forall lines :: MatchesRuns(segments, lines) <==> exists n: nat :: EmbedsShifted(segments, lines, n))
       <==> (Dedented(segments) || segments == [])
  {
    if Dedented(segments) {
      forall lines ensures MatchesRuns(segments, lines) <==> exists n: nat :: EmbedsShifted(segments, lines, n) {
        TriedIndentsAreEnough(segments, lines);
      }
    } else if segments == [] {
      forall lines ensures MatchesRuns(segments, lines) {
        assert EmbeddedAt(segments, lines, 0, Spaces(0), []);
        assert EmbedsShifted(segments, lines, 0);
      }
    } else {
      assert Segment(segments[0]);
      IndentedExcerptMissed(segments);
    }
  }
}
