/** What the notebook's parser makes of any text a user may have written, and what its printer makes of any cells
    (internal/workspacefs/notebook_format.go). */
module NotebookLaws {
  import opened Prelude
  import opened NotebookText
  import opened NotebookRoundTrip

  // ----- lines --------------------------------------------------------------------------------

  /** Splitting into lines loses nothing; every line but the last ends in its only newline. */
  lemma {:induction false} SplitLosesNothing(s: string)
    ensures Join(Split(s)) == s
    ensures forall i | 0 <= i < |Split(s)| ::
              && Split(s)[i] != ""
              && if i < |Split(s)| - 1 then IsLine(Split(s)[i]) else IsLine(Split(s)[i]) || '\n' !in Split(s)[i]
    decreases |s|
  {
    if s != "" {
      var l := FirstLine(s);
      FirstLineEnds(s);
      SplitLosesNothing(s[|l|..]);
      hide IsLine;
      assert s == l + s[|l|..];
      assert |l| < |s| ==> Split(s[|l|..]) != [];
    }
  }

  lemma {:induction false} FirstLineEnds(s: string)
    requires s != ""
    ensures var l := FirstLine(s); if |l| < |s| then IsLine(l) else IsLine(l) || '\n' !in l
  {
    if s[0] != '\n' && |s| > 1 {
      FirstLineEnds(s[1..]);
      var f := FirstLine(s[1..]);
      assert ([s[0]] + f)[..|f|] == [s[0]] + f[..|f| - 1];
    }
  }

  /** The text with CRLF line ends. */
  function WithCr(s: string): string {
    if s == "" then "" else if s[0] == '\n' then "\r\n" + WithCr(s[1..]) else [s[0]] + WithCr(s[1..])
  }

  predicate HasCrLf(s: string) { exists i | 0 <= i < |s| - 1 :: s[i] == '\r' && s[i + 1] == '\n' }

  /** A text with CRLF line ends is read as the text with plain ones, and a text without CRLF as it stands. */
  lemma {:induction false} CrLfIsALineEnd(s: string)
    requires !HasCrLf(s)
    ensures WithoutCr(s) == s && WithoutCr(WithCr(s)) == s
  {
    if s != "" {
      assert !HasCrLf(s[1..]) by {
        assert forall i | 0 <= i < |s[1..]| :: s[1..][i] == s[i + 1];
      }
      CrLfIsALineEnd(s[1..]);
      var t := WithCr(s);
      if s[0] == '\n' {
        assert t[2..] == WithCr(s[1..]);
      } else {
        assert t[1..] == WithCr(s[1..]);
        assert !StartsCrLf(t) by { assert |s| > 1 ==> !(s[0] == '\r' && s[1] == '\n'); }
      }
    }
  }

  /** White space at both ends, and nothing else, goes. */
  lemma TrimTakesOnlySpace(s: string)
    ensures exists a, b :: s == a + TrimSpace(s) + b && (forall c | c in a + b :: IsSpace(c))
    ensures var t := TrimSpace(s); t != "" ==> !IsSpace(t[0]) && !IsSpace(t[|t| - 1])
  {
    var l := TrimLeft(s);
    LeftTakesOnlySpace(s);
    RightTakesOnlySpace(l);
    var a, b := s[..|s| - |l|], l[|TrimRight(l)|..];
    assert s == a + TrimSpace(s) + b;
  }

  lemma {:induction false} LeftTakesOnlySpace(s: string)
    ensures var l := TrimLeft(s);
            && |l| <= |s| && s == s[..|s| - |l|] + l && (forall c | c in s[..|s| - |l|] :: IsSpace(c))
            && (l != "" ==> !IsSpace(l[0]))
  {
    if s != "" && IsSpace(s[0]) {
      LeftTakesOnlySpace(s[1..]);
      var l := TrimLeft(s);
      assert s[..|s| - |l|] == [s[0]] + s[1..][..|s| - 1 - |l|];
    }
  }

  lemma {:induction false} RightTakesOnlySpace(s: string)
    ensures var r := TrimRight(s);
            && r <= s && (forall c | c in s[|r|..] :: IsSpace(c)) && (r != "" ==> !IsSpace(r[|r| - 1]))
  {
    if s != "" && IsSpace(s[|s| - 1]) {
      RightTakesOnlySpace(s[..|s| - 1]);
      var r := TrimRight(s);
      assert s[|r|..] == s[..|s| - 1][|r|..] + [s[|s| - 1]];
    }
  }

  /** Of a markdown line goes the longest of these prefixes it has, and nothing else. */
  lemma UncommentTakesAPrefix(line: string)
    ensures exists p | p in {"", "#", "# ", "#\t"} ::
              && line == p + Uncomment(line)
              && forall q | q in {"", "#", "# ", "#\t"} && q <= line :: |q| <= |p|
  {
    var p := if line == "" || line[0] != '#' then "" else if |line| > 1 && line[1] == ' ' then "# "
             else if |line| > 1 && line[1] == '\t' then "#\t" else "#";
    assert line == p + Uncomment(line);
    assert forall q: string | q in {"", "#", "# ", "#\t"} && q <= line :: |q| <= |p|;
  }

  // ----- the metadata header ------------------------------------------------------------------

  ghost predicate AllBlank(lines: seq<string>) { forall l | l in lines :: IsBlank(l) }

  lemma {:induction false} SkippingBlanks(lines: seq<string>, b: nat)
    requires b <= |lines| && AllBlank(lines[..b]) && (b < |lines| ==> !IsBlank(lines[b]))
    ensures SkipBlank(lines) == lines[b..]
  {
    hide IsBlank;
    if b > 0 {
      assert lines[0] in lines[..b];
      assert lines[1..][..b - 1] == lines[..b][1..];
      SkippingBlanks(lines[1..], b - 1);
    }
  }

  lemma {:induction false} FirstEnd(lines: seq<string>, j: nat)
    requires j <= |lines| && (forall k | 0 <= k < j :: TrimSpace(lines[k]) != HEADER_END)
    requires j < |lines| ==> TrimSpace(lines[j]) == HEADER_END
    ensures AfterEnd(lines) == if j < |lines| then Some(lines[j + 1..]) else None
  {
    hide TrimSpace;
    if j > 0 {
      assert forall k | 0 <= k < |lines[1..]| :: lines[1..][k] == lines[k + 1];
      FirstEnd(lines[1..], j - 1);
    }
  }

  /** Before the cells, only blank lines go, unless the first other line opens a header that a later line closes: then
      the lines up to the first that closes it go, and the blank lines after. */
  lemma OnlyTheHeaderGoes(lines: seq<string>, b: nat, j: nat, c: nat)
    requires b <= j <= |lines| && AllBlank(lines[..b]) && (b < |lines| ==> !IsBlank(lines[b]))
    requires forall k | b < k < j :: TrimSpace(lines[k]) != HEADER_END
    requires j < |lines| ==>
               && b < j < c <= |lines| && TrimSpace(lines[j]) == HEADER_END
               && AllBlank(lines[j + 1..c]) && (c < |lines| ==> !IsBlank(lines[c]))
    ensures StripHeader(lines) ==
            if j < |lines| && TrimSpace(lines[b]) == HEADER_START then lines[c..] else lines[b..]
  {
    hide SkipBlank, AfterEnd, TrimSpace, IsBlank, AllBlank, HEADER_START, HEADER_END;
    SkippingBlanks(lines, b);
    if b < |lines| {
      EndAfter(lines, b, j);
      if j < |lines| { BlanksAfter(lines, j + 1, c); }
    }
  }

  lemma EndAfter(lines: seq<string>, b: nat, j: nat)
    requires b < |lines| && b <= j <= |lines| && (j < |lines| ==> b < j && TrimSpace(lines[j]) == HEADER_END)
    requires forall k | b < k < j :: TrimSpace(lines[k]) != HEADER_END
    ensures AfterEnd(lines[b..][1..]) == if j < |lines| then Some(lines[j + 1..]) else None
  {
    hide AfterEnd, TrimSpace, HEADER_END;
    var s := lines[b..][1..];
    assert forall k | 0 <= k < |s| :: s[k] == lines[b + 1 + k];
    FirstEnd(s, j - b - 1);
    if j < |lines| { assert s[j - b..] == lines[j + 1..]; }
  }

  lemma BlanksAfter(lines: seq<string>, j: nat, c: nat)
    requires j <= c <= |lines| && AllBlank(lines[j..c]) && (c < |lines| ==> !IsBlank(lines[c]))
    ensures SkipBlank(lines[j..]) == lines[c..]
  {
    hide SkipBlank, IsBlank, AllBlank;
    assert lines[j..][..c - j] == lines[j..c] && lines[j..][c - j..] == lines[c..];
    SkippingBlanks(lines[j..], c - j);
  }

  // ----- cells --------------------------------------------------------------------------------

  /** All positions of cell markers, in order. */
  ghost predicate AreMarkers(lines: seq<string>, marks: seq<nat>) {
    && (forall i, j | 0 <= i < j < |marks| :: marks[i] < marks[j])
    && (forall k | 0 <= k < |marks| :: marks[k] < |lines| && IsMarker(lines[marks[k]]))
    && (forall i | 0 <= i < |lines| && IsMarker(lines[i]) :: i in marks)
  }

  /** What a stretch of lines says in a cell of this kind, line by line; before another marker its closing empty
      line only sets off that marker. */
  function Said(kind: string, stretch: seq<string>, closed: bool): seq<string> {
    var said := seq(|stretch|, i requires 0 <= i < |stretch| =>
                      if kind == "markdown" then Uncomment(stretch[i]) else stretch[i]);
    if closed && said != [] && said[|said| - 1] == "\n" then said[..|said| - 1] else said
  }

  function KindOf(marker: string): string { if IsMarkdownMarker(marker) then "markdown" else "code" }

  ghost function StretchEnd(lines: seq<string>, marks: seq<nat>, k: nat): nat {
    if k < |marks| then marks[k] else |lines|
  }

  /** The cell a marker starts. */
  ghost function CellAt(lines: seq<string>, marks: seq<nat>, k: nat): Cell
    requires AreMarkers(lines, marks) && k < |marks|
  {
    var end := StretchEnd(lines, marks, k + 1);
    var kind := KindOf(lines[marks[k]]);
    Cell(kind, Said(kind, lines[marks[k] + 1..end], k + 1 < |marks|))
  }

  /** The cell of the lines before any marker, if there are any. */
  ghost function Leading(kind: string, current: seq<string>, seen: bool): seq<Cell> {
    if seen || current != [] then [Cell(kind, current)] else []
  }

  lemma {:induction false} FeedPlain(p: Parser, lines: seq<string>)
    requires forall i | 0 <= i < |lines| :: !IsMarker(lines[i])
    ensures FeedAll(p, lines) == p.(current := p.current + Said(p.kind, lines, false))
    decreases |lines|
  {
    hide IsMarker, Uncomment;
    if lines == [] {
      assert p.current + Said(p.kind, lines, false) == p.current;
    } else {
      var q := Feed(p, lines[0]);
      FeedPlain(q, lines[1..]);
      assert q.current + Said(p.kind, lines[1..], false) == p.current + Said(p.kind, lines, false);
    }
  }

  lemma FeedMark(p: Parser, stretch: seq<string>, line: string)
    requires p.current == [] && IsMarker(line) && forall i | 0 <= i < |stretch| :: !IsMarker(stretch[i])
    ensures Feed(FeedAll(p, stretch), line) ==
            Parser(p.cells + Leading(p.kind, Said(p.kind, stretch, true), p.seen), KindOf(line), [], true)
  {
    FeedPlain(p, stretch);
    hide IsMarker, IsMarkdownMarker, Uncomment, FeedAll;
    assert p.current + Said(p.kind, stretch, false) == Said(p.kind, stretch, false);
  }

  lemma MarksBelow(lines: seq<string>, marks: seq<nat>)
    requires AreMarkers(lines, marks)
    ensures forall i | 0 <= i < StretchEnd(lines, marks, 0) :: !IsMarker(lines[..StretchEnd(lines, marks, 0)][i])
  {
    var m := StretchEnd(lines, marks, 0);
    forall i | 0 <= i < m ensures !IsMarker(lines[..m][i]) {
      assert lines[..m][i] == lines[i];
      assert marks != [] ==> forall k | 0 <= k < |marks| :: marks[0] <= marks[k];
    }
  }

  function Shifted(marks: seq<nat>, n: nat): (r: seq<nat>)
    requires forall k | 0 <= k < |marks| :: n <= marks[k]
    ensures |r| == |marks|
  {
    seq(|marks|, k requires 0 <= k < |marks| => marks[k] - n)
  }

  lemma ShiftedMarks(lines: seq<string>, marks: seq<nat>)
    requires AreMarkers(lines, marks) && marks != []
    ensures var n := marks[0] + 1;
            && n <= |lines| && (forall k | 0 <= k < |marks[1..]| :: n <= marks[1..][k])
            && forall k | 0 <= k < |marks| - 1 ::
                 && n <= marks[k + 1] < |lines|
                 && Shifted(marks[1..], n)[k] == marks[k + 1] - n && lines[n..][marks[k + 1] - n] == lines[marks[k + 1]]
  {
    hide IsMarker;
    assert forall k | 0 <= k < |marks[1..]| :: marks[1..][k] == marks[k + 1];
  }

  lemma MarkIsFound(lines: seq<string>, marks: seq<nat>, i: nat)
    requires AreMarkers(lines, marks) && marks != [] && marks[0] < i < |lines| && IsMarker(lines[i])
    ensures i in marks[1..]
  {
    hide IsMarker;
    var k :| 0 <= k < |marks| && marks[k] == i;
    assert marks[1..][k - 1] == i;
  }

  /** The position i of the rest is that of a marker exactly when it is listed. */
  lemma LaterMark(lines: seq<string>, marks: seq<nat>, rest: seq<string>, later: seq<nat>, i: nat)
    requires AreMarkers(lines, marks) && marks != [] && marks[0] + 1 <= |lines| && rest == lines[marks[0] + 1..]
    requires |later| == |marks| - 1 && forall k | 0 <= k < |later| :: later[k] + marks[0] + 1 == marks[k + 1]
    requires i < |rest| && IsMarker(rest[i])
    ensures i in later
  {
    hide IsMarker;
    var n := marks[0] + 1;
    assert lines[i + n] == rest[i];
    MarkIsFound(lines, marks, i + n);
    hide AreMarkers;
    var k :| 0 <= k < |marks[1..]| && marks[1..][k] == i + n;
    assert later[k] == i;
  }

  lemma MarksAfter(lines: seq<string>, marks: seq<nat>)
    requires AreMarkers(lines, marks) && marks != []
    ensures var n := marks[0] + 1;
            && n <= |lines| && (forall k | 0 <= k < |marks[1..]| :: n <= marks[1..][k])
            && AreMarkers(lines[n..], Shifted(marks[1..], n))
  {
    hide IsMarker, Shifted;
    ShiftedMarks(lines, marks);
    var n := marks[0] + 1;
    var rest, later := lines[n..], Shifted(marks[1..], n);
    forall k | 0 <= k < |later| ensures later[k] + n == marks[k + 1] && later[k] < |rest| && IsMarker(rest[later[k]]) {
      assert rest[later[k]] == lines[marks[k + 1]];
    }
    forall i: nat | i < |rest| && IsMarker(rest[i]) ensures i in later { LaterMark(lines, marks, rest, later, i); }
  }

  lemma StretchIsProper(lines: seq<string>, marks: seq<nat>, k: nat)
    requires AreMarkers(lines, marks) && k < |marks|
    ensures marks[k] < |lines| && marks[k] < StretchEnd(lines, marks, k + 1) <= |lines|
  {
    hide IsMarker;
  }

  lemma CutShifted(lines: seq<string>, n: nat, i: nat, j: nat)
    requires n <= i < j <= |lines|
    ensures lines[n..][i - n] == lines[i] && lines[n..][i - n + 1..j - n] == lines[i + 1..j]
  {
  }

  lemma CellAfter(lines: seq<string>, marks: seq<nat>, rest: seq<string>, later: seq<nat>, k: nat)
    requires AreMarkers(lines, marks) && AreMarkers(rest, later) && k + 1 < |marks|
    requires marks[0] + 1 <= |lines| && rest == lines[marks[0] + 1..]
    requires |later| == |marks| - 1 && forall k | 0 <= k < |later| :: later[k] + marks[0] + 1 == marks[k + 1]
    ensures CellAt(rest, later, k) == CellAt(lines, marks, k + 1)
  {
    hide IsMarker, Said, KindOf, AreMarkers;
    var n, end := marks[0] + 1, StretchEnd(lines, marks, k + 2);
    StretchIsProper(lines, marks, k + 1);
    StretchIsProper(rest, later, k);
    assert StretchEnd(rest, later, k + 1) == end - n;
    CutShifted(lines, n, marks[k + 1], end);
  }

  ghost function CellsAt(lines: seq<string>, marks: seq<nat>): (r: seq<Cell>)
    requires AreMarkers(lines, marks)
    ensures |r| == |marks| && forall k | 0 <= k < |marks| :: r[k] == CellAt(lines, marks, k)
  {
    seq(|marks|, k requires 0 <= k < |marks| => CellAt(lines, marks, k))
  }

  lemma CellsStep(lines: seq<string>, marks: seq<nat>)
    requires AreMarkers(lines, marks) && marks != []
    ensures forall k | 0 <= k < |marks[1..]| :: marks[0] + 1 <= marks[1..][k]
    ensures var n := marks[0] + 1;
            && AreMarkers(lines[n..], Shifted(marks[1..], n))
            && CellsAt(lines, marks) == [CellAt(lines, marks, 0)] + CellsAt(lines[n..], Shifted(marks[1..], n))
  {
    hide CellAt, AreMarkers;
    MarksAfter(lines, marks);
    ShiftedMarks(lines, marks);
    var n := marks[0] + 1;
    var rest, later := lines[n..], Shifted(marks[1..], n);
    var all, tail := CellsAt(lines, marks), CellsAt(rest, later);
    forall k | 0 <= k < |tail| ensures tail[k] == all[k + 1] { CellAfter(lines, marks, rest, later, k); }
    assert all == [all[0]] + tail;
  }

  lemma FirstMark(lines: seq<string>, marks: seq<nat>)
    requires AreMarkers(lines, marks) && marks != []
    ensures marks[0] < |lines| && IsMarker(lines[marks[0]])
    ensures forall i | 0 <= i < marks[0] :: !IsMarker(lines[..marks[0]][i])
  {
    hide IsMarker;
    MarksBelow(lines, marks);
  }

  lemma FeedStretch(p: Parser, lines: seq<string>, marks: seq<nat>)
    requires p.current == [] && AreMarkers(lines, marks) && marks != []
    ensures FeedAll(p, lines) ==
            FeedAll(Parser(p.cells + Leading(p.kind, Said(p.kind, lines[..marks[0]], true), p.seen),
                           KindOf(lines[marks[0]]), [], true), lines[marks[0] + 1..])
  {
    hide *;
    FirstMark(lines, marks);
    var m := marks[0];
    FeedMark(p, lines[..m], lines[m]);
    assert lines == lines[..m] + ([lines[m]] + lines[m + 1..]);
    FeedConcat(p, lines[..m], [lines[m]] + lines[m + 1..]);
    FeedOne(FeedAll(p, lines[..m]), lines[m], lines[m + 1..]);
  }

  lemma FeedOne(p: Parser, line: string, rest: seq<string>)
    ensures FeedAll(p, [line] + rest) == FeedAll(Feed(p, line), rest)
  {
    hide Feed;
    assert ([line] + rest)[1..] == rest;
  }

  lemma {:induction false} CellsAreStretches(p: Parser, lines: seq<string>, marks: seq<nat>)
    requires p.current == [] && AreMarkers(lines, marks)
    ensures Flush(FeedAll(p, lines)).cells ==
            p.cells + Leading(p.kind, Said(p.kind, lines[..StretchEnd(lines, marks, 0)], marks != []), p.seen)
            + CellsAt(lines, marks)
    decreases |marks|
  {
    hide *;
    if marks == [] {
      NoStretches(p, lines, marks);
    } else {
      MarksAfter(lines, marks);
      FeedStretch(p, lines, marks);
      CellsStep(lines, marks);
      FirstCell(lines, marks);
      StretchIsFirst(lines, marks);
      var n := marks[0] + 1;
      var lead := Leading(p.kind, Said(p.kind, lines[..marks[0]], true), p.seen);
      CellsAreStretches(Parser(p.cells + lead, KindOf(lines[marks[0]]), [], true), lines[n..], Shifted(marks[1..], n));
    }
  }

  lemma NoStretches(p: Parser, lines: seq<string>, marks: seq<nat>)
    requires p.current == [] && AreMarkers(lines, marks) && marks == []
    ensures Flush(FeedAll(p, lines)).cells ==
            p.cells + Leading(p.kind, Said(p.kind, lines[..StretchEnd(lines, marks, 0)], false), p.seen)
            + CellsAt(lines, marks)
  {
    MarksBelow(lines, marks);
    assert lines[..|lines|] == lines;
    FeedPlain(p, lines);
    hide Said, FeedAll, IsMarker;
    assert p.current + Said(p.kind, lines, false) == Said(p.kind, lines, false);
  }

  lemma FirstCell(lines: seq<string>, marks: seq<nat>)
    requires AreMarkers(lines, marks) && marks != []
    ensures forall k | 0 <= k < |marks[1..]| :: marks[0] + 1 <= marks[1..][k]
    ensures var n := marks[0] + 1;
            var rest, later, kind := lines[n..], Shifted(marks[1..], n), KindOf(lines[marks[0]]);
            Leading(kind, Said(kind, rest[..StretchEnd(rest, later, 0)], later != []), true) ==
              [CellAt(lines, marks, 0)]
  {
    MarksAfter(lines, marks);
    var n := marks[0] + 1;
    var rest, later := lines[n..], Shifted(marks[1..], n);
    assert rest[..StretchEnd(rest, later, 0)] == lines[n..StretchEnd(lines, marks, 1)];
  }

  lemma StretchIsFirst(lines: seq<string>, marks: seq<nat>)
    requires marks != []
    ensures StretchEnd(lines, marks, 0) == marks[0]
  {
  }

  /** No line is lost, whatever was written. The markers cut the lines into stretches. The lines before the first
      marker, if any, become a code cell of their own; every marker starts a cell of its kind with the lines up to
      the next one: verbatim in a code cell, uncommented in a markdown cell. */
  lemma EveryLineIsInItsCell(data: string, lines: seq<string>, marks: seq<nat>)
    requires lines == StripHeader(Split(WithoutCr(data))) && AreMarkers(lines, marks)
    ensures StretchEnd(lines, marks, 0) <= |lines|
    ensures Parsed(data) ==
            Leading("code", Said("code", lines[..StretchEnd(lines, marks, 0)], marks != []), false)
              + CellsAt(lines, marks)
  {
    hide StripHeader, Split, WithoutCr, Said, IsMarker, FeedAll, Flush, KindOf, Leading, CellsAt;
    CellsAreStretches(START, lines, marks);
  }

  /** Every text has its markers. */
  ghost function MarkersOf(lines: seq<string>): (marks: seq<nat>)
    ensures AreMarkers(lines, marks)
  {
    if lines == [] then []
    else
      var n := |lines| - 1;
      var marks := MarkersOf(lines[..n]);
      assert forall i | 0 <= i < n :: lines[..n][i] == lines[i];
      if IsMarker(lines[n]) then marks + [n] else marks
  }

  // ----- printing -----------------------------------------------------------------------------

  /** The positions of the values there are, in order. */
  ghost predicate AreGiven(values: seq<string>, given: seq<nat>) {
    && (forall i, j | 0 <= i < j < |given| :: given[i] < given[j])
    && forall i: nat :: i in given <==> i < |values| && values[i] != ""
  }

  function EntryAt(keys: seq<string>, values: seq<string>, json: string -> string, i: nat): string
    requires i < |keys| == |values|
  {
    "# " + keys[i] + ": " + json(values[i]) + "\n"
  }

  lemma {:induction false} EntryLinesLast(keys: seq<string>, values: seq<string>, json: string -> string)
    requires |keys| == |values| > 0
    ensures var n := |keys| - 1;
            EntryLines(keys, values, json) ==
            EntryLines(keys[..n], values[..n], json) + if values[n] == "" then [] else [Entry(keys[n], values[n], json)]
  {
    hide Entry;
    var n := |keys| - 1;
    if n > 0 {
      EntryLinesLast(keys[1..], values[1..], json);
      assert keys[1..][..n - 1] == keys[..n][1..] && values[1..][..n - 1] == values[..n][1..];
    }
  }

  lemma GivenBefore(values: seq<string>, given: seq<nat>)
    requires AreGiven(values, given) && values != []
    ensures var n := |values| - 1;
            if values[n] == "" then AreGiven(values[..n], given)
            else given != [] && given[|given| - 1] == n && AreGiven(values[..n], given[..|given| - 1])
  {
    var n := |values| - 1;
    if values[n] != "" {
      var k :| 0 <= k < |given| && given[k] == n;
      assert given[|given| - 1] in given && given[|given| - 1] <= n;
      assert k == |given| - 1;
      assert forall j | 0 <= j < k :: given[j] in given;
      var front := given[..k];
      forall i: nat ensures i in front <==> i < n && values[i] != "" {
        if i in front {
          var j :| 0 <= j < k && front[j] == i;
          assert given[j] == i;
        }
        if i < n && values[i] != "" {
          assert i in given;
          var j :| 0 <= j < |given| && given[j] == i;
          assert front[j] == i;
        }
      }
    } else {
      assert forall i: nat | i in given :: i != n;
    }
  }

  /** These entries, in this order. */
  ghost function Listed(keys: seq<string>, values: seq<string>, json: string -> string,
                        given: seq<nat>): (r: seq<string>)
    requires |keys| == |values| && forall k | 0 <= k < |given| :: given[k] < |values|
    ensures |r| == |given| && forall k | 0 <= k < |given| :: r[k] == EntryAt(keys, values, json, given[k])
  {
    seq(|given|, k requires 0 <= k < |given| => EntryAt(keys, values, json, given[k]))
  }

  lemma GivenInRange(values: seq<string>, given: seq<nat>)
    requires AreGiven(values, given)
    ensures (forall k | 0 <= k < |given| :: given[k] < |values|) && (values == [] ==> given == [])
  {
    assert forall k | 0 <= k < |given| :: given[k] in given;
    assert given != [] ==> given[0] in given;
  }

  lemma ListedStep(keys: seq<string>, values: seq<string>, json: string -> string, given: seq<nat>, front: seq<nat>)
    requires |keys| == |values| > 0 && forall k | 0 <= k < |front| :: front[k] < |values| - 1
    requires given == if values[|keys| - 1] == "" then front else front + [|keys| - 1]
    ensures var n := |keys| - 1;
            Listed(keys, values, json, given) ==
            Listed(keys[..n], values[..n], json, front)
            + if values[n] == "" then [] else [Entry(keys[n], values[n], json)]
  {
    var n := |keys| - 1;
    assert EntryAt(keys, values, json, n) == Entry(keys[n], values[n], json) || values[n] == "";
    forall k | 0 <= k < |front|
      ensures EntryAt(keys[..n], values[..n], json, front[k]) == EntryAt(keys, values, json, given[k])
    {
    }
    hide EntryAt, Entry;
  }

  lemma NoEntries(keys: seq<string>, values: seq<string>, json: string -> string, given: seq<nat>)
    requires |keys| == |values| == |given| == 0
    ensures EntryLines(keys, values, json) == Listed(keys, values, json, given)
  {
  }

  lemma {:induction false} EntriesAreGiven(keys: seq<string>, values: seq<string>, json: string -> string,
                                           given: seq<nat>)
    requires |keys| == |values| && AreGiven(values, given)
    ensures forall k | 0 <= k < |given| :: given[k] < |values|
    ensures EntryLines(keys, values, json) == Listed(keys, values, json, given)
    decreases |keys|
  {
    hide *;
    GivenInRange(values, given);
    if values == [] {
      NoEntries(keys, values, json, given);
    } else {
      var n := |keys| - 1;
      EntryLinesLast(keys, values, json);
      GivenBefore(values, given);
      var front := if values[n] == "" then given else given[..|given| - 1];
      GivenInRange(values[..n], front);
      EntriesAreGiven(keys[..n], values[..n], json, front);
      ListedStep(keys, values, json, given, front);
    }
  }

  /** The header lists exactly the values there are, in order, one on each line. */
  lemma HeaderListsValues(values: seq<string>, json: string -> string, given: seq<nat>)
    requires |values| == |KEYS| && OneLine(json) && AreGiven(values, given)
    ensures forall k | 0 <= k < |given| :: given[k] < |values|
    ensures HeaderText(values, json) ==
            Join([HEADER_START + "\n"] + Listed(KEYS, values, json, given) + [HEADER_END + "\n", "\n"])
  {
    hide AreGiven, KEYS, HEADER_START, HEADER_END, OneLine, EntryLines, Listed, HeaderText;
    EntriesAreGiven(KEYS, values, json, given);
    HeaderIsLines(values, json);
  }

  /** Printing adds no blank at the end of a line. */
  lemma PrintingAddsNoTrailingBlank(kind: string, line: string)
    requires line == "" || line == "\n" || (IsLine(line) && |line| > 1 && line[|line| - 2] != ' ')
    ensures var t := LineText(kind, line); t == "" || t == "\n" || (|t| > 1 && EndsLine(t) && t[|t| - 2] != ' ')
  {
  }

  /** Newlines at most at the end. */
  predicate SingleLines(cells: seq<Cell>) {
    forall c | c in cells :: forall l | l in c.source :: l == "" || '\n' !in l[..|l| - 1]
  }

  function NormalSource(kind: string, source: seq<string>): seq<string> {
    if source == [] then []
    else (if source[0] == "" && kind != "markdown" then [] else [Ended(source[0])]) + NormalSource(kind, source[1..])
  }

  /** A cell as the text shows it: code unless markdown, and every line ended; a code line with nothing in it is
      none. */
  function NormalCell(c: Cell): Cell {
    Cell(if c.kind == "markdown" then "markdown" else "code", NormalSource(c.kind, c.source))
  }

  function NormalCells(cells: seq<Cell>): seq<Cell> {
    if cells == [] then [] else [NormalCell(cells[0])] + NormalCells(cells[1..])
  }

  lemma LinePrintsNormal(kind: string, line: string)
    ensures line == "" && kind != "markdown" ==> LineText(kind, line) == ""
    ensures LineText(if kind == "markdown" then "markdown" else "code", Ended(line)) ==
            if line == "" && kind != "markdown" then "\n" else LineText(kind, line)
    ensures line == "" || '\n' !in line[..|line| - 1] ==> IsLine(Ended(line))
  {
    if !EndsLine(line) { assert (line + "\n")[..|line|] == line; }
    if line != "" && !EndsLine(line) && '\n' !in line[..|line| - 1] {
      assert line == line[..|line| - 1] + [line[|line| - 1]];
    }
  }

  lemma OneMoreLine(kind: string, line: string, rest: seq<string>)
    requires IsLine(line) && !IsMarker(LineText(kind, line)) && AllLines(rest) && NoMarkers(kind, rest)
    ensures AllLines([line] + rest) && NoMarkers(kind, [line] + rest)
    ensures LinesText(kind, [line] + rest) == LineText(kind, line) + LinesText(kind, rest)
  {
    hide IsLine, IsMarker, LineText;
    assert ([line] + rest)[1..] == rest;
  }

  lemma NormalStep(kind: string, source: seq<string>)
    requires source != [] && NoMarkers(kind, source) && forall l | l in source :: l == "" || '\n' !in l[..|l| - 1]
    ensures !IsMarker(LineText(kind, source[0])) && (source[0] == "" || '\n' !in source[0][..|source[0]| - 1])
    ensures NoMarkers(kind, source[1..]) && forall l | l in source[1..] :: l == "" || '\n' !in l[..|l| - 1]
    ensures LinesText(kind, source) == LineText(kind, source[0]) + LinesText(kind, source[1..])
    ensures NormalSource(kind, source) ==
            (if source[0] == "" && kind != "markdown" then [] else [Ended(source[0])]) + NormalSource(kind, source[1..])
  {
    hide IsMarker, LineText, Ended;
    assert forall i | 0 <= i < |source[1..]| :: source[1..][i] == source[i + 1];
  }

  lemma NoSource(kind: string)
    ensures LinesText(kind, []) == "" && NormalSource(kind, []) == [] && AllLines([]) && NoMarkers(kind, [])
  {
  }

  lemma {:induction false} SourcePrintsNormal(kind: string, source: seq<string>)
    requires NoMarkers(kind, source) && forall l | l in source :: l == "" || '\n' !in l[..|l| - 1]
    ensures var shown := if kind == "markdown" then "markdown" else "code";
            && LinesText(shown, NormalSource(kind, source)) == LinesText(kind, source)
            && AllLines(NormalSource(kind, source)) && NoMarkers(shown, NormalSource(kind, source))
  {
    hide *;
    var shown := if kind == "markdown" then "markdown" else "code";
    if source == [] {
      NoSource(kind);
      NoSource(shown);
    } else {
      NormalStep(kind, source);
      LinePrintsNormal(kind, source[0]);
      SourcePrintsNormal(kind, source[1..]);
      var rest := NormalSource(kind, source[1..]);
      if source[0] == "" && kind != "markdown" {
        assert [] + rest == rest && "" + LinesText(kind, source[1..]) == LinesText(kind, source[1..]);
      } else {
        OneMoreLine(shown, Ended(source[0]), rest);
      }
    }
  }

  predicate PrintsTidily(c: Cell) { GoodKind(c.kind) && AllLines(c.source) && NoMarkers(c.kind, c.source) }

  lemma CellPrintsNormal(c: Cell)
    requires NoMarkers(c.kind, c.source) && forall l | l in c.source :: l == "" || '\n' !in l[..|l| - 1]
    ensures CellText(NormalCell(c)) == CellText(c) && PrintsTidily(NormalCell(c))
  {
    SourcePrintsNormal(c.kind, c.source);
    hide IsLine, LineText, IsMarker, LinesText, NormalSource, NoMarkers, AllLines;
  }

  lemma OneMoreCell(c: Cell, rest: seq<Cell>)
    requires PrintsTidily(c) && Tidy(rest) && NoMarkersIn(rest)
    ensures Tidy([c] + rest) && NoMarkersIn([c] + rest)
    ensures TailText([c] + rest) == "\n" + CellText(c) + TailText(rest)
            && BodyText([c] + rest) == CellText(c) + TailText(rest)
  {
    hide NoMarkers, AllLines, CellText, GoodKind;
    assert ([c] + rest)[1..] == rest;
  }

  lemma CellsFollow(cells: seq<Cell>)
    requires cells != [] && SingleLines(cells) && NoMarkersIn(cells)
    ensures NoMarkers(cells[0].kind, cells[0].source)
            && forall l | l in cells[0].source :: l == "" || '\n' !in l[..|l| - 1]
    ensures SingleLines(cells[1..]) && NoMarkersIn(cells[1..])
    ensures TailText(cells) == "\n" + CellText(cells[0]) + TailText(cells[1..])
    ensures BodyText(cells) == CellText(cells[0]) + TailText(cells[1..])
    ensures NormalCells(cells) == [NormalCell(cells[0])] + NormalCells(cells[1..])
  {
    hide NoMarkers, CellText, NormalCell;
    assert cells[0] in cells && forall i | 0 <= i < |cells[1..]| :: cells[1..][i] == cells[i + 1];
    assert forall c | c in cells[1..] :: c in cells;
  }

  lemma NoCells()
    ensures TailText([]) == BodyText([]) == "" && NormalCells([]) == [] && Tidy([]) && NoMarkersIn([])
  {
  }

  lemma {:induction false} CellsPrintNormal(cells: seq<Cell>)
    requires SingleLines(cells) && NoMarkersIn(cells)
    ensures TailText(NormalCells(cells)) == TailText(cells) && BodyText(NormalCells(cells)) == BodyText(cells)
    ensures Tidy(NormalCells(cells)) && NoMarkersIn(NormalCells(cells))
  {
    hide *;
    if cells == [] {
      NoCells();
    } else {
      CellsFollow(cells);
      CellPrintsNormal(cells[0]);
      CellsPrintNormal(cells[1..]);
      OneMoreCell(NormalCell(cells[0]), NormalCells(cells[1..]));
    }
  }

  /** Whatever the cells, their text reads back as them in normal form: raw cells as code, every line ended, CRLF line
      ends plain; as long as no line has a newline inside and none prints as a marker. */
  lemma PrintedTextParses(cells: seq<Cell>, values: seq<string>, json: string -> string)
    requires |values| == |KEYS| && OneLine(json) && SingleLines(cells) && NoMarkersIn(cells)
    ensures Parsed(Printed(cells, values, json)) == FixedCells(NormalCells(cells))
  {
    hide Parsed, FixedCells, HeaderText, SingleLines, NoMarkersIn, Tidy, OneLine, KEYS, BodyText, NormalCells;
    CellsPrintNormal(cells);
    PrintedCellsParse(NormalCells(cells), values, json);
  }
}
