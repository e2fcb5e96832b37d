/** Exactly when the Python view and its parser undo each other (internal/workspacefs/notebook_format.go). */
module NotebookRoundTrip {
  import opened Prelude
  import opened NotebookText

  /** One newline, at the end. */
  predicate IsLine(s: string) { EndsLine(s) && '\n' !in s[..|s| - 1] }

  predicate EndsCrLf(s: string) { |s| >= 2 && s[|s| - 2] == '\r' && s[|s| - 1] == '\n' }

  function Fix(s: string): string { if EndsCrLf(s) then s[..|s| - 2] + "\n" else s }

  function FixAll(lines: seq<string>): seq<string> {
    if lines == [] then [] else [Fix(lines[0])] + FixAll(lines[1..])
  }

  predicate AllLines(lines: seq<string>) { forall i | 0 <= i < |lines| :: IsLine(lines[i]) }

  predicate GoodKind(kind: string) { kind == "code" || kind == "markdown" }

  /** Cells of the two kinds whose source lines are single lines. */
  predicate Tidy(cells: seq<Cell>) {
    forall i | 0 <= i < |cells| :: GoodKind(cells[i].kind) && AllLines(cells[i].source)
  }

  predicate NoMarkers(kind: string, source: seq<string>) {
    forall i | 0 <= i < |source| :: !IsMarker(LineText(kind, source[i]))
  }

  predicate NoMarkersIn(cells: seq<Cell>) {
    forall i | 0 <= i < |cells| :: NoMarkers(cells[i].kind, cells[i].source)
  }

  predicate NoCrLf(cells: seq<Cell>) {
    forall i | 0 <= i < |cells| :: forall j | 0 <= j < |cells[i].source| :: !EndsCrLf(cells[i].source[j])
  }

  /** The notebooks the documentation promises to return unchanged. */
  predicate WellShaped(cells: seq<Cell>) { Tidy(cells) && NoMarkersIn(cells) && NoCrLf(cells) }

  function FixedCells(cells: seq<Cell>): seq<Cell> {
    if cells == [] then [] else [Cell(cells[0].kind, FixAll(cells[0].source))] + FixedCells(cells[1..])
  }

  // ----- text is its lines --------------------------------------------------------------------

  function Join(lines: seq<string>): string { if lines == [] then "" else lines[0] + Join(lines[1..]) }

  lemma {:induction false} JoinConcat(a: seq<string>, b: seq<string>)
    ensures Join(a + b) == Join(a) + Join(b)
  {
    if a == [] {
      assert a + b == b;
    } else {
      JoinConcat(a[1..], b);
      assert (a + b)[1..] == a[1..] + b;
    }
  }

  lemma {:induction false} FixAllConcat(a: seq<string>, b: seq<string>)
    ensures FixAll(a + b) == FixAll(a) + FixAll(b)
  {
    hide Fix;
    if a == [] {
      assert a + b == b;
    } else {
      FixAllConcat(a[1..], b);
      assert (a + b)[1..] == a[1..] + b;
    }
  }

  lemma {:induction false} FixAllAt(lines: seq<string>, i: nat)
    requires i < |lines|
    ensures |FixAll(lines)| == |lines| && FixAll(lines)[i] == Fix(lines[i])
  {
    hide Fix;
    if i > 0 { FixAllAt(lines[1..], i - 1); } else if |lines| > 1 { FixAllAt(lines[1..], 0); }
  }

  lemma IsLineTail(l: string)
    requires IsLine(l) && |l| > 1
    ensures l[0] != '\n' && IsLine(l[1..])
  {
    assert l[0] == l[..|l| - 1][0];
    assert forall i | 0 <= i < |l| - 2 :: l[1..][i] == l[..|l| - 1][i + 1];
  }

  lemma WithoutCrStep(s: string)
    requires s != ""
    ensures WithoutCr(s) == if StartsCrLf(s) then "\n" + WithoutCr(s[2..]) else [s[0]] + WithoutCr(s[1..])
  {
  }

  lemma FixStep(l: string)
    requires IsLine(l) && |l| > 1
    ensures StartsCrLf(l) ==> |l| == 2 && Fix(l) == "\n"
    ensures !StartsCrLf(l) ==> Fix(l) == [l[0]] + Fix(l[1..])
  {
    IsLineTail(l);
    if |l| > 2 { IsLineTail(l[1..]); }
  }

  lemma SingleLine(l: string)
    requires IsLine(l) && |l| == 1
    ensures l == "\n" && Fix(l) == "\n" && !StartsCrLf(l)
  {
  }

  lemma CrLfStart(l: string, t: string)
    requires l != "" && l[|l| - 1] == '\n'
    ensures StartsCrLf(l + t) == StartsCrLf(l)
  {
    assert (l + t)[0] == l[0] && (|l| >= 2 ==> (l + t)[1] == l[1]);
  }

  lemma Cons(l: string, t: string)
    requires l != ""
    ensures l + t == [l[0]] + (l[1..] + t) && (l + t)[0] == l[0] && (l + t)[1..] == l[1..] + t
  {
  }

  lemma {:induction false} WithoutCrLine(l: string, t: string)
    requires IsLine(l)
    ensures WithoutCr(l + t) == Fix(l) + WithoutCr(t)
  {
    CrLfStart(l, t);
    hide *;
    WithoutCrStep(l + t);
    if |l| == 1 {
      SingleLine(l);
      assert (l + t)[1..] == t;
    } else {
      IsLineTail(l);
      FixStep(l);
      if StartsCrLf(l) {
        assert (l + t)[2..] == t;
      } else {
        Cons(l, t);
        WithoutCrLine(l[1..], t);
        Assoc([l[0]], Fix(l[1..]), WithoutCr(t));
      }
    }
  }

  lemma FixIsLine(l: string)
    requires IsLine(l)
    ensures IsLine(Fix(l))
  {
    if EndsCrLf(l) {
      var f := Fix(l);
      assert forall i | 0 <= i < |f| - 1 :: f[i] == l[..|l| - 1][i];
    }
  }

  lemma {:induction false} FirstLineOf(l: string, t: string)
    requires IsLine(l)
    ensures FirstLine(l + t) == l
  {
    if |l| == 1 {
      assert l == "\n" && (l + t)[0] == '\n';
    } else {
      IsLineTail(l);
      FirstLineOf(l[1..], t);
      assert (l + t)[1..] == l[1..] + t && l == [l[0]] + l[1..];
    }
  }

  lemma {:induction false} JoinedLinesSplit(lines: seq<string>)
    requires AllLines(lines)
    ensures Split(Join(lines)) == lines
  {
    if lines != [] {
      var t := Join(lines[1..]);
      JoinedLinesSplit(lines[1..]);
      hide IsLine;
      FirstLineOf(lines[0], t);
      assert (lines[0] + t)[|lines[0]|..] == t;
      assert lines == [lines[0]] + lines[1..];
    }
  }

  lemma {:induction false} WithoutCrLines(lines: seq<string>)
    requires AllLines(lines)
    ensures WithoutCr(Join(lines)) == Join(FixAll(lines)) && AllLines(FixAll(lines))
  {
    if lines != [] {
      WithoutCrLines(lines[1..]);
      WithoutCrLine(lines[0], Join(lines[1..]));
      FixIsLine(lines[0]);
      hide IsLine, Fix;
      assert FixAll(lines)[1..] == FixAll(lines[1..]);
    }
  }

  lemma LinesOfJoined(lines: seq<string>)
    requires AllLines(lines)
    ensures Split(WithoutCr(Join(lines))) == FixAll(lines) && AllLines(FixAll(lines))
  {
    WithoutCrLines(lines);
    JoinedLinesSplit(FixAll(lines));
  }

  // ----- trimming -----------------------------------------------------------------------------

  lemma {:induction false} TrimRightIsPrefix(s: string)
    ensures TrimRight(s) <= s
  {
    if s != "" && IsSpace(s[|s| - 1]) { TrimRightIsPrefix(s[..|s| - 1]); }
  }

  lemma {:induction false} TrimLeftTail(x: string, c: char)
    requires IsSpace(c)
    ensures TrimLeft(x + [c]) == if TrimLeft(x) == "" then "" else TrimLeft(x) + [c]
  {
    hide IsSpace;
    if x == "" {
      assert (x + [c])[1..] == "";
    } else if IsSpace(x[0]) {
      assert (x + [c])[1..] == x[1..] + [c];
      TrimLeftTail(x[1..], c);
    }
  }

  /** White space at the end never shows through TrimSpace. */
  lemma TrimSpaceTail(x: string, c: char)
    requires IsSpace(c)
    ensures TrimSpace(x + [c]) == TrimSpace(x)
  {
    TrimLeftTail(x, c);
    var t := TrimLeft(x);
    if t != "" { assert (t + [c])[..|t|] == t; }
  }

  lemma FixKeepsTrim(l: string)
    ensures TrimSpace(Fix(l)) == TrimSpace(l)
  {
    if EndsCrLf(l) {
      var x := l[..|l| - 2];
      assert l == x + ['\r'] + ['\n'] && Fix(l) == x + ['\n'];
      TrimSpaceTail(x + ['\r'], '\n');
      TrimSpaceTail(x, '\r');
      TrimSpaceTail(x, '\n');
    }
  }

  lemma TrimSolid(x: string)
    requires x != "" && !IsSpace(x[0]) && !IsSpace(x[|x| - 1])
    ensures TrimSpace(x) == TrimSpace(x + "\n") == x
  {
    TrimSpaceTail(x, '\n');
  }

  // ----- the header ---------------------------------------------------------------------------

  predicate GoodKey(key: string) { key != "" && '\n' !in key && key[0] != '-' }

  ghost predicate OneLine(json: string -> string) { forall s :: '\n' !in json(s) }

  function EntryLines(keys: seq<string>, values: seq<string>, json: string -> string): seq<string>
    requires |keys| == |values|
  {
    if keys == [] then []
    else (if values[0] == "" then [] else [Entry(keys[0], values[0], json)]) + EntryLines(keys[1..], values[1..], json)
  }

  /** A comment line that cannot be the end of the header. */
  predicate InnerLine(l: string) { IsLine(l) && |l| > 3 && l[0] == '#' && l[2] != '-' }

  predicate InnerLines(lines: seq<string>) { forall i | 0 <= i < |lines| :: InnerLine(lines[i]) }

  lemma EntryIsInner(key: string, value: string, json: string -> string)
    requires GoodKey(key) && value != "" && '\n' !in json(value)
    ensures InnerLine(Entry(key, value, json))
  {
    var e := Entry(key, value, json);
    assert e[..|e| - 1] == "# " + key + ": " + json(value);
    assert e[2] == key[0];
  }

  lemma {:induction false} EntriesAreLines(keys: seq<string>, values: seq<string>, json: string -> string)
    requires |keys| == |values| && OneLine(json) && forall i | 0 <= i < |keys| :: GoodKey(keys[i])
    ensures Entries(keys, values, json) == Join(EntryLines(keys, values, json))
    ensures InnerLines(EntryLines(keys, values, json))
  {
    if keys != [] {
      EntriesAreLines(keys[1..], values[1..], json);
      if values[0] != "" { EntryIsInner(keys[0], values[0], json); }
      hide InnerLine, Entry, GoodKey, OneLine;
      JoinConcat(if values[0] == "" then [] else [Entry(keys[0], values[0], json)],
                 EntryLines(keys[1..], values[1..], json));
    }
  }

  lemma KeysAreGood()
    ensures forall i | 0 <= i < |KEYS| :: GoodKey(KEYS[i])
  {
  }

  function HeaderLines(values: seq<string>, json: string -> string): seq<string>
    requires |values| == |KEYS|
  {
    [HEADER_START + "\n"] + EntryLines(KEYS, values, json) + [HEADER_END + "\n", "\n"]
  }

  lemma JoinHeader(start: string, entries: seq<string>, end: string)
    ensures Join([start] + entries + [end + "\n", "\n"]) == start + Join(entries) + end + "\n\n"
  {
    JoinConcat([start], entries);
    JoinConcat([start] + entries, [end + "\n", "\n"]);
    JoinTwo(end + "\n", "\n");
    assert Join([start]) == start;
    var ending := end + "\n" + "\n";
    assert ending == end + "\n\n";
    hide Join;
    assert Join([start] + entries + [end + "\n", "\n"]) == start + Join(entries) + ending;
    var head := start + Join(entries);
    assert head + ending == head + end + "\n\n";
  }

  lemma JoinTwo(a: string, b: string)
    ensures Join([a, b]) == a + b
  {
    assert [a, b][1..] == [b] && [b][1..] == [];
    assert Join([b]) == b + "" == b;
  }

  lemma InnerLinesAreLines(start: string, entries: seq<string>, end: string, blank: string)
    requires InnerLines(entries) && IsLine(start) && IsLine(end) && IsLine(blank)
    ensures AllLines([start] + entries + [end, blank])
  {
    hide IsLine;
    assert forall i | 0 <= i < |entries| :: InnerLine(entries[i]) && IsLine(entries[i]);
  }

  lemma HeaderIsLines(values: seq<string>, json: string -> string)
    requires |values| == |KEYS| && OneLine(json)
    ensures HeaderText(values, json) == Join(HeaderLines(values, json)) && AllLines(HeaderLines(values, json))
    ensures InnerLines(EntryLines(KEYS, values, json))
  {
    hide KEYS, HEADER_START, HEADER_END, Entries, EntryLines, GoodKey, OneLine, IsLine, InnerLine, InnerLines, AllLines,
         Join, Fix, TrimSpace;
    KeysAreGood();
    EntriesAreLines(KEYS, values, json);
    BordersAreLines();
    var es := EntryLines(KEYS, values, json);
    JoinHeader(HEADER_START + "\n", es, HEADER_END);
    InnerLinesAreLines(HEADER_START + "\n", es, HEADER_END + "\n", "\n");
  }

  lemma BordersAreLines()
    ensures IsLine(HEADER_START + "\n") && IsLine(HEADER_END + "\n") && IsLine("\n")
    ensures Fix(HEADER_START + "\n") == HEADER_START + "\n" && Fix(HEADER_END + "\n") == HEADER_END + "\n"
            && Fix("\n") == "\n"
    ensures TrimSpace(HEADER_START + "\n") == HEADER_START && HEADER_START != ""
    ensures TrimSpace(HEADER_END + "\n") == HEADER_END && TrimSpace("\n") == ""
  {
    TrimSolid(HEADER_START);
    TrimSolid(HEADER_END);
    assert (HEADER_START + "\n")[..|HEADER_START|] == HEADER_START;
    assert (HEADER_END + "\n")[..|HEADER_END|] == HEADER_END;
  }

  lemma InnerIsNotEnd(l: string)
    requires InnerLine(l)
    ensures TrimSpace(Fix(l)) != HEADER_END
  {
    FixKeepsTrim(l);
    assert TrimLeft(l) == l;
    TrimRightIsPrefix(l);
    assert HEADER_END[2] == '-';
  }

  lemma {:induction false} EndIsFound(entries: seq<string>, rest: seq<string>)
    requires InnerLines(entries)
    ensures AfterEnd(FixAll(entries) + [HEADER_END + "\n"] + rest) == Some(rest)
  {
    BordersAreLines();
    hide InnerLine, HEADER_END, Fix, TrimSpace;
    var end := HEADER_END + "\n";
    if entries == [] {
      assert (FixAll(entries) + [end] + rest)[1..] == rest;
    } else {
      InnerIsNotEnd(entries[0]);
      EndIsFound(entries[1..], rest);
      assert (FixAll(entries) + [end] + rest)[1..] == FixAll(entries[1..]) + [end] + rest;
    }
  }

  predicate StartsWithMarker(lines: seq<string>) { lines == [] || IsMarker(lines[0]) }

  lemma MarkersAreNotBlank(line: string)
    ensures IsMarker(line) ==> !IsBlank(line)
  {
  }

  lemma FixedHeader(start: string, entries: seq<string>, end: string, body: seq<string>)
    requires Fix(start) == start && Fix(end) == end && Fix("\n") == "\n"
    ensures FixAll([start] + entries + [end, "\n"]) + body == [start] + (FixAll(entries) + [end] + (["\n"] + body))
  {
    FixAllConcat([start] + entries, [end, "\n"]);
    FixAllConcat([start], entries);
    assert FixAll([start]) == [start];
    assert FixAll([end, "\n"]) == [end, "\n"] by { assert [end, "\n"][1..] == ["\n"]; assert FixAll(["\n"]) == ["\n"]; }
  }

  lemma SkipOneBlank(line: string, body: seq<string>)
    requires IsBlank(line) && StartsWithMarker(body)
    ensures SkipBlank([line] + body) == body
  {
    if body != [] { MarkersAreNotBlank(body[0]); }
    hide IsBlank, IsMarker;
    assert ([line] + body)[1..] == body;
  }

  /** The parser drops exactly the printed header. */
  lemma HeaderIsStripped(values: seq<string>, json: string -> string, body: seq<string>)
    requires |values| == |KEYS| && OneLine(json) && StartsWithMarker(body)
    ensures StripHeader(FixAll(HeaderLines(values, json)) + body) == body
  {
    HeaderIsLines(values, json);
    BordersAreLines();
    var es := EntryLines(KEYS, values, json);
    var start, end := HEADER_START + "\n", HEADER_END + "\n";
    assert IsBlank("\n") && !IsBlank(start);
    FixedHeader(start, es, end, body);
    EndIsFound(es, ["\n"] + body);
    SkipOneBlank("\n", body);
    hide KEYS, HEADER_START, HEADER_END, EntryLines, OneLine, InnerLine, InnerLines, IsLine, AllLines, Fix, FixAll,
         TrimSpace, IsMarker, IsBlank, AfterEnd;
    var s := FixAll(HeaderLines(values, json)) + body;
    assert s[0] == start && s[1..] == FixAll(es) + [end] + (["\n"] + body);
  }

  // ----- the cells ----------------------------------------------------------------------------

  function SourceLines(kind: string, source: seq<string>): seq<string> {
    if source == [] then [] else [LineText(kind, source[0])] + SourceLines(kind, source[1..])
  }

  function CellLines(c: Cell): seq<string> { [Marker(c.kind)] + SourceLines(c.kind, c.source) }

  function TailLines(cells: seq<Cell>): seq<string> {
    if cells == [] then [] else ["\n"] + CellLines(cells[0]) + TailLines(cells[1..])
  }

  function BodyLines(cells: seq<Cell>): seq<string> {
    if cells == [] then [] else CellLines(cells[0]) + TailLines(cells[1..])
  }

  lemma PrintedLineIsLine(kind: string, line: string)
    requires IsLine(line)
    ensures IsLine(LineText(kind, line))
  {
    if kind == "markdown" && line != "\n" {
      var t := "# " + line;
      assert t[..|t| - 1] == "# " + line[..|line| - 1];
    }
  }

  lemma {:induction false} SourceIsLines(kind: string, source: seq<string>)
    requires AllLines(source)
    ensures LinesText(kind, source) == Join(SourceLines(kind, source)) && AllLines(SourceLines(kind, source))
  {
    if source != [] {
      PrintedLineIsLine(kind, source[0]);
      hide IsLine, LineText;
      SourceIsLines(kind, source[1..]);
    }
  }

  lemma MarkerIsLine(kind: string)
    ensures IsLine(Marker(kind)) && Fix(Marker(kind)) == Marker(kind)
    ensures IsMarker(Marker(kind)) && (IsMarkdownMarker(Marker(kind)) <==> kind == "markdown")
  {
    if kind == "markdown" {
      var m := "# %% [markdown]";
      assert Marker(kind) == m + "\n" && (m + "\n")[..|m|] == m;
      TrimSolid(m);
      assert HasPrefix(m[5..], "[markdown]");
    } else {
      var m := "# %%";
      assert Marker(kind) == m + "\n" && (m + "\n")[..|m|] == m;
      TrimSolid(m);
    }
  }

  lemma AllLinesConcat(a: seq<string>, b: seq<string>)
    requires AllLines(a) && AllLines(b)
    ensures AllLines(a + b)
  {
    hide IsLine;
  }

  lemma CellIsLines(c: Cell)
    requires AllLines(c.source)
    ensures CellText(c) == Join(CellLines(c)) && AllLines(CellLines(c))
  {
    MarkerIsLine(c.kind);
    SourceIsLines(c.kind, c.source);
    var m := Marker(c.kind);
    assert AllLines([m]);
    hide Marker, LinesText, SourceLines, AllLines;
    JoinConcat([m], SourceLines(c.kind, c.source));
    assert Join([m]) == m;
    AllLinesConcat([m], SourceLines(c.kind, c.source));
  }

  lemma {:induction false} TailIsLines(cells: seq<Cell>)
    requires Tidy(cells)
    ensures TailText(cells) == Join(TailLines(cells)) && AllLines(TailLines(cells))
  {
    if cells != [] {
      TailIsLines(cells[1..]);
      CellIsLines(cells[0]);
      assert AllLines(["\n"]);
      hide CellText, CellLines, AllLines;
      JoinConcat(["\n"], CellLines(cells[0]));
      JoinConcat(["\n"] + CellLines(cells[0]), TailLines(cells[1..]));
      AllLinesConcat(["\n"], CellLines(cells[0]));
      AllLinesConcat(["\n"] + CellLines(cells[0]), TailLines(cells[1..]));
      assert Join(["\n"]) == "\n";
    }
  }

  lemma BodyIsLines(cells: seq<Cell>)
    requires Tidy(cells)
    ensures BodyText(cells) == Join(BodyLines(cells)) && AllLines(BodyLines(cells))
            && StartsWithMarker(FixAll(BodyLines(cells)))
  {
    if cells != [] {
      TailIsLines(cells[1..]);
      CellIsLines(cells[0]);
      MarkerIsLine(cells[0].kind);
      FixAllAt(BodyLines(cells), 0);
      hide CellText, AllLines, IsLine, Marker, IsMarker, Fix, FixAll, TailText, TailLines;
      JoinConcat(CellLines(cells[0]), TailLines(cells[1..]));
      AllLinesConcat(CellLines(cells[0]), TailLines(cells[1..]));
    }
  }

  lemma UncommentPrinted(line: string)
    requires IsLine(line)
    ensures Uncomment(Fix(LineText("markdown", line))) == Fix(line)
  {
    if line != "\n" {
      var t := "# " + line;
      assert t[|t| - 1] == line[|line| - 1];
      if EndsCrLf(line) {
        assert t[..|t| - 2] + "\n" == "# " + (line[..|line| - 2] + "\n");
      } else if |line| >= 2 {
        assert t[|t| - 2] == line[|line| - 2];
      }
    }
  }

  lemma {:induction false} FeedConcat(p: Parser, a: seq<string>, b: seq<string>)
    ensures FeedAll(p, a + b) == FeedAll(FeedAll(p, a), b)
    decreases |a|
  {
    hide Feed;
    if a == [] {
      assert a + b == b;
    } else {
      assert (a + b)[1..] == a[1..] + b;
      FeedConcat(Feed(p, a[0]), a[1..], b);
    }
  }

  lemma FeedSourceLine(p: Parser, line: string)
    requires GoodKind(p.kind) && IsLine(line) && !IsMarker(LineText(p.kind, line))
    ensures Feed(p, Fix(LineText(p.kind, line))) == p.(current := p.current + [Fix(line)])
  {
    FixKeepsTrim(LineText(p.kind, line));
    if p.kind == "markdown" { UncommentPrinted(line); }
    hide TrimSpace, Fix, Uncomment;
  }

  lemma SourceStep(kind: string, source: seq<string>)
    requires source != []
    ensures FixAll(SourceLines(kind, source)) == [Fix(LineText(kind, source[0]))]
            + FixAll(SourceLines(kind, source[1..]))
    ensures FixAll(source) == [Fix(source[0])] + FixAll(source[1..])
  {
    hide Fix, LineText;
    assert SourceLines(kind, source)[1..] == SourceLines(kind, source[1..]);
  }

  lemma FeedFirst(p: Parser, line: string, rest: seq<string>)
    ensures FeedAll(p, [line] + rest) == FeedAll(Feed(p, line), rest)
  {
    hide Feed;
    assert ([line] + rest)[1..] == rest;
  }

  lemma {:induction false} FeedSource(p: Parser, source: seq<string>)
    requires GoodKind(p.kind) && AllLines(source) && NoMarkers(p.kind, source)
    ensures FeedAll(p, FixAll(SourceLines(p.kind, source))) == p.(current := p.current + FixAll(source))
    decreases |source|
  {
    if source != [] {
      FeedSourceLine(p, source[0]);
      SourceStep(p.kind, source);
      var q := p.(current := p.current + [Fix(source[0])]);
      FeedSource(q, source[1..]);
      hide *;
      FeedFirst(p, Fix(LineText(p.kind, source[0])), FixAll(SourceLines(p.kind, source[1..])));
      assert q.current + FixAll(source[1..]) == p.current + FixAll(source);
    } else {
      assert p.current + FixAll(source) == p.current;
    }
  }

  /** The separator and marker of a cell close the cell before it. */
  lemma FeedBoundary(p: Parser, kind: string)
    requires p.seen && GoodKind(p.kind) && GoodKind(kind)
    ensures Feed(Feed(p, "\n"), Marker(kind)) == Parser(p.cells + [Cell(p.kind, p.current)], kind, [], true)
  {
    MarkerIsLine(kind);
    assert TrimSpace("\n") == "" && Uncomment("\n") == "\n";
    hide Marker, TrimSpace, IsMarkdownMarker;
    var q := Feed(p, "\n");
    assert q == p.(current := p.current + ["\n"]);
    assert q.current[..|q.current| - 1] == p.current;
  }

  lemma {:induction false} FeedTail(p: Parser, cells: seq<Cell>)
    requires p.seen && GoodKind(p.kind) && Tidy(cells) && NoMarkersIn(cells)
    ensures Flush(FeedAll(p, FixAll(TailLines(cells)))).cells == p.cells + [Cell(p.kind, p.current)] + FixedCells(cells)
    decreases |cells|
  {
    if cells == [] {
      assert FixedCells(cells) == [];
    } else {
      var c := cells[0];
      var q := Parser(p.cells + [Cell(p.kind, p.current)], c.kind, [], true);
      FeedBoundary(p, c.kind);
      MarkerIsLine(c.kind);
      FeedSource(q, c.source);
      var fixed := FixAll(c.source);
      var r := Parser(q.cells, c.kind, fixed, true);
      assert q.current + fixed == fixed;
      FeedTail(r, cells[1..]);
      TailLinesFixed(cells);
      assert FixedCells(cells) == [Cell(c.kind, fixed)] + FixedCells(cells[1..]);
      hide *;
      FeedCell(p, q, r, "\n", Marker(c.kind), FixAll(SourceLines(c.kind, c.source)), FixAll(TailLines(cells[1..])));
      AssocCells(p.cells + [Cell(p.kind, p.current)], [Cell(c.kind, fixed)], FixedCells(cells[1..]));
    }
  }

  lemma AssocCells(a: seq<Cell>, b: seq<Cell>, c: seq<Cell>)
    ensures a + (b + c) == a + b + c
  {
  }

  lemma FeedCell(p: Parser, q: Parser, r: Parser, a: string, b: string, source: seq<string>, rest: seq<string>)
    requires Feed(Feed(p, a), b) == q && FeedAll(q, source) == r
    ensures FeedAll(p, [a, b] + (source + rest)) == FeedAll(r, rest)
  {
    hide Feed;
    var all := source + rest;
    assert ([a, b] + all)[1..] == [b] + all && ([b] + all)[1..] == all;
    FeedConcat(q, source, rest);
  }

  lemma Regroup<T>(a: T, b: T, s: seq<T>, t: seq<T>)
    ensures [a] + ([b] + s) + t == [a, b] + (s + t) && ([b] + s) + t == [b] + (s + t)
  {
  }

  lemma LinesStep(cells: seq<Cell>)
    requires cells != []
    ensures var c := cells[0]; var m, source := Marker(c.kind), SourceLines(c.kind, c.source);
            && TailLines(cells) == ["\n"] + ([m] + source) + TailLines(cells[1..])
            && BodyLines(cells) == ([m] + source) + TailLines(cells[1..])
    ensures Fix("\n") == "\n"
  {
    hide Marker, SourceLines;
  }

  lemma TailLinesFixed(cells: seq<Cell>)
    requires cells != []
    ensures FixAll(TailLines(cells)) ==
            ["\n", Marker(cells[0].kind)]
              + (FixAll(SourceLines(cells[0].kind, cells[0].source)) + FixAll(TailLines(cells[1..])))
  {
    var c := cells[0];
    MarkerIsLine(c.kind);
    var m, source := Marker(c.kind), SourceLines(c.kind, c.source);
    LinesStep(cells);
    hide *;
    Regroup("\n", m, source, TailLines(cells[1..]));
    FixedTwo("\n", m, source, TailLines(cells[1..]));
  }

  lemma FixedTwo(a: string, b: string, source: seq<string>, rest: seq<string>)
    requires Fix(a) == a && Fix(b) == b
    ensures FixAll([a, b] + (source + rest)) == [a, b] + (FixAll(source) + FixAll(rest))
  {
    FixAllConcat([a, b], source + rest);
    FixAllConcat(source, rest);
    assert [a, b][1..] == [b] && FixAll([b]) == [b];
    assert FixAll([a, b]) == [a, b];
  }

  lemma BodyLinesFixed(cells: seq<Cell>)
    requires cells != []
    ensures FixAll(BodyLines(cells)) ==
            [Marker(cells[0].kind)] + (FixAll(SourceLines(cells[0].kind, cells[0].source))
                                       + FixAll(TailLines(cells[1..])))
  {
    var c := cells[0];
    MarkerIsLine(c.kind);
    var m, source := Marker(c.kind), SourceLines(c.kind, c.source);
    LinesStep(cells);
    FixedOne(m);
    hide *;
    Regroup("\n", m, source, TailLines(cells[1..]));
    FixAllConcat([m], source + TailLines(cells[1..]));
    FixAllConcat(source, TailLines(cells[1..]));
  }

  lemma FixedOne(m: string)
    requires Fix(m) == m
    ensures FixAll([m]) == [m]
  {
    assert [m][1..] == [];
  }

  lemma FeedBody(cells: seq<Cell>)
    requires Tidy(cells) && NoMarkersIn(cells)
    ensures Flush(FeedAll(START, FixAll(BodyLines(cells)))).cells == FixedCells(cells)
  {
    if cells != [] {
      var c := cells[0];
      var q := Parser([], c.kind, [], true);
      MarkerIsLine(c.kind);
      assert Feed(START, Marker(c.kind)) == q;
      FeedSource(q, c.source);
      var r := q.(current := FixAll(c.source));
      assert q.current + FixAll(c.source) == FixAll(c.source);
      FeedTail(r, cells[1..]);
      BodyLinesFixed(cells);
      hide Feed, Fix, SourceLines, Marker, IsMarker, IsLine, TailLines, BodyLines;
      var source, rest := FixAll(SourceLines(c.kind, c.source)), FixAll(TailLines(cells[1..]));
      FeedConcat(START, [Marker(c.kind)], source + rest);
      assert FeedAll(START, [Marker(c.kind)]) == q;
      FeedConcat(q, source, rest);
    }
  }

  /** What the parser sees of a printed tidy notebook. */
  lemma PrintedIsParsedByLines(cells: seq<Cell>, values: seq<string>, json: string -> string)
    requires |values| == |KEYS| && OneLine(json) && Tidy(cells)
    ensures Parsed(Printed(cells, values, json)) == Flush(FeedAll(START, FixAll(BodyLines(cells)))).cells
  {
    HeaderIsLines(values, json);
    BodyIsLines(cells);
    HeaderIsStripped(values, json, FixAll(BodyLines(cells)));
    hide KEYS, HeaderText, HeaderLines, BodyText, BodyLines, OneLine, Tidy, IsLine, AllLines, FixAll, Join, InnerLines,
      Split, WithoutCr, StripHeader, Feed, FeedAll;
    var head, body := HeaderLines(values, json), BodyLines(cells);
    JoinConcat(head, body);
    AllLinesConcat(head, body);
    LinesOfJoined(head + body);
    FixAllConcat(head, body);
  }

  /** The parser undoes the printer up to line endings, as long as no source line prints as a cell marker. */
  lemma PrintedCellsParse(cells: seq<Cell>, values: seq<string>, json: string -> string)
    requires |values| == |KEYS| && OneLine(json) && Tidy(cells) && NoMarkersIn(cells)
    ensures Parsed(Printed(cells, values, json)) == FixedCells(cells)
  {
    PrintedIsParsedByLines(cells, values, json);
    FeedBody(cells);
  }

  // ----- the other direction ------------------------------------------------------------------

  predicate TidyParser(p: Parser) { GoodKind(p.kind) && AllLines(p.current) && Tidy(p.cells) }

  lemma UncommentKeepsLines(line: string)
    requires IsLine(line)
    ensures IsLine(Uncomment(line))
  {
    var u := Uncomment(line);
    assert |u| > 0 && u[|u| - 1] == line[|line| - 1];
    assert forall i | 0 <= i < |u| - 1 :: u[i] == line[..|line| - 1][i + |line| - |u|];
  }

  lemma FlushIsTidy(p: Parser)
    requires TidyParser(p)
    ensures TidyParser(Flush(p))
  {
    hide AllLines, GoodKind;
    assert AllLines([]) by { EmptyIsLines(); }
  }

  lemma EmptyIsLines()
    ensures AllLines([])
  {
  }

  lemma FeedIsTidy(p: Parser, line: string)
    requires TidyParser(p) && IsLine(line)
    ensures TidyParser(Feed(p, line))
  {
    if IsMarker(line) {
      FlushIsTidy(DropSeparator(p));
      hide IsMarker, IsMarkdownMarker, IsLine;
    } else {
      UncommentKeepsLines(line);
      hide IsMarker, IsLine, Uncomment;
    }
  }

  lemma {:induction false} FeedAllIsTidy(p: Parser, lines: seq<string>)
    requires TidyParser(p) && AllLines(lines)
    ensures TidyParser(FeedAll(p, lines))
    decreases |lines|
  {
    if lines != [] {
      FeedIsTidy(p, lines[0]);
      hide IsLine, Feed, TidyParser;
      FeedAllIsTidy(Feed(p, lines[0]), lines[1..]);
    }
  }

  lemma {:induction false} SkipBlankKeepsLines(lines: seq<string>)
    requires AllLines(lines)
    ensures AllLines(SkipBlank(lines))
  {
    hide IsBlank, IsLine;
    if lines != [] && IsBlank(lines[0]) { SkipBlankKeepsLines(lines[1..]); }
  }

  lemma {:induction false} AfterEndKeepsLines(lines: seq<string>)
    requires AllLines(lines)
    ensures AfterEnd(lines).Some? ==> AllLines(AfterEnd(lines).value)
  {
    hide TrimSpace, IsLine;
    if lines != [] { AfterEndKeepsLines(lines[1..]); }
  }

  lemma StripKeepsLines(lines: seq<string>)
    requires AllLines(lines)
    ensures AllLines(StripHeader(lines))
  {
    SkipBlankKeepsLines(lines);
    var s := SkipBlank(lines);
    if s != [] {
      AfterEndKeepsLines(s[1..]);
      if AfterEnd(s[1..]).Some? { SkipBlankKeepsLines(AfterEnd(s[1..]).value); }
    }
    hide TrimSpace, IsLine;
  }

  lemma {:induction false} FirstLineIsLine(s: string)
    requires EndsLine(s)
    ensures IsLine(FirstLine(s)) && (s[|FirstLine(s)|..] == "" || EndsLine(s[|FirstLine(s)|..]))
  {
    if s[0] != '\n' {
      FirstLineIsLine(s[1..]);
      var f := FirstLine(s[1..]);
      assert ([s[0]] + f)[..|f|] == [s[0]] + f[..|f| - 1];
      assert s[|f| + 1..] == s[1..][|f|..];
    }
  }

  lemma {:induction false} SplitIsLines(s: string)
    requires s == "" || EndsLine(s)
    ensures AllLines(Split(s))
    decreases |s|
  {
    if s != "" {
      FirstLineIsLine(s);
      hide IsLine, EndsLine;
      SplitIsLines(s[|FirstLine(s)|..]);
    }
  }

  lemma {:induction false} WithoutCrEndsLine(s: string)
    requires EndsLine(s)
    ensures EndsLine(WithoutCr(s))
    decreases |s|
  {
    if StartsCrLf(s) {
      if |s| > 2 { WithoutCrEndsLine(s[2..]); }
    } else if |s| > 1 {
      WithoutCrEndsLine(s[1..]);
    }
  }

  lemma {:induction false} SourceTextEnds(kind: string, source: seq<string>)
    ensures LinesText(kind, source) == "" || EndsLine(LinesText(kind, source))
  {
    if source != [] {
      SourceTextEnds(kind, source[1..]);
      var a, b := LineText(kind, source[0]), LinesText(kind, source[1..]);
      assert a == "" || EndsLine(a);
      assert b == "" ==> a + b == a;
    }
  }

  lemma {:induction false} TailTextEnds(cells: seq<Cell>)
    ensures TailText(cells) == "" || EndsLine(TailText(cells))
  {
    if cells != [] {
      TailTextEnds(cells[1..]);
      CellTextEnds(cells[0]);
      var a, b := "\n" + CellText(cells[0]), TailText(cells[1..]);
      hide CellText;
      assert b == "" ==> a + b == a;
    }
  }

  lemma CellTextEnds(c: Cell)
    ensures EndsLine(CellText(c))
  {
    SourceTextEnds(c.kind, c.source);
    MarkerIsLine(c.kind);
    var a, b := Marker(c.kind), LinesText(c.kind, c.source);
    assert b == "" ==> a + b == a;
  }

  lemma PrintedEnds(cells: seq<Cell>, values: seq<string>, json: string -> string)
    requires |values| == |KEYS|
    ensures EndsLine(Printed(cells, values, json))
  {
    hide KEYS, TailText, CellText, Entries, HEADER_START, HEADER_END;
    var a, b := HeaderText(values, json), BodyText(cells);
    assert EndsLine(a);
    if cells != [] {
      CellTextEnds(cells[0]);
      TailTextEnds(cells[1..]);
      var x, y := CellText(cells[0]), TailText(cells[1..]);
      assert y == "" ==> x + y == x;
    }
    assert b == "" ==> a + b == a;
  }

  /** Whatever is printed, what is parsed back is tidy. */
  lemma ParsedIsTidy(cells: seq<Cell>, values: seq<string>, json: string -> string)
    requires |values| == |KEYS|
    ensures Tidy(Parsed(Printed(cells, values, json)))
  {
    var text := Printed(cells, values, json);
    PrintedEnds(cells, values, json);
    WithoutCrEndsLine(text);
    SplitIsLines(WithoutCr(text));
    StripKeepsLines(Split(WithoutCr(text)));
    hide Printed, Split, WithoutCr, StripHeader, AllLines, FeedAll, Flush, EndsLine;
    assert TidyParser(START) by { EmptyIsLines(); }
    var lines := StripHeader(Split(WithoutCr(text)));
    FeedAllIsTidy(START, lines);
    FlushIsTidy(FeedAll(START, lines));
  }

  function Markers(lines: seq<string>): nat {
    if lines == [] then 0 else (if IsMarker(lines[0]) then 1 else 0) + Markers(lines[1..])
  }

  lemma {:induction false} MarkersConcat(a: seq<string>, b: seq<string>)
    ensures Markers(a + b) == Markers(a) + Markers(b)
  {
    hide IsMarker;
    if a == [] {
      assert a + b == b;
    } else {
      MarkersConcat(a[1..], b);
      assert (a + b)[1..] == a[1..] + b;
    }
  }

  lemma {:induction false} EveryMarkerStartsACell(p: Parser, lines: seq<string>)
    requires p.seen
    ensures |Flush(FeedAll(p, lines)).cells| == |p.cells| + 1 + Markers(lines)
    decreases |lines|
  {
    hide IsMarker, IsMarkdownMarker, Uncomment;
    if lines != [] { EveryMarkerStartsACell(Feed(p, lines[0]), lines[1..]); }
  }

  lemma {:induction false} SourceMarkers(kind: string, source: seq<string>)
    ensures Markers(FixAll(SourceLines(kind, source))) == 0 ==> NoMarkers(kind, source)
  {
    if source != [] {
      var l := LineText(kind, source[0]);
      SourceMarkers(kind, source[1..]);
      FixKeepsTrim(l);
      assert IsMarker(Fix(l)) == IsMarker(l);
      hide IsMarker, Fix, LineText;
      var rest := FixAll(SourceLines(kind, source[1..]));
      assert FixAll(SourceLines(kind, source)) == [Fix(l)] + rest && ([Fix(l)] + rest)[1..] == rest;
    }
  }

  lemma {:induction false} TailMarkers(cells: seq<Cell>)
    ensures Markers(FixAll(TailLines(cells))) >= |cells|
    ensures Markers(FixAll(TailLines(cells))) == |cells| ==> NoMarkersIn(cells)
  {
    if cells != [] {
      var c := cells[0];
      TailMarkers(cells[1..]);
      TailLinesFixed(cells);
      SourceMarkers(c.kind, c.source);
      OneMarker(c.kind);
      hide TailLines, SourceLines, IsMarker, Marker, FixAll, NoMarkers, Markers;
      var source, rest := FixAll(SourceLines(c.kind, c.source)), FixAll(TailLines(cells[1..]));
      MarkersConcat(["\n", Marker(c.kind)], source + rest);
      MarkersConcat(source, rest);
    }
  }

  lemma OneMarker(kind: string)
    ensures Markers(["\n", Marker(kind)]) == 1 && Markers([Marker(kind)]) == 1
  {
    MarkerIsLine(kind);
    assert TrimSpace("\n") == "";
    assert !IsMarker("\n");
    hide IsMarker, Marker;
    var m := Marker(kind);
    var one, two := [m], ["\n", m];
    assert one[1..] == [] && two[1..] == one;
    assert Markers(one) == 1;
  }

  lemma MarkersReturnOnlyIfNone(cells: seq<Cell>)
    requires |Flush(FeedAll(START, FixAll(BodyLines(cells)))).cells| == |cells|
    ensures NoMarkersIn(cells)
  {
    if cells != [] {
      var c := cells[0];
      MarkerIsLine(c.kind);
      BodyLinesFixed(cells);
      SourceMarkers(c.kind, c.source);
      TailMarkers(cells[1..]);
      var q := Feed(START, Marker(c.kind));
      assert q.seen && q.cells == [];
      hide TailLines, SourceLines, BodyLines, IsMarker, Marker, FixAll, NoMarkers, Markers, Feed;
      var source, rest := FixAll(SourceLines(c.kind, c.source)), FixAll(TailLines(cells[1..]));
      assert ([Marker(c.kind)] + (source + rest))[1..] == source + rest;
      EveryMarkerStartsACell(q, source + rest);
      MarkersConcat(source, rest);
    }
  }

  lemma {:induction false} FixedMeansNoCrLf(cells: seq<Cell>)
    ensures FixedCells(cells) == cells <==> NoCrLf(cells)
  {
    if cells != [] {
      FixedMeansNoCrLf(cells[1..]);
      SourceFixed(cells[0].source);
      hide Fix, FixAll, EndsCrLf;
      assert FixedCells(cells)[1..] == FixedCells(cells[1..]);
      assert NoCrLf(cells) <==>
             (forall j | 0 <= j < |cells[0].source| :: !EndsCrLf(cells[0].source[j]))
             && NoCrLf(cells[1..]);
      assert cells == [cells[0]] + cells[1..];
    }
  }

  lemma {:induction false} SourceFixed(source: seq<string>)
    ensures FixAll(source) == source <==> forall j | 0 <= j < |source| :: !EndsCrLf(source[j])
  {
    if source != [] {
      SourceFixed(source[1..]);
      assert Fix(source[0]) == source[0] <==> !EndsCrLf(source[0]) by {
        if EndsCrLf(source[0]) { assert |Fix(source[0])| < |source[0]|; }
      }
      hide Fix, EndsCrLf;
      assert FixAll(source)[1..] == FixAll(source[1..]);
      assert source == [source[0]] + source[1..];
    }
  }

  /** The round trip holds exactly for notebooks of code and markdown cells whose source lines each end in their
      only newline, not in CRLF, and do not print as a cell marker. */
  lemma RoundTripIffWellShaped(cells: seq<Cell>, values: seq<string>, json: string -> string)
    requires |values| == |KEYS| && OneLine(json)
    ensures Parsed(Printed(cells, values, json)) == cells <==> WellShaped(cells)
  {
    ParsedIsTidy(cells, values, json);
    if Tidy(cells) {
      PrintedIsParsedByLines(cells, values, json);
      FixedMeansNoCrLf(cells);
      hide Printed, Parsed, Tidy, NoMarkersIn, NoCrLf, FeedAll, Flush, BodyLines, KEYS, OneLine;
      if NoMarkersIn(cells) {
        PrintedCellsParse(cells, values, json);
      } else if Parsed(Printed(cells, values, json)) == cells {
        MarkersReturnOnlyIfNone(cells);
      }
    }
  }
}
