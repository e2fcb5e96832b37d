/** The Python text view of a notebook and its parser (internal/workspacefs/notebook_format.go).
    Text is a sequence of runes; the JSON around the cells is left out. */
module NotebookText {
  import opened Prelude

  datatype Cell = Cell(kind: string, source: seq<string>)

  const HEADER_START: string := "# fabric-workspace-fs metadata"
  const HEADER_END: string := "# ---"

  const KEYS: seq<string> := [
    "id", "workspaceId", "displayName", "remotePartPath", "language", "kernelName", "kernelDisplayName",
    "defaultLakehouse", "defaultLakehouseName", "defaultLakehouseWorkspaceId", "environmentId", "environmentName"]

  // ----- printing -----------------------------------------------------------------------------

  predicate EndsLine(s: string) { s != "" && s[|s| - 1] == '\n' }

  function Ended(s: string): string { if EndsLine(s) then s else s + "\n" }

  function LineText(kind: string, line: string): string {
    if kind == "markdown" then if line == "\n" || line == "" then "#\n" else "# " + Ended(line)
    else if line == "" then "" else Ended(line)
  }

  function Marker(kind: string): string { if kind == "markdown" then "# %% [markdown]\n" else "# %%\n" }

  function LinesText(kind: string, source: seq<string>): string {
    if source == [] then "" else LineText(kind, source[0]) + LinesText(kind, source[1..])
  }

  function CellText(c: Cell): string { Marker(c.kind) + LinesText(c.kind, c.source) }

  /** Cells after the first are set off by an empty line. */
  function TailText(cells: seq<Cell>): string {
    if cells == [] then "" else "\n" + CellText(cells[0]) + TailText(cells[1..])
  }

  function BodyText(cells: seq<Cell>): string {
    if cells == [] then "" else CellText(cells[0]) + TailText(cells[1..])
  }

  function Entry(key: string, value: string, json: string -> string): string {
    if value == "" then "" else "# " + key + ": " + json(value) + "\n"
  }

  function Entries(keys: seq<string>, values: seq<string>, json: string -> string): string
    requires |keys| == |values|
  {
    if keys == [] then "" else Entry(keys[0], values[0], json) + Entries(keys[1..], values[1..], json)
  }

  function HeaderText(values: seq<string>, json: string -> string): string
    requires |values| == |KEYS|
  {
    HEADER_START + "\n" + Entries(KEYS, values, json) + HEADER_END + "\n\n"
  }

  /** The whole view; `json` encodes a metadata value. */
  function Printed(cells: seq<Cell>, values: seq<string>, json: string -> string): string
    requires |values| == |KEYS|
  {
    HeaderText(values, json) + BodyText(cells)
  }

  lemma Assoc(a: string, b: string, c: string)
    ensures a + b + c == a + (b + c)
  {
  }

  lemma EntriesAt(i: nat, values: seq<string>, json: string -> string)
    requires |values| == |KEYS| && i <= |KEYS|
    ensures i == 0 ==> Entries(KEYS[i..], values[i..], json) == Entries(KEYS, values, json)
    ensures i == |KEYS| ==> Entries(KEYS[i..], values[i..], json) == ""
    ensures i < |KEYS| ==>
              Entries(KEYS[i..], values[i..], json) == Entry(KEYS[i], values[i], json)
                + Entries(KEYS[i + 1..], values[i + 1..], json)
  {
    hide Entry, KEYS;
    assert KEYS[0..] == KEYS && values[0..] == values;
    if i < |KEYS| { assert KEYS[i..][1..] == KEYS[i + 1..] && values[i..][1..] == values[i + 1..]; }
  }

  method WriteEntry(key: string, value: string, json: string -> string) returns (piece: string)
    ensures piece == Entry(key, value, json)
  {
    if value == "" { return ""; }
    piece := "# " + key + ": " + json(value) + "\n";
  }

  method WriteEntries(values: seq<string>, json: string -> string) returns (out: string)
    requires |values| == |KEYS|
    ensures out == Entries(KEYS, values, json)
  {
    out := "";
    hide *;
    EntriesAt(0, values, json);
    for i := 0 to |KEYS|
      invariant out + Entries(KEYS[i..], values[i..], json) == Entries(KEYS, values, json)
    {
      EntriesAt(i, values, json);
      Assoc(out, Entry(KEYS[i], values[i], json), Entries(KEYS[i + 1..], values[i + 1..], json));
      var piece := WriteEntry(KEYS[i], values[i], json);
      out := out + piece;
    }
    EntriesAt(|KEYS|, values, json);
  }

  method WriteHeader(values: seq<string>, json: string -> string) returns (out: string)
    requires |values| == |KEYS|
    ensures out == HeaderText(values, json)
  {
    hide Entries, KEYS;
    out := HEADER_START + "\n";
    var entries := WriteEntries(values, json);
    out := out + entries;
    out := out + HEADER_END + "\n\n";
  }

  method WriteLine(kind: string, line: string) returns (piece: string)
    ensures piece == LineText(kind, line)
  {
    piece := "";
    if kind == "markdown" {
      if line == "\n" || line == "" { return "#\n"; }
      piece := "# " + line;
      if !EndsLine(line) { piece := "# " + (line + "\n"); }
    } else {
      piece := line;
      if line != "" && !EndsLine(line) { piece := piece + "\n"; }
    }
  }

  lemma LinesAt(kind: string, source: seq<string>, i: nat)
    requires i <= |source|
    ensures i == 0 ==> source[i..] == source
    ensures i == |source| ==> LinesText(kind, source[i..]) == ""
    ensures i < |source| ==>
            LinesText(kind, source[i..]) == LineText(kind, source[i])
            + LinesText(kind, source[i + 1..])
  {
    hide LineText;
    if i < |source| { assert source[i..][1..] == source[i + 1..]; }
  }

  method WriteLines(kind: string, source: seq<string>) returns (out: string)
    ensures out == LinesText(kind, source)
  {
    out := "";
    hide *;
    LinesAt(kind, source, 0);
    for i := 0 to |source|
      invariant out + LinesText(kind, source[i..]) == LinesText(kind, source)
    {
      LinesAt(kind, source, i);
      Assoc(out, LineText(kind, source[i]), LinesText(kind, source[i + 1..]));
      var piece := WriteLine(kind, source[i]);
      out := out + piece;
    }
    LinesAt(kind, source, |source|);
  }

  /** The text still to come before cell i. */
  function RestText(cells: seq<Cell>, i: nat): string
    requires i <= |cells|
  {
    if i == 0 then BodyText(cells) else TailText(cells[i..])
  }

  lemma RestAt(cells: seq<Cell>, i: nat)
    requires i <= |cells|
    ensures i == |cells| ==> RestText(cells, i) == ""
    ensures i < |cells| ==>
              RestText(cells, i) == ((if i > 0 then "\n" else "") + CellText(cells[i])) + RestText(cells, i + 1)
  {
    hide CellText;
    if i < |cells| { assert cells[i..][1..] == cells[i + 1..]; }
  }

  method WriteCell(cells: seq<Cell>, i: nat) returns (out: string)
    requires i < |cells|
    ensures out == (if i > 0 then "\n" else "") + CellText(cells[i])
  {
    hide LinesText;
    out := if i > 0 then "\n" else "";
    var lines := WriteLines(cells[i].kind, cells[i].source);
    out := out + (Marker(cells[i].kind) + lines);
  }

  method WriteCells(cells: seq<Cell>) returns (out: string)
    ensures out == BodyText(cells)
  {
    out := "";
    assert RestText(cells, 0) == BodyText(cells);
    hide *;
    for i := 0 to |cells|
      invariant out + RestText(cells, i) == BodyText(cells)
    {
      RestAt(cells, i);
      var piece := WriteCell(cells, i);
      Assoc(out, piece, RestText(cells, i + 1));
      out := out + piece;
    }
    RestAt(cells, |cells|);
  }

  method NotebookToPython(cells: seq<Cell>, values: seq<string>, json: string -> string) returns (out: string)
    requires |values| == |KEYS|
    ensures out == Printed(cells, values, json)
  {
    hide HeaderText, BodyText;
    out := WriteHeader(values, json);
    var body := WriteCells(cells);
    out := out + body;
  }

  // ----- parsing ------------------------------------------------------------------------------

  predicate StartsCrLf(s: string) { |s| >= 2 && s[0] == '\r' && s[1] == '\n' }

  /** bytes.ReplaceAll of CRLF by LF. */
  function WithoutCr(s: string): string {
    if s == "" then ""
    else if StartsCrLf(s) then "\n" + WithoutCr(s[2..])
    else [s[0]] + WithoutCr(s[1..])
  }

  /** Up to and including the first newline. */
  function FirstLine(s: string): (r: string)
    ensures r <= s && (s != "" ==> r != "")
  {
    if s == "" then "" else if s[0] == '\n' then "\n" else [s[0]] + FirstLine(s[1..])
  }

  /** splitNotebookSource. */
  function Split(s: string): seq<string>
    decreases |s|
  {
    if s == "" then [] else [FirstLine(s)] + Split(s[|FirstLine(s)|..])
  }

  predicate IsBlank(line: string) { TrimSpace(line) == "" }

  predicate IsMarker(line: string) { HasPrefix(TrimSpace(line), "# %%") }

  predicate Contains(s: string, t: string) { exists i | 0 <= i <= |s| :: HasPrefix(s[i..], t) }

  predicate IsMarkdownMarker(line: string) { Contains(TrimSpace(line), "[markdown]") }

  function Uncomment(line: string): string {
    if line == "" || line[0] != '#' then line
    else if |line| > 1 && (line[1] == ' ' || line[1] == '\t') then line[2..]
    else line[1..]
  }

  function SkipBlank(lines: seq<string>): seq<string> {
    if lines != [] && IsBlank(lines[0]) then SkipBlank(lines[1..]) else lines
  }

  /** What follows the closing line of the header, if there is one. */
  function AfterEnd(lines: seq<string>): Option<seq<string>> {
    if lines == [] then None
    else if TrimSpace(lines[0]) == HEADER_END then Some(lines[1..])
    else AfterEnd(lines[1..])
  }

  function StripHeader(lines: seq<string>): seq<string> {
    var s := SkipBlank(lines);
    if s == [] || TrimSpace(s[0]) != HEADER_START then s
    else
      var rest := AfterEnd(s[1..]);
      if rest.None? then s else SkipBlank(rest.value)
  }

  /** The parser's variables. */
  datatype Parser = Parser(cells: seq<Cell>, kind: string, current: seq<string>, seen: bool)

  const START: Parser := Parser([], "code", [], false)

  function Flush(p: Parser): Parser {
    if !p.seen && p.current == [] then p else p.(cells := p.cells + [Cell(p.kind, p.current)], current := [])
  }

  /** The separator line before a marker belongs to no cell. */
  function DropSeparator(p: Parser): Parser {
    if p.current != [] && p.current[|p.current| - 1] == "\n" then p.(current := p.current[..|p.current| - 1]) else p
  }

  function Feed(p: Parser, line: string): Parser {
    if IsMarker(line) then
      var q := DropSeparator(p);
      var r := if q.seen || q.current != [] then Flush(q) else q;
      r.(seen := true, kind := if IsMarkdownMarker(line) then "markdown" else "code")
    else if p.kind == "markdown" then p.(current := p.current + [Uncomment(line)])
    else p.(current := p.current + [line])
  }

  function FeedAll(p: Parser, lines: seq<string>): Parser
    decreases |lines|
  {
    if lines == [] then p else FeedAll(Feed(p, lines[0]), lines[1..])
  }

  function Parsed(data: string): seq<Cell> {
    Flush(FeedAll(START, StripHeader(Split(WithoutCr(data))))).cells
  }

  method StripMetadataHeader(lines: seq<string>) returns (r: seq<string>)
    ensures r == StripHeader(lines)
  {
    var s := lines;
    while |s| > 0 && IsBlank(s[0])
      invariant SkipBlank(s) == SkipBlank(lines)
    {
      s := s[1..];
    }
    if |s| == 0 || TrimSpace(s[0]) != HEADER_START { return s; }
    assert s[1..][0..] == s[1..];
    for i := 0 to |s| - 1
      invariant AfterEnd(s[1..][i..]) == AfterEnd(s[1..])
    {
      assert s[1..][i..][0] == s[i + 1] && s[1..][i..][1..] == s[1..][i + 1..] == s[i + 2..];
      if TrimSpace(s[i + 1]) == HEADER_END {
        var rest := s[i + 2..];
        while |rest| > 0 && IsBlank(rest[0])
          invariant SkipBlank(rest) == SkipBlank(s[i + 2..])
        {
          rest := rest[1..];
        }
        return rest;
      }
    }
    r := s;
  }

  method PythonCells(data: string) returns (cells: seq<Cell>)
    ensures cells == Parsed(data)
  {
    var lines := StripMetadataHeader(Split(WithoutCr(data)));
    var currentType, current, seenMarker := "code", [], false;
    cells := [];
    assert lines[0..] == lines;
    for i := 0 to |lines|
      invariant FeedAll(Parser(cells, currentType, current, seenMarker), lines[i..]) == FeedAll(START, lines)
    {
      var line := lines[i];
      assert lines[i..][1..] == lines[i + 1..];
      if IsMarker(line) {
        if |current| > 0 && current[|current| - 1] == "\n" { current := current[..|current| - 1]; }
        if seenMarker || |current| > 0 { cells, current := cells + [Cell(currentType, current)], []; }
        seenMarker := true;
        currentType := if IsMarkdownMarker(line) then "markdown" else "code";
        continue;
      }
      current := current + [if currentType == "markdown" then Uncomment(line) else line];
    }
    if seenMarker || |current| > 0 { cells := cells + [Cell(currentType, current)]; }
  }
}
