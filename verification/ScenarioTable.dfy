/**
 * Tables in scenario markdown: finding the asserted one in a section's body and reading its
 * cells, against a printer for the pipe form of section 4.10 of the GitHub Flavored Markdown
 * specification.
 */
module ScenarioTable {
  import opened Text

  datatype Col = Col(name: string, kind: string)
  datatype Table = Table(cols: seq<Col>, rows: seq<seq<string>>)

  // ---------- Reading ----------

  predicate IsRow(line: string) {
    var t := Trim(line);
    t != "" && t[0] == '|' && t[|t| - 1] == '|'
  }

  /** /^\s*```/. */
  predicate IsFence(line: string) {
    "```" <= TrimStart(line)
  }

  /** /^\s*expect\s*:?\s*$/i. */
  predicate IsLabel(line: string) {
    var t := Lower(Trim(line));
    t == "expect" || (t != "" && t[|t| - 1] == ':' && TrimEnd(t[..|t| - 1]) == "expect")
  }

  /** The lines outside fenced code, fence lines dropped. */
  function Outside(body: seq<string>, inFence: bool): seq<string> {
    if body == [] then []
    else if IsFence(body[0]) then Outside(body[1..], !inFence)
    else if inFence then Outside(body[1..], true)
    else [body[0]] + Outside(body[1..], false)
  }

  /** Whether a fence is open after the lines. */
  function FenceAfter(body: seq<string>, inFence: bool): bool {
    if body == [] then inFence
    else FenceAfter(body[1..], if IsFence(body[0]) then !inFence else inFence)
  }

  method OutsideFences(body: seq<string>) returns (lines: seq<string>)
    ensures lines == Outside(body, false)
  {
    lines := [];
    var inFence := false;
    for i := 0 to |body|
      invariant lines + Outside(body[i..], inFence) == Outside(body, false)
    {
      assert body[i..][1..] == body[i + 1..];
      ghost var before := lines;
      if IsFence(body[i]) {
        inFence := !inFence;
        continue;
      }
      if !inFence {
        lines := lines + [body[i]];
        assert before + ([body[i]] + Outside(body[i + 1..], false)) == lines + Outside(body[i + 1..], false);
      }
    }
    assert body[|body|..] == [];
  }

  function FirstLine(lines: seq<string>, p: string -> bool): nat {
    if lines == [] || p(lines[0]) then 0 else 1 + FirstLine(lines[1..], p)
  }

  lemma FirstLineBound(lines: seq<string>, p: string -> bool)
    ensures FirstLine(lines, p) <= |lines|
  {
  }

  /** The first contiguous run of rows. */
  function RowBlock(lines: seq<string>): seq<string> {
    FirstLineBound(lines, IsRow);
    var from := lines[FirstLine(lines, IsRow)..];
    FirstLineBound(from, (l: string) => !IsRow(l));
    from[..FirstLine(from, (l: string) => !IsRow(l))]
  }

  function TrimAll(parts: seq<string>): (r: seq<string>)
    ensures |r| == |parts| && forall i | 0 <= i < |r| :: r[i] == Trim(parts[i])
  {
    seq(|parts|, i requires 0 <= i < |parts| => Trim(parts[i]))
  }

  /** The cells of a trimmed row: slice(1, -1).split("|"), each trimmed. */
  function Cells(row: string): seq<string> {
    TrimAll(SplitOn(if |row| <= 2 then "" else row[1..|row| - 1], '|'))
  }

  function ReadCol(header: string): Col {
    var parts := SplitOn(header, ':');
    if |parts| == 1 then Col(Lower(header), "text")
    else Col(Lower(Trim(parts[0])), Lower(Trim(Join(parts[1..], ":"))))
  }

  function ReadCols(headers: seq<string>): (r: seq<Col>)
    ensures |r| == |headers|
  {
    seq(|headers|, i requires 0 <= i < |headers| => ReadCol(headers[i]))
  }

  function ReadRows(lines: seq<string>): (r: seq<seq<string>>)
    ensures |r| == |lines|
  {
    seq(|lines|, i requires 0 <= i < |lines| => Cells(Trim(lines[i])))
  }

  /** A block of one row is no table: the second is the separator. */
  function ReadBlock(block: seq<string>): Option<Table> {
    if |block| < 2 then None
    else Some(Table(ReadCols(Cells(Trim(block[0]))), ReadRows(block[2..])))
  }

  method ParseTableBlock(lines: seq<string>) returns (table: Option<Table>)
    ensures table == ReadBlock(RowBlock(lines))
  {
    FirstLineBound(lines, IsRow);
    var start := FirstLine(lines, IsRow);
    var end := start;
    var notRow := (l: string) => !IsRow(l);
    ghost var from := lines[start..];
    while end < |lines| && IsRow(lines[end])
      invariant start <= end <= |lines|
      invariant FirstLine(from, notRow) == end - start + FirstLine(lines[end..], notRow)
    {
      assert lines[end..][1..] == lines[end + 1..];
      end := end + 1;
    }
    assert FirstLine(lines[end..], notRow) == 0;
    assert RowBlock(lines) == from[..end - start] == lines[start..end];
    table := ReadBlock(lines[start..end]);
  }

  function ParseDataTable(body: seq<string>): Option<Table> {
    ReadBlock(RowBlock(Outside(body, false)))
  }

  function ParseExpectTable(body: seq<string>): Option<Table> {
    var lines := Outside(body, false);
    var at := FirstLine(lines, IsLabel);
    if at >= |lines| then None else ReadBlock(RowBlock(lines[at + 1..]))
  }

  // ---------- Printing ----------

  function PrintCol(c: Col): string {
    if c.kind == "text" then c.name else c.name + ":" + c.kind
  }

  function PrintCols(cols: seq<Col>): (r: seq<string>)
    ensures |r| == |cols| && forall i | 0 <= i < |r| :: r[i] == PrintCol(cols[i])
  {
    seq(|cols|, i requires 0 <= i < |cols| => PrintCol(cols[i]))
  }

  function Padded(cells: seq<string>): (r: seq<string>)
    ensures |r| == |cells| && forall i | 0 <= i < |r| :: r[i] == " " + cells[i] + " "
  {
    seq(|cells|, i requires 0 <= i < |cells| => " " + cells[i] + " ")
  }

  /** `| a | b |`. */
  function PrintRow(cells: seq<string>): string {
    "|" + Join(Padded(cells), "|") + "|"
  }

  function PrintRows(rows: seq<seq<string>>): (r: seq<string>)
    ensures |r| == |rows| && forall i | 0 <= i < |r| :: r[i] == PrintRow(rows[i])
  {
    seq(|rows|, i requires 0 <= i < |rows| => PrintRow(rows[i]))
  }

  function Print(t: Table): seq<string> {
    [PrintRow(PrintCols(t.cols)), PrintRow(seq(|t.cols|, _ => "---"))] + PrintRows(t.rows)
  }

  predicate PlainCell(c: string) {
    Trimmed(c) && '|' !in c
  }

  /** ASCII with no capital: text that toLowerCase leaves alone, in any reading of it. */
  predicate LowerCase(s: string) {
    forall i | 0 <= i < |s| :: s[i] as int < 128 && !('A' <= s[i] <= 'Z')
  }

  predicate Printable(t: Table) {
    && t.cols != []
    && (forall c | c in t.cols ::
          && PlainCell(c.name) && LowerCase(c.name) && ':' !in c.name
          && PlainCell(c.kind) && LowerCase(c.kind))
    && (forall r | r in t.rows :: r != [] && forall c | c in r :: PlainCell(c))
  }

  // ---------- One row ----------

  lemma CellsOfPrinted(cells: seq<string>)
    requires cells != [] && forall c | c in cells :: PlainCell(c)
    ensures Cells(PrintRow(cells)) == cells && Trim(PrintRow(cells)) == PrintRow(cells) && IsRow(PrintRow(cells))
    ensures !IsFence(PrintRow(cells))
  {
    var padded, row := Padded(cells), PrintRow(cells);
    var inner := Join(padded, "|");
    assert row == "|" + inner + "|" && row[1..|row| - 1] == inner;
    JoinNonEmpty(padded, "|");
    forall p | p in padded ensures '|' !in p {
      var i :| 0 <= i < |cells| && padded[i] == p;
      assert cells[i] in cells;
    }
    SplitOnJoin(padded, '|');
    forall i | 0 <= i < |cells| ensures Trim(padded[i]) == cells[i] {
      assert cells[i] in cells;
      TrimPadded(" ", cells[i], " ");
    }
    assert TrimAll(padded) == cells;
    TrimFixed(row);
    assert TrimStart(row) == row;
  }

  lemma JoinNonEmpty(parts: seq<string>, sep: string)
    requires parts != [] && parts[0] != ""
    ensures Join(parts, sep) != ""
  {
  }

  /** A printed column header reads back. */
  lemma ReadPrintedCol(c: Col)
    requires PlainCell(c.name) && LowerCase(c.name) && ':' !in c.name && PlainCell(c.kind) && LowerCase(c.kind)
    ensures ReadCol(PrintCol(c)) == c
  {
    assert Lower(c.name) == c.name && Lower(c.kind) == c.kind;
    if c.kind == "text" {
      SplitOnNone(c.name, ':');
    } else {
      SplitOnSeparator(c.name, ':', c.kind);
      SplitOnNone(c.name, ':');
      var parts := SplitOn(PrintCol(c), ':');
      assert c.name + [':'] + c.kind == PrintCol(c);
      assert parts == [c.name] + SplitOn(c.kind, ':');
      assert parts[1..] == SplitOn(c.kind, ':');
      JoinSplit(c.kind, ':');
      TrimFixed(c.name);
      TrimFixed(c.kind);
    }
  }

  /** A printed header is a plain cell. */
  lemma PrintedColPlain(c: Col)
    requires PlainCell(c.name) && PlainCell(c.kind) && ':' !in c.name
    ensures PlainCell(PrintCol(c))
  {
  }

  // ---------- The whole table ----------

  lemma PrintedHeader(cols: seq<Col>)
    requires Printable(Table(cols, []))
    ensures var row := PrintRow(PrintCols(cols));
            IsRow(row) && !IsFence(row) && ReadCols(Cells(Trim(row))) == cols
  {
    var headers := PrintCols(cols);
    forall i | 0 <= i < |headers| ensures PlainCell(headers[i]) && ReadCol(headers[i]) == cols[i] {
      assert cols[i] in cols;
      PrintedColPlain(cols[i]);
      ReadPrintedCol(cols[i]);
    }
    CellsOfPrinted(headers);
    assert ReadCols(headers) == cols;
  }

  lemma PrintedRows(rows: seq<seq<string>>)
    requires forall r | r in rows :: r != [] && forall c | c in r :: PlainCell(c)
    ensures ReadRows(PrintRows(rows)) == rows
    ensures forall l | l in PrintRows(rows) :: IsRow(l) && !IsFence(l)
  {
    var lines := PrintRows(rows);
    forall i | 0 <= i < |lines|
      ensures IsRow(lines[i]) && !IsFence(lines[i]) && Cells(Trim(lines[i])) == rows[i]
    {
      assert rows[i] in rows;
      CellsOfPrinted(rows[i]);
    }
  }

  lemma PrintedSeparator(n: nat)
    requires n > 0
    ensures var row := PrintRow(seq(n, _ => "---")); IsRow(row) && !IsFence(row)
  {
    CellsOfPrinted(seq(n, _ => "---"));
  }

  lemma BlockOf(header: string, separator: string, rows: seq<string>)
    ensures ReadBlock([header, separator] + rows) == Some(Table(ReadCols(Cells(Trim(header))), ReadRows(rows)))
  {
  }

  lemma PrintedLines(t: Table)
    requires Printable(t)
    ensures forall l | l in Print(t) :: IsRow(l) && !IsFence(l)
    ensures ReadBlock(Print(t)) == Some(t)
  {
    var header, separator := PrintRow(PrintCols(t.cols)), PrintRow(seq(|t.cols|, _ => "---"));
    PrintedHeader(t.cols);
    PrintedSeparator(|t.cols|);
    PrintedRows(t.rows);
    BlockOf(header, separator, PrintRows(t.rows));
    forall l | l in Print(t) ensures IsRow(l) && !IsFence(l) {
      assert l == header || l == separator || l in PrintRows(t.rows);
    }
  }

  lemma {:induction false} OutsideAppend(a: seq<string>, b: seq<string>, inFence: bool)
    ensures Outside(a + b, inFence) == Outside(a, inFence) + Outside(b, FenceAfter(a, inFence))
    decreases |a|
  {
    if a == [] {
      assert a + b == b;
    } else {
      assert (a + b)[1..] == a[1..] + b;
      OutsideAppend(a[1..], b, if IsFence(a[0]) then !inFence else inFence);
    }
  }

  lemma {:induction false} OutsidePlain(a: seq<string>)
    requires forall l | l in a :: !IsFence(l)
    ensures Outside(a, false) == a && !FenceAfter(a, false)
  {
    if a != [] {
      assert a[0] in a;
      OutsidePlain(a[1..]);
    }
  }

  lemma {:induction false} FirstLineSkips(a: seq<string>, b: seq<string>, p: string -> bool)
    requires forall l | l in a :: !p(l)
    ensures FirstLine(a + b, p) == |a| + FirstLine(b, p)
  {
    if a == [] {
      assert a + b == b;
    } else {
      assert a[0] in a && (a + b)[1..] == a[1..] + b;
      FirstLineSkips(a[1..], b, p);
    }
  }

  /** The first block after lines that are no rows, up to a line that is no row. */
  lemma BlockFound(gap: seq<string>, block: seq<string>, after: seq<string>)
    requires forall l | l in gap :: !IsRow(l)
    requires block != [] && forall l | l in block :: IsRow(l)
    requires after == [] || !IsRow(after[0])
    ensures RowBlock(gap + block + after) == block
  {
    var lines := gap + block + after;
    var notRow := (l: string) => !IsRow(l);
    assert lines == gap + (block + after);
    FirstLineSkips(gap, block + after, IsRow);
    assert block[0] in block;
    assert lines[|gap|..] == block + after;
    FirstLineSkips(block, after, notRow);
    assert (block + after)[..|block|] == block;
  }

  lemma LabelIsNoFence(line: string)
    requires IsLabel(line)
    ensures !IsFence(line)
  {
    var t := TrimStart(line);
    TrimStartStarts(line);
    if "```" <= t {
      TrimEndKeepsFirst(t);
      var l := Lower(Trim(line));
      assert l[0] == '`';
      TrimEndKeepsFirst(l[..|l| - 1]);
    }
  }

  // ---------- Labels and fences, written out ----------

  /** A fence line: white space, three backticks, anything. */
  lemma FenceIff(line: string)
    ensures IsFence(line) <==> exists a, rest :: Spaces(a) && line == a + "```" + rest
  {
    if IsFence(line) {
      var a, rest := AfterSpaces(line, "```");
    }
    if a, rest :| Spaces(a) && line == a + "```" + rest {
      SpacesBefore(a, "```", rest);
    }
  }

  lemma AfterSpaces(line: string, mark: string) returns (a: string, rest: string)
    requires mark <= TrimStart(line)
    ensures Spaces(a) && line == a + mark + rest
  {
    a := TrimStartSplit(line);
    rest := TrimStart(line)[|mark|..];
    assert TrimStart(line) == mark + rest;
  }

  lemma SpacesBefore(a: string, mark: string, rest: string)
    requires Spaces(a) && mark != "" && !IsSpace(mark[0])
    ensures mark <= TrimStart(a + mark + rest)
  {
    TrimStartPast(a, mark + rest);
    assert a + mark + rest == a + (mark + rest);
  }

  /** A label line: the word expect in any case, perhaps a colon, and white space around either. */
  ghost predicate LabelParts(line: string, a: string, w: string, b: string, colon: string, c: string) {
    && Spaces(a) && Spaces(b) && Spaces(c) && Lower(w) == "expect" && (colon == "" || colon == ":")
    && line == a + w + b + colon + c
  }

  lemma LabelIff(line: string)
    ensures IsLabel(line) <==> exists a, w, b, colon, c :: LabelParts(line, a, w, b, colon, c)
  {
    if IsLabel(line) {
      LabelHasParts(line);
    }
    if a, w, b, colon, c :| LabelParts(line, a, w, b, colon, c) {
      PartsAreLabel(line, a, w, b, colon, c);
    }
  }

  lemma LowerApart(s: string, t: string)
    ensures Lower(s + t) == Lower(s) + Lower(t)
  {
  }

  lemma SpacesHaveNoCase(s: string)
    ensures Spaces(Lower(s)) <==> Spaces(s)
    ensures Spaces(s) ==> Lower(s) == s
  {
    forall i | 0 <= i < |s| ensures IsSpace(LowerChar(s[i])) <==> IsSpace(s[i]) { }
    if Spaces(Lower(s)) {
      forall ch | ch in s ensures IsSpace(ch) {
        var i :| 0 <= i < |s| && s[i] == ch;
        assert Lower(s)[i] in Lower(s);
      }
    }
    if Spaces(s) {
      forall i | 0 <= i < |s| ensures Lower(s)[i] == s[i] { assert s[i] in s; }
      assert Lower(s) == s;
    }
  }

  lemma LabelHasParts(line: string)
    requires IsLabel(line)
    ensures exists a, w, b, colon, c :: LabelParts(line, a, w, b, colon, c)
  {
    var core := Trim(line);
    var a, c := TrimSplit(line);
    if Lower(core) == "expect" {
      assert a + core + "" + "" + c == a + core + c;
      assert LabelParts(line, a, core, "", "", c);
    } else {
      var w, b := ColonLabel(core);
      Regrouped(a, w, b, ":", c);
      assert LabelParts(line, a, w, b, ":", c);
    }
  }

  lemma Regrouped(a: string, w: string, b: string, colon: string, c: string)
    ensures a + (w + b + colon) + c == a + w + b + colon + c
  {
  }

  lemma ColonLabel(core: string) returns (w: string, b: string)
    requires var t := Lower(core); t != "" && t[|t| - 1] == ':' && TrimEnd(t[..|t| - 1]) == "expect"
    ensures Lower(w) == "expect" && Spaces(b) && core == w + b + ":"
  {
    var n := |core| - 1;
    var front := core[..n];
    assert Lower(core)[..n] == Lower(front) && LowerChar(core[n]) == ':';
    w, b := WordThenSpaces(front, "expect");
    assert core == front + ":";
  }

  lemma WordThenSpaces(front: string, word: string) returns (w: string, b: string)
    requires TrimEnd(Lower(front)) == word
    ensures Lower(w) == word && Spaces(b) && front == w + b
  {
    var gap := TrimEndSplit(Lower(front));
    w, b := front[..|word|], front[|word|..];
    LowerApart(w, b);
    assert Lower(front)[..|word|] == word && Lower(front)[|word|..] == gap;
    assert Lower(w) == Lower(front)[..|word|] && Lower(b) == gap;
    SpacesHaveNoCase(b);
  }

  lemma WordTrimmed(w: string)
    requires Lower(w) == "expect"
    ensures w != "" && !IsSpace(w[0]) && !IsSpace(w[|w| - 1])
  {
    assert LowerChar(w[0]) == 'e' && LowerChar(w[5]) == 't';
  }

  lemma PartsAreLabel(line: string, a: string, w: string, b: string, colon: string, c: string)
    requires LabelParts(line, a, w, b, colon, c)
    ensures IsLabel(line)
  {
    WordTrimmed(w);
    if colon == "" {
      assert line == a + w + (b + c);
      TrimPadded(a, w, b + c);
    } else {
      var core := w + b + ":";
      assert line == a + core + c && core[0] == w[0];
      TrimPadded(a, core, c);
      LowerApart(w + b, ":");
      LowerApart(w, b);
      SpacesHaveNoCase(b);
      assert Lower(":") == ":";
      var t := Lower(core);
      assert t[..|t| - 1] == "expect" + b;
      TrimEndPadded("expect", b);
    }
  }

  /** A row: white space around text that starts and ends with a bar. */
  ghost predicate RowParts(line: string, a: string, core: string, c: string) {
    Spaces(a) && Spaces(c) && core != "" && core[0] == '|' && core[|core| - 1] == '|' && line == a + core + c
  }

  lemma RowIff(line: string)
    ensures IsRow(line) <==> exists a, core, c :: RowParts(line, a, core, c)
  {
    if IsRow(line) {
      var a, c := TrimSplit(line);
      assert RowParts(line, a, Trim(line), c);
    }
    if a, core, c :| RowParts(line, a, core, c) {
      TrimPadded(a, core, c);
    }
  }

  /** The text of a row whose cells stand in any white space of their own. */
  function LooseRow(fronts: seq<string>, cells: seq<string>, backs: seq<string>): string
    requires |fronts| == |cells| == |backs|
  {
    "|" + Join(Loose(fronts, cells, backs), "|") + "|"
  }

  function Loose(fronts: seq<string>, cells: seq<string>, backs: seq<string>): (r: seq<string>)
    requires |fronts| == |cells| == |backs|
    ensures |r| == |cells| && forall i | 0 <= i < |r| :: r[i] == fronts[i] + cells[i] + backs[i]
  {
    seq(|cells|, i requires 0 <= i < |cells| => fronts[i] + cells[i] + backs[i])
  }

  /** However its cells are padded, a row reads as the cells. */
  lemma LooseRowReads(fronts: seq<string>, cells: seq<string>, backs: seq<string>)
    requires cells != [] && |fronts| == |cells| == |backs|
    requires forall i | 0 <= i < |cells| :: Spaces(fronts[i]) && Spaces(backs[i]) && PlainCell(cells[i])
    ensures Cells(LooseRow(fronts, cells, backs)) == cells && IsRow(LooseRow(fronts, cells, backs))
  {
    var padded := Loose(fronts, cells, backs);
    var mid := Join(padded, "|");
    forall p | p in padded ensures '|' !in p {
      var i :| 0 <= i < |padded| && padded[i] == p;
      assert !IsSpace('|') && '|' !in fronts[i] && '|' !in backs[i];
    }
    SplitOnJoin(padded, '|');
    forall i | 0 <= i < |cells| ensures Trim(padded[i]) == cells[i] {
      forall ch | ch in fronts[i] + backs[i] ensures IsSpace(ch) { }
      TrimPadded(fronts[i], cells[i], backs[i]);
    }
    var row := LooseRow(fronts, cells, backs);
    if |row| <= 2 {
      assert mid == "";
    } else {
      assert row[1..|row| - 1] == mid;
    }
    assert TrimAll(SplitOn(mid, '|')) == cells;
    TrimFixed(row);
  }

  /** A header with no colon is a text column; the type follows the first colon; case and padding go. */
  lemma HeaderReads(name: string, kind: string, a: string, b: string, c: string, d: string)
    requires Spaces(a) && Spaces(b) && Spaces(c) && Spaces(d) && Trimmed(name) && Trimmed(kind) && ':' !in name
    ensures ReadCol(name) == Col(Lower(name), "text")
    ensures ReadCol((a + name + b) + ":" + (c + kind + d)) == Col(Lower(name), Lower(kind))
  {
    var left, right := a + name + b, c + kind + d;
    SplitOnNone(name, ':');
    assert !IsSpace(':') && ':' !in a && ':' !in b;
    SplitOnNone(left, ':');
    SplitOnSeparator(left, ':', right);
    assert left + [':'] + right == left + ":" + right;
    var parts := SplitOn(left + ":" + right, ':');
    assert parts == [left] + SplitOn(right, ':') && parts[1..] == SplitOn(right, ':');
    JoinSplit(right, ':');
    forall ch | ch in a + b || ch in c + d ensures IsSpace(ch) { }
    TrimPadded(a, name, b);
    TrimPadded(c, kind, d);
  }

  /** Without a label outside code there is no table, and a lone row after one is none either. */
  lemma NothingAsserted(body: seq<string>)
    ensures (forall l | l in Outside(body, false) :: !IsLabel(l)) ==> ParseExpectTable(body).None?
    ensures ParseExpectTable(body).Some? ==>
              exists i :: 0 <= i < |Outside(body, false)| && IsLabel(Outside(body, false)[i])
                && |RowBlock(Outside(body, false)[i + 1..])| >= 2
  {
    var lines := Outside(body, false);
    FirstLineBound(lines, IsLabel);
    FirstLineHolds(lines, IsLabel);
  }

  lemma {:induction false} FirstLineHolds(lines: seq<string>, p: string -> bool)
    ensures FirstLine(lines, p) < |lines| ==> p(lines[FirstLine(lines, p)])
    ensures forall i | 0 <= i < FirstLine(lines, p) && i < |lines| :: !p(lines[i])
  {
    if lines != [] && !p(lines[0]) {
      FirstLineHolds(lines[1..], p);
    }
  }

  /** Code blocks gone, the five parts of a body stand one after another. */
  lemma OutsideParts(a: seq<string>, b: seq<string>, c: seq<string>, d: seq<string>, e: seq<string>)
    requires !FenceAfter(a, false) && !FenceAfter(c, false)
    requires forall l | l in b + d :: !IsFence(l)
    ensures Outside(a + b + c + d + e, false)
         == Outside(a, false) + b + Outside(c, false) + d + Outside(e, false)
  {
    forall l | l in b || l in d ensures !IsFence(l) { assert l in b + d; }
    OutsidePlain(b);
    OutsidePlain(d);
    OutsideAppend(a, b, false);
    FenceAppend(a, b, false);
    OutsideAppend(a + b, c, false);
    FenceAppend(a + b, c, false);
    OutsideAppend(a + b + c, d, false);
    FenceAppend(a + b + c, d, false);
    OutsideAppend(a + b + c + d, e, false);
  }

  lemma LabelledBlock(front: seq<string>, heading: string, tail: seq<string>)
    requires IsLabel(heading) && forall l | l in front :: !IsLabel(l)
    ensures var lines := front + [heading] + tail;
            FirstLine(lines, IsLabel) == |front| && lines[|front| + 1..] == tail
  {
    assert front + [heading] + tail == front + ([heading] + tail);
    FirstLineSkips(front, [heading] + tail, IsLabel);
  }

  lemma ParsedFrom(body: seq<string>, at: nat, block: seq<string>, t: Table)
    requires var lines := Outside(body, false);
             at < |lines| && FirstLine(lines, IsLabel) == at && RowBlock(lines[at + 1..]) == block
    requires ReadBlock(block) == Some(t)
    ensures ParseExpectTable(body) == Some(t)
  {
  }

  lemma BodyLines(before: seq<string>, heading: string, gap: seq<string>, rows: seq<string>, after: seq<string>)
    requires IsLabel(heading) && forall l | l in rows :: !IsFence(l)
    requires !FenceAfter(before, false) && !FenceAfter(gap, false)
    ensures Outside(before + [heading] + gap + rows + after, false)
         == Outside(before, false) + [heading] + (Outside(gap, false) + rows + Outside(after, false))
  {
    LabelIsNoFence(heading);
    OutsideParts(before, [heading], gap, rows, after);
    var front, mid, rest := Outside(before, false), Outside(gap, false), Outside(after, false);
    assert front + [heading] + mid + rows + rest == front + [heading] + (mid + rows + rest);
  }

  /**
   * A table printed after its label is the table asserted, whatever balanced code blocks and
   * other tables stand before the label, and whatever follows the first line past its end.
   */
  lemma ExpectTableReadsBack(before: seq<string>, heading: string, gap: seq<string>, t: Table, after: seq<string>)
    requires Printable(t) && IsLabel(heading)
    requires !FenceAfter(before, false) && forall l | l in Outside(before, false) :: !IsLabel(l)
    requires !FenceAfter(gap, false) && forall l | l in Outside(gap, false) :: !IsRow(l)
    requires var rest := Outside(after, false); rest == [] || !IsRow(rest[0])
    ensures ParseExpectTable(before + [heading] + gap + Print(t) + after) == Some(t)
  {
    var rows := Print(t);
    PrintedLines(t);
    BodyLines(before, heading, gap, rows, after);
    var front, mid, rest := Outside(before, false), Outside(gap, false), Outside(after, false);
    LabelledBlock(front, heading, mid + rows + rest);
    BlockFound(mid, rows, rest);
    ParsedFrom(before + [heading] + gap + rows + after, |front|, rows, t);
  }

  /** A section's own table needs no label: the first printed outside code is the one read. */
  lemma DataTableReadsBack(gap: seq<string>, t: Table, after: seq<string>)
    requires Printable(t)
    requires !FenceAfter(gap, false) && forall l | l in Outside(gap, false) :: !IsRow(l)
    requires var rest := Outside(after, false); rest == [] || !IsRow(rest[0])
    ensures ParseDataTable(gap + Print(t) + after) == Some(t)
  {
    var rows := Print(t);
    PrintedLines(t);
    DataLines(gap, rows, after);
    BlockFound(Outside(gap, false), rows, Outside(after, false));
  }

  lemma DataLines(gap: seq<string>, rows: seq<string>, after: seq<string>)
    requires !FenceAfter(gap, false) && forall l | l in rows :: !IsFence(l)
    ensures Outside(gap + rows + after, false) == Outside(gap, false) + rows + Outside(after, false)
  {
    OutsidePlain(rows);
    OutsideAppend(gap, rows, false);
    FenceAppend(gap, rows, false);
    OutsideAppend(gap + rows, after, false);
  }

  lemma {:induction false} FenceAppend(a: seq<string>, b: seq<string>, inFence: bool)
    ensures FenceAfter(a + b, inFence) == FenceAfter(b, FenceAfter(a, inFence))
    decreases |a|
  {
    if a == [] {
      assert a + b == b;
    } else {
      assert (a + b)[1..] == a[1..] + b;
      FenceAppend(a[1..], b, if IsFence(a[0]) then !inFence else inFence);
    }
  }
}
