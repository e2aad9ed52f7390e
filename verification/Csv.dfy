/**
 * The harness's CSV reader, against a writer in the form of section 2 of RFC 4180: any field
 * may be quoted, with its own quotes doubled, and one holding a quote or a comma has to be.
 */
module Csv {
  import opened Text

  // ---------- Reading ----------

  /** One line, from the fields done, the field under way, and whether a quote is open. */
  function ParseFrom(done: seq<string>, cur: string, inQ: bool, s: string): seq<string>
    decreases |s|
  {
    if s == "" then done + [cur]
    else if inQ then
      if s[0] == '"' && |s| > 1 && s[1] == '"' then ParseFrom(done, cur + ['"'], true, s[2..])
      else if s[0] == '"' then ParseFrom(done, cur, false, s[1..])
      else ParseFrom(done, cur + [s[0]], true, s[1..])
    else if s[0] == '"' then ParseFrom(done, cur, true, s[1..])
    else if s[0] == ',' then ParseFrom(done + [cur], "", false, s[1..])
    else ParseFrom(done, cur + [s[0]], false, s[1..])
  }

  function Fields(line: string): seq<string> {
    ParseFrom([], "", false, line)
  }

  method ParseLine(line: string) returns (out: seq<string>)
    ensures out == Fields(line)
  {
    out := [];
    var cur, inQ, i := "", false, 0;
    while i < |line|
      invariant 0 <= i <= |line|
      invariant ParseFrom(out, cur, inQ, line[i..]) == Fields(line)
    {
      var c := line[i];
      assert line[i..][1..] == line[i + 1..];
      if inQ {
        if c == '"' && i + 1 < |line| && line[i + 1] == '"' {
          assert line[i..][2..] == line[i + 2..];
          cur := cur + ['"'];
          i := i + 1;
        } else if c == '"' {
          inQ := false;
        } else {
          cur := cur + [c];
        }
      } else if c == '"' {
        inQ := true;
      } else if c == ',' {
        out := out + [cur];
        cur := "";
      } else {
        cur := cur + [c];
      }
      i := i + 1;
    }
    assert line[i..] == "";
    out := out + [cur];
  }

  type Row = map<string, string>

  /** Assigning each header's cell in turn; assigning to __proto__ leaves an object as it was. */
  function RowFrom(row: Row, headers: seq<string>, cells: seq<string>): Row
    decreases |headers|
  {
    if headers == [] then row
    else
      var cell := if cells == [] then "" else cells[0];
      RowFrom(if headers[0] == "__proto__" then row else row[headers[0] := cell], headers[1..],
              if cells == [] then [] else cells[1..])
  }

  function RowsFrom(headers: seq<string>, lines: seq<string>): (r: seq<Row>)
    ensures |r| == |lines|
  {
    seq(|lines|, i requires 0 <= i < |lines| => RowFrom(map[], headers, Fields(lines[i])))
  }

  function ParseCsv(text: string): seq<Row> {
    if text == "" then []
    else
      var lines := SplitOn(text, '\n');
      RowsFrom(Fields(lines[0]), lines[1..])
  }

  // ---------- Writing ----------

  /** A field and whether it is written in quotes. */
  datatype Cell = Cell(text: string, quoted: bool)

  function Doubled(s: string): string {
    if s == "" then "" else (if s[0] == '"' then "\"\"" else [s[0]]) + Doubled(s[1..])
  }

  predicate Writable(c: Cell) {
    c.quoted || ('"' !in c.text && ',' !in c.text)
  }

  function Write(c: Cell): string {
    if c.quoted then "\"" + Doubled(c.text) + "\"" else c.text
  }

  function WriteAll(cells: seq<Cell>): seq<string> {
    if cells == [] then [] else [Write(cells[0])] + WriteAll(cells[1..])
  }

  function WriteLine(cells: seq<Cell>): string {
    Join(WriteAll(cells), ",")
  }

  function Texts(cells: seq<Cell>): seq<string> {
    if cells == [] then [] else [cells[0].text] + Texts(cells[1..])
  }

  function WriteLines(lines: seq<seq<Cell>>): seq<string> {
    if lines == [] then [] else [WriteLine(lines[0])] + WriteLines(lines[1..])
  }

  function WriteTable(headers: seq<Cell>, rows: seq<seq<Cell>>): string {
    Join(WriteLines([headers] + rows), "\n")
  }

  predicate Line(cells: seq<Cell>) {
    cells != [] && forall c | c in cells :: Writable(c)
  }

  // ---------- One line ----------

  predicate EndsField(rest: string) {
    rest == "" || rest[0] == ','
  }

  lemma ParseInside(done: seq<string>, cur: string, c: char, tail: string)
    ensures ParseFrom(done, cur, true, (if c == '"' then "\"\"" else [c]) + tail)
         == ParseFrom(done, cur + [c], true, tail)
  {
  }

  lemma {:induction false} ParseDoubled(done: seq<string>, cur: string, s: string, rest: string)
    requires EndsField(rest)
    ensures ParseFrom(done, cur, true, Doubled(s) + "\"" + rest) == ParseFrom(done, cur + s, false, rest)
    decreases |s|
  {
    if s == "" {
      assert Doubled(s) + "\"" + rest == "\"" + rest;
      assert ("\"" + rest)[1..] == rest && cur + s == cur;
    } else {
      var front, tail := if s[0] == '"' then "\"\"" else [s[0]], Doubled(s[1..]) + "\"" + rest;
      assert Doubled(s) == front + Doubled(s[1..]);
      assert front + Doubled(s[1..]) + "\"" + rest == front + tail;
      ParseInside(done, cur, s[0], tail);
      ParseDoubled(done, cur + [s[0]], s[1..], rest);
      assert cur + [s[0]] + s[1..] == cur + s;
    }
  }

  lemma {:induction false} ParseBare(done: seq<string>, cur: string, s: string, rest: string)
    requires '"' !in s && ',' !in s
    ensures ParseFrom(done, cur, false, s + rest) == ParseFrom(done, cur + s, false, rest)
    decreases |s|
  {
    if s == "" {
      assert s + rest == rest && cur + s == cur;
    } else {
      assert s[0] in s && (s + rest)[1..] == s[1..] + rest;
      ParseBare(done, cur + [s[0]], s[1..], rest);
      assert cur + [s[0]] + s[1..] == cur + s;
    }
  }

  lemma ParseCell(done: seq<string>, c: Cell, rest: string)
    requires Writable(c) && EndsField(rest)
    ensures ParseFrom(done, "", false, Write(c) + rest) == ParseFrom(done, c.text, false, rest)
  {
    assert "" + c.text == c.text;
    if c.quoted {
      var body := Doubled(c.text) + "\"" + rest;
      assert Write(c) + rest == "\"" + body;
      assert ("\"" + body)[1..] == body;
      ParseDoubled(done, "", c.text, rest);
    } else {
      ParseBare(done, "", c.text, rest);
    }
  }

  lemma WriteLineMore(cells: seq<Cell>)
    requires |cells| >= 2
    ensures WriteLine(cells) == Write(cells[0]) + ("," + WriteLine(cells[1..]))
  {
  }

  lemma ParseComma(done: seq<string>, cur: string, rest: string)
    ensures ParseFrom(done, cur, false, "," + rest) == ParseFrom(done + [cur], "", false, rest)
  {
  }

  /** The first field and the comma after it. */
  lemma ParseFirst(done: seq<string>, c: Cell, rest: string)
    requires Writable(c)
    ensures ParseFrom(done, "", false, Write(c) + ("," + rest)) == ParseFrom(done + [c.text], "", false, rest)
  {
    ParseCell(done, c, "," + rest);
    ParseComma(done, c.text, rest);
  }

  lemma ParseLast(done: seq<string>, c: Cell)
    requires Writable(c)
    ensures ParseFrom(done, "", false, Write(c)) == done + [c.text]
  {
    ParseCell(done, c, "");
    assert Write(c) + "" == Write(c);
  }

  lemma OneCell(cells: seq<Cell>)
    requires |cells| == 1
    ensures WriteLine(cells) == Write(cells[0]) && Texts(cells) == [cells[0].text]
  {
    assert WriteAll(cells[1..]) == [] && Texts(cells[1..]) == [];
  }

  lemma GluedFields(a: seq<string>, b: seq<string>, c: seq<string>)
    ensures a + b + c == a + (b + c)
  {
  }

  lemma {:induction false} ParseLineFrom(done: seq<string>, cells: seq<Cell>)
    requires Line(cells)
    ensures ParseFrom(done, "", false, WriteLine(cells)) == done + Texts(cells)
    decreases |cells|
  {
    var c, more := cells[0], cells[1..];
    assert c in cells;
    if more == [] {
      OneCell(cells);
      ParseLast(done, c);
    } else {
      forall x | x in more ensures Writable(x) { assert x in cells; }
      WriteLineMore(cells);
      ParseFirst(done, c, WriteLine(more));
      ParseLineFrom(done + [c.text], more);
      GluedFields(done, [c.text], Texts(more));
    }
  }

  /** A written line reads back as its fields, whichever of them were quoted. */
  lemma LineReadsBack(cells: seq<Cell>)
    requires Line(cells)
    ensures Fields(WriteLine(cells)) == Texts(cells)
  {
    ParseLineFrom([], cells);
    assert [] + Texts(cells) == Texts(cells);
  }

  /** Quotes may open in the middle of a field too: bare text, quoted text and bare text run together. */
  lemma MixedField(a: string, b: string, c: string)
    requires '"' !in a && ',' !in a && '"' !in c && ',' !in c
    ensures Fields(a + ("\"" + (Doubled(b) + "\"" + c))) == [a + b + c]
  {
    var quoted := Doubled(b) + "\"" + c;
    ParseBare([], "", a, "\"" + quoted);
    assert "" + a == a && ("\"" + quoted)[1..] == quoted;
    QuotedThen([], a, b, c);
    ParseBare([], a + b, c, "");
    assert c + "" == c && [] + [a + b + c] == [a + b + c];
  }

  lemma {:induction false} QuotedThen(done: seq<string>, cur: string, s: string, c: string)
    requires '"' !in c
    ensures ParseFrom(done, cur, true, Doubled(s) + "\"" + c) == ParseFrom(done, cur + s, false, c)
    decreases |s|
  {
    if s == "" {
      assert Doubled(s) + "\"" + c == "\"" + c;
      assert ("\"" + c)[1..] == c && cur + s == cur;
    } else {
      var front, tail := if s[0] == '"' then "\"\"" else [s[0]], Doubled(s[1..]) + "\"" + c;
      assert Doubled(s) == front + Doubled(s[1..]);
      assert front + Doubled(s[1..]) + "\"" + c == front + tail;
      ParseInside(done, cur, s[0], tail);
      QuotedThen(done, cur + [s[0]], s[1..], c);
      assert cur + [s[0]] + s[1..] == cur + s;
    }
  }

  // ---------- A whole table ----------

  predicate Distinct(s: seq<string>) {
    forall i, j | 0 <= i < j < |s| :: s[i] != s[j]
  }

  /** What a row holds under one header. */
  predicate Holds(row: Row, header: string, cell: string) {
    if header == "__proto__" then header !in row else header in row && row[header] == cell
  }

  /** The cell in column k; empty where the line is too short. */
  function CellAt(cells: seq<string>, k: nat): string {
    if k < |cells| then cells[k] else ""
  }

  lemma {:induction false} RowFromHolds(row: Row, headers: seq<string>, cells: seq<string>)
    requires Distinct(headers) && "__proto__" !in row
    ensures var r := RowFrom(row, headers, cells);
            && (forall i | 0 <= i < |headers| :: Holds(r, headers[i], CellAt(cells, i)))
            && (forall k | k !in headers :: k in r <==> k in row)
            && (forall k | k !in headers && k in row :: r[k] == row[k])
            && "__proto__" !in r
    decreases |headers|
  {
    if headers != [] {
      var h, hs, cs := headers[0], headers[1..], if cells == [] then [] else cells[1..];
      var next := if h == "__proto__" then row else row[h := CellAt(cells, 0)];
      RowFromHolds(next, hs, cs);
      var r := RowFrom(next, hs, cs);
      assert h !in hs by {
        forall i | 0 <= i < |hs| ensures hs[i] != h { assert hs[i] == headers[i + 1]; }
      }
      forall i | 0 <= i < |headers| ensures Holds(r, headers[i], CellAt(cells, i)) {
        if i > 0 {
          assert headers[i] == hs[i - 1] && CellAt(cells, i) == CellAt(cs, i - 1);
        }
      }
    }
  }

  lemma {:induction false} TextsLength(cells: seq<Cell>)
    ensures |Texts(cells)| == |cells| && |WriteAll(cells)| == |cells|
  {
    if cells != [] {
      TextsLength(cells[1..]);
    }
  }

  lemma {:induction false} WriteLinesAt(lines: seq<seq<Cell>>)
    ensures |WriteLines(lines)| == |lines|
    ensures forall i | 0 <= i < |lines| :: WriteLines(lines)[i] == WriteLine(lines[i])
  {
    if lines != [] {
      WriteLinesAt(lines[1..]);
    }
  }

  lemma {:induction false} SplitOnHit(s: string, sep: char)
    requires sep in s
    ensures |SplitOn(s, sep)| >= 2
  {
    if s[0] != sep {
      assert sep in s[1..];
      SplitOnHit(s[1..], sep);
    }
  }

  /** Joined lines split into at least as many lines, and into more if one holds a newline. */
  lemma {:induction false} JoinedLines(lines: seq<string>, sep: char)
    requires lines != []
    ensures |SplitOn(Join(lines, [sep]), sep)| >= |lines|
    ensures (exists l | l in lines :: sep in l) ==> |SplitOn(Join(lines, [sep]), sep)| > |lines|
  {
    if |lines| == 1 {
      if sep in lines[0] {
        SplitOnHit(lines[0], sep);
      }
    } else {
      var rest := Join(lines[1..], [sep]);
      SplitOnSeparator(lines[0], sep, rest);
      JoinedLines(lines[1..], sep);
      if sep in lines[0] {
        SplitOnHit(lines[0], sep);
      }
      if l :| l in lines && sep in l {
        assert l == lines[0] || l in lines[1..];
      }
    }
  }

  predicate NewlineFree(cells: seq<Cell>) {
    forall c | c in cells :: '\n' !in c.text
  }

  lemma {:induction false} DoubledHas(s: string, c: char)
    requires c != '"'
    ensures c in Doubled(s) <==> c in s
  {
    if s != "" {
      DoubledHas(s[1..], c);
      assert c in s <==> c == s[0] || c in s[1..];
      var front := if s[0] == '"' then "\"\"" else [s[0]];
      assert c in Doubled(s) <==> c in front || c in Doubled(s[1..]);
    }
  }

  lemma WriteHasNewline(c: Cell)
    ensures '\n' in Write(c) <==> '\n' in c.text
  {
    DoubledHas(c.text, '\n');
  }

  /** A newline is in the line exactly when it is in a field. */
  lemma {:induction false} LineHasNewline(cells: seq<Cell>)
    ensures '\n' !in WriteLine(cells) <==> NewlineFree(cells)
  {
    if cells != [] {
      WriteHasNewline(cells[0]);
      LineHasNewline(cells[1..]);
      assert NewlineFree(cells) <==> '\n' !in cells[0].text && NewlineFree(cells[1..]);
      TextsLength(cells);
      if |cells| == 1 {
        assert WriteAll(cells) == [Write(cells[0])];
      } else {
        assert WriteAll(cells)[1..] == WriteAll(cells[1..]);
        assert WriteLine(cells) == Write(cells[0]) + "," + WriteLine(cells[1..]);
      }
    }
  }

  lemma JoinManyHasSep(lines: seq<string>, sep: char)
    requires |lines| >= 2
    ensures Join(lines, [sep]) != ""
  {
  }

  /** The keys a row has: its headers, but for the one an object will not take. */
  function Keys(headers: seq<Cell>): set<string> {
    set h | h in Texts(headers) && h != "__proto__"
  }

  /** The rows the table was written from, header by header, and nothing besides. */
  predicate Matches(rows: seq<Row>, headers: seq<Cell>, table: seq<seq<Cell>>) {
    && |rows| == |table|
    && (forall i | 0 <= i < |table| :: rows[i].Keys == Keys(headers))
    && forall i, k | 0 <= i < |table| && 0 <= k < |headers| ::
         Holds(rows[i], headers[k].text, if k < |table[i]| then table[i][k].text else "")
  }

  lemma {:induction false} TextsAt(cells: seq<Cell>, k: nat)
    requires k < |cells|
    ensures k < |Texts(cells)| && Texts(cells)[k] == cells[k].text
  {
    if k > 0 {
      TextsAt(cells[1..], k - 1);
    }
  }

  lemma RowKeys(headers: seq<Cell>, cells: seq<string>)
    requires Distinct(Texts(headers))
    ensures RowFrom(map[], Texts(headers), cells).Keys == Keys(headers)
  {
    var hs := Texts(headers);
    var r := RowFrom(map[], hs, cells);
    RowFromHolds(map[], hs, cells);
    forall h | h in hs && h != "__proto__" ensures h in r {
      var i :| 0 <= i < |hs| && hs[i] == h;
      assert Holds(r, hs[i], CellAt(cells, i));
    }
  }

  lemma TextsCell(cells: seq<Cell>, k: nat)
    ensures CellAt(Texts(cells), k) == if k < |cells| then cells[k].text else ""
  {
    TextsLength(cells);
    if k < |cells| {
      TextsAt(cells, k);
    }
  }

  lemma RowMatches(headers: seq<Cell>, cells: seq<Cell>)
    requires Line(cells) && Distinct(Texts(headers))
    ensures var r := RowFrom(map[], Texts(headers), Fields(WriteLine(cells)));
            && r.Keys == Keys(headers)
            && forall k | 0 <= k < |headers| ::
              Holds(r, headers[k].text, if k < |cells| then cells[k].text else "")
  {
    LineReadsBack(cells);
    TextsLength(headers);
    RowFromHolds(map[], Texts(headers), Texts(cells));
    RowKeys(headers, Texts(cells));
    forall k | 0 <= k < |headers|
      ensures Texts(headers)[k] == headers[k].text
      ensures CellAt(Texts(cells), k) == if k < |cells| then cells[k].text else ""
    {
      TextsAt(headers, k);
      TextsCell(cells, k);
    }
  }

  predicate TableShaped(headers: seq<Cell>, table: seq<seq<Cell>>) {
    && Line(headers) && Distinct(Texts(headers))
    && forall r | r in table :: Line(r)
  }

  lemma RowsMatch(headers: seq<Cell>, table: seq<seq<Cell>>, lines: seq<string>)
    requires TableShaped(headers, table) && |lines| == |table|
    requires forall i | 0 <= i < |table| :: lines[i] == WriteLine(table[i])
    ensures Matches(RowsFrom(Texts(headers), lines), headers, table)
  {
    var rows := RowsFrom(Texts(headers), lines);
    forall i | 0 <= i < |table| ensures rows[i].Keys == Keys(headers) {
      assert table[i] in table;
      RowMatches(headers, table[i]);
    }
    forall i, k | 0 <= i < |table| && 0 <= k < |headers|
      ensures Holds(rows[i], headers[k].text, if k < |table[i]| then table[i][k].text else "")
    {
      assert table[i] in table;
      RowMatches(headers, table[i]);
    }
  }

  lemma LinesFree(all: seq<seq<Cell>>)
    ensures (forall l | l in WriteLines(all) :: '\n' !in l) <==> forall l | l in all :: NewlineFree(l)
  {
    var lines := WriteLines(all);
    WriteLinesAt(all);
    forall i | 0 <= i < |all| ensures '\n' !in lines[i] <==> NewlineFree(all[i]) {
      LineHasNewline(all[i]);
    }
    if forall l | l in lines :: '\n' !in l {
      forall l | l in all ensures NewlineFree(l) {
        var i :| 0 <= i < |all| && all[i] == l;
        assert lines[i] in lines;
      }
    }
  }

  lemma TableReadsBack(headers: seq<Cell>, table: seq<seq<Cell>>)
    requires TableShaped(headers, table)
    requires forall l | l in WriteLines([headers] + table) :: '\n' !in l
    ensures Matches(ParseCsv(WriteTable(headers, table)), headers, table)
  {
    var all := [headers] + table;
    var lines := WriteLines(all);
    WriteLinesAt(all);
    SplitOnJoin(lines, '\n');
    if WriteTable(headers, table) != "" {
      LineReadsBack(headers);
      forall i | 0 <= i < |table| ensures lines[1..][i] == WriteLine(table[i]) {
        assert all[i + 1] == table[i];
      }
      RowsMatch(headers, table, lines[1..]);
    } else if table != [] {
      JoinManyHasSep(lines, '\n');
    }
  }

  lemma NewlineAddsRows(headers: seq<Cell>, table: seq<seq<Cell>>)
    requires exists l | l in WriteLines([headers] + table) :: '\n' in l
    ensures |ParseCsv(WriteTable(headers, table))| > |table|
  {
    WriteLinesAt([headers] + table);
    JoinedLines(WriteLines([headers] + table), '\n');
    assert SplitOn("", '\n') == [""];
  }

  /**
   * A written table reads back row for row, with every cell under its header, exactly when no
   * field holds a newline: the reader splits lines before it looks at quotes. A short row is
   * filled up with empty cells, and what a long one has past the headers is dropped.
   */
  lemma TableReadsBackIff(headers: seq<Cell>, table: seq<seq<Cell>>)
    requires TableShaped(headers, table)
    ensures Matches(ParseCsv(WriteTable(headers, table)), headers, table)
       <==> forall l | l in [headers] + table :: NewlineFree(l)
  {
    LinesFree([headers] + table);
    if forall l | l in WriteLines([headers] + table) :: '\n' !in l {
      TableReadsBack(headers, table);
    } else {
      NewlineAddsRows(headers, table);
    }
  }
}
