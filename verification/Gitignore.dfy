/**
 * Teaching an existing .gitignore what the server writes, without taking a line out of it.
 */
module Gitignore {
  import opened Text

  const HEADER := "# Malloy Publisher"

  const ENTRIES: seq<string> :=
    ["node_modules/", "publisher_data/", "publisher.db*", "*.log", ".DS_Store", "malloy-config.json"]

  /** One carriage return before a line's end belongs to the line break. */
  function DropReturn(line: string): string {
    if line != "" && line[|line| - 1] == '\r' then line[..|line| - 1] else line
  }

  /** text.split(/\r?\n/): the last part ends at no line break, so keeps its return. */
  function Lines(text: string): seq<string> {
    var parts := SplitOn(text, '\n');
    seq(|parts|, i requires 0 <= i < |parts| => if i < |parts| - 1 then DropReturn(parts[i]) else parts[i])
  }

  /** What a line ignores; nothing, for a comment or a blank. */
  function Normal(line: string): string {
    var t := Trim(line);
    if t == "" || t[0] == '#' then "" else StripBack(StripFront(t, '/'), '/')
  }

  function Rules(text: string): set<string> {
    set l | l in Lines(text) && Normal(l) != "" :: Normal(l)
  }

  function Missing(present: set<string>, entries: seq<string>): seq<string> {
    if entries == [] then []
    else (if Normal(entries[0]) in present then [] else [entries[0]]) + Missing(present, entries[1..])
  }

  function Separator(existing: string): string {
    if existing == "" then "" else if existing[|existing| - 1] == '\n' then "\n" else "\n\n"
  }

  function Block(missing: seq<string>): string {
    HEADER + "\n" + Join(missing, "\n") + "\n"
  }

  function WithMissing(text: string, missing: seq<string>): string {
    if missing == [] then text else text + Separator(text) + Block(missing)
  }

  /** The file after a merge, None being no file at all. */
  function Merged(file: Option<string>): string {
    match file
    case None => Join([HEADER] + ENTRIES + [""], "\n")
    case Some(text) => WithMissing(text, Missing(Rules(text), ENTRIES))
  }

  datatype Report = Written | Appended(count: nat) | Complete | Unreadable

  class Workspace {
    var gitignore: Option<string>
    var readable: bool
    var reports: seq<Report>

    constructor (gitignore: Option<string>, readable: bool)
      ensures this.gitignore == gitignore && this.readable == readable && reports == []
    {
      this.gitignore, this.readable, reports := gitignore, readable, [];
    }

    method MergeGitignore()
      modifies this`gitignore, this`reports
      ensures gitignore == if old(gitignore).Some? && !readable then old(gitignore) else Some(Merged(old(gitignore)))
      ensures |reports| == |old(reports)| + 1 && old(reports) <= reports
      ensures reports[|reports| - 1]
           == if old(gitignore).None? then Written
              else if !readable then Unreadable
              else
                var n := |Missing(Rules(old(gitignore).value), ENTRIES)|;
                if n == 0 then Complete else Appended(n)
    {
      if gitignore.None? {
        gitignore := Some(Join([HEADER] + ENTRIES + [""], "\n"));
        reports := reports + [Written];
        return;
      }
      if !readable {
        reports := reports + [Unreadable];
        return;
      }
      var existing := gitignore.value;
      var missing := Missing(Rules(existing), ENTRIES);
      if |missing| == 0 {
        reports := reports + [Complete];
        return;
      }
      var prefix := if existing == "" then "" else if existing[|existing| - 1] == '\n' then "\n" else "\n\n";
      gitignore := Some(existing + prefix + Block(missing));
      reports := reports + [Appended(|missing|)];
    }
  }

  // ---------- Rules, written out ----------

  predicate Slashes(s: string) {
    forall i | 0 <= i < |s| :: s[i] == '/'
  }

  lemma {:induction false} SlashesOff(front: string, body: string, back: string)
    requires Slashes(front) && Slashes(back) && body != "" && body[0] != '/' && body[|body| - 1] != '/'
    ensures StripBack(StripFront(front + body + back, '/'), '/') == body
    decreases |front|, |back|
  {
    if front != "" {
      assert (front + body + back)[1..] == front[1..] + body + back;
      SlashesOff(front[1..], body, back);
    } else if back != "" {
      var s := front + body + back;
      assert s[0] == body[0] && StripFront(s, '/') == s;
      assert s[..|s| - 1] == front + body + back[..|back| - 1];
      SlashesOff(front, body, back[..|back| - 1]);
      assert StripFront(s[..|s| - 1], '/') == s[..|s| - 1];
    } else {
      assert front + body + back == body;
    }
  }

  /** A rule is what stands between the slashes at either end, white space around them aside. */
  lemma RuleIsBody(a: string, front: string, body: string, back: string, c: string)
    requires Spaces(a) && Spaces(c) && Slashes(front) && Slashes(back) && body != "" && Trimmed(body)
    requires body[0] != '/' && body[|body| - 1] != '/' && (front == "" ==> body[0] != '#')
    ensures Normal(a + (front + body + back) + c) == body
  {
    var t := front + body + back;
    assert t[0] == if front == "" then body[0] else front[0];
    assert t[|t| - 1] == if back == "" then body[|body| - 1] else back[|back| - 1];
    assert !IsSpace('/');
    TrimPadded(a, t, c);
    SlashesOff(front, body, back);
  }

  /** Blank lines and comments ignore nothing. */
  lemma NoRule(a: string, comment: string)
    requires Spaces(a)
    ensures Normal(a) == "" && Normal(a + "#" + comment) == ""
  {
    TrimStartPast(a, "");
    assert a + "" == a;
    assert ("#" + comment)[0] == '#' && !IsSpace('#');
    TrimStartPast(a, "#" + comment);
    assert a + ("#" + comment) == a + "#" + comment;
    TrimEndKeepsFirst("#" + comment);
  }

  lemma {:induction false} MissingInOrder(present: set<string>, a: seq<string>, e: string, b: seq<string>)
    ensures Missing(present, []) == []
    ensures Missing(present, a + [e] + b)
         == Missing(present, a) + (if Normal(e) in present then [] else [e]) + Missing(present, b)
    decreases |a|
  {
    if a == [] {
      assert a + [e] + b == [e] + b && ([e] + b)[1..] == b;
    } else {
      assert (a + [e] + b)[1..] == a[1..] + [e] + b;
      MissingInOrder(present, a[1..], e, b);
    }
  }

  /** The text appended: a blank line if there is text before it, the heading, and the missing entries a line each. */
  lemma AppendedText(text: string)
    ensures var missing := Missing(Rules(text), ENTRIES);
            Merged(Some(text)) ==
            if missing == [] then text
            else text + (if text == "" then "" else if text[|text| - 1] == '\n' then "\n" else "\n\n")
                 + ("# Malloy Publisher" + "\n" + Join(missing, "\n") + "\n")
  {
  }

  lemma LinesJoined(n: string, a: string, b: string, c: string, d: string, e: string, f: string, g: string)
    ensures Join([a] + [b, c, d, e, f, g] + [""], n) == a + n + b + n + c + n + d + n + e + n + f + n + g + n
  {
    assert Join([""], n) == "" && Join([g, ""], n) == g + n && Join([f, g, ""], n) == f + n + (g + n);
    assert Join([e, f, g, ""], n) == e + n + (f + n + (g + n));
    assert Join([d, e, f, g, ""], n) == d + n + (e + n + (f + n + (g + n)));
    assert Join([c, d, e, f, g, ""], n) == c + n + (d + n + (e + n + (f + n + (g + n))));
    assert Join([b, c, d, e, f, g, ""], n) == b + n + (c + n + (d + n + (e + n + (f + n + (g + n)))));
    assert [a] + [b, c, d, e, f, g] + [""] == [a, b, c, d, e, f, g, ""];
    assert [a, b, c, d, e, f, g, ""][1..] == [b, c, d, e, f, g, ""];
  }

  /** The file written where there was none. */
  lemma FreshFileText()
    ensures var n := "\n";
            Merged(None) ==
            "# Malloy Publisher" + n + "node_modules/" + n + "publisher_data/" + n + "publisher.db*" + n + "*.log" + n
            + ".DS_Store" + n + "malloy-config.json" + n
  {
    LinesJoined("\n", "# Malloy Publisher", "node_modules/", "publisher_data/", "publisher.db*", "*.log", ".DS_Store",
                "malloy-config.json");
  }

  // ---------- A trailing return means nothing ----------

  lemma {:induction false} TrimStartAppend(s: string, w: char)
    requires IsSpace(w)
    ensures TrimStart(s + [w]) == if TrimStart(s) == "" then "" else TrimStart(s) + [w]
  {
    if s == "" {
      assert s + [w] == [w] && TrimStart([w]) == TrimStart([w][1..]);
    } else if IsSpace(s[0]) {
      assert (s + [w])[1..] == s[1..] + [w];
      TrimStartAppend(s[1..], w);
    }
  }

  lemma TrimAppend(s: string, w: char)
    requires IsSpace(w)
    ensures Trim(s + [w]) == Trim(s)
  {
    TrimStartAppend(s, w);
    var t := TrimStart(s);
    assert (t + [w])[..|t|] == t;
  }

  lemma NormalDropsReturn(line: string)
    ensures Normal(DropReturn(line)) == Normal(line)
  {
    if line != "" && line[|line| - 1] == '\r' {
      assert line == line[..|line| - 1] + ['\r'];
      TrimAppend(line[..|line| - 1], '\r');
    }
  }

  function RulesOf(parts: seq<string>): set<string> {
    set l | l in parts && Normal(l) != "" :: Normal(l)
  }

  lemma RulesByNewline(text: string)
    ensures Rules(text) == RulesOf(SplitOn(text, '\n'))
  {
    var parts, lines := SplitOn(text, '\n'), Lines(text);
    forall i | 0 <= i < |parts| ensures Normal(lines[i]) == Normal(parts[i]) {
      NormalDropsReturn(parts[i]);
    }
    forall r | r in Rules(text) ensures r in RulesOf(parts) {
      var l :| l in lines && Normal(l) == r;
      var i :| 0 <= i < |lines| && lines[i] == l;
      assert parts[i] in parts && Normal(parts[i]) == r;
    }
    forall r | r in RulesOf(parts) ensures r in Rules(text) {
      var l :| l in parts && Normal(l) == r;
      var i :| 0 <= i < |parts| && parts[i] == l;
      assert lines[i] in lines && Normal(lines[i]) == r;
    }
  }

  /** Rules of two stretches of lines are gathered. */
  lemma RulesAcross(a: string, b: string)
    ensures Rules(a + "\n" + b) == Rules(a) + Rules(b)
  {
    RulesByNewline(a);
    RulesByNewline(b);
    RulesByNewline(a + "\n" + b);
    SplitOnSeparator(a, '\n', b);
    var x, y := SplitOn(a, '\n'), SplitOn(b, '\n');
    assert forall l :: l in x + y <==> l in x || l in y;
    assert RulesOf(x + y) == RulesOf(x) + RulesOf(y);
  }

  lemma RulesOfLine(line: string)
    requires '\n' !in line
    ensures Rules(line) == if Normal(line) == "" then {} else {Normal(line)}
  {
    RulesByNewline(line);
    SplitOnNone(line, '\n');
    assert forall l :: l in [line] <==> l == line;
  }

  lemma NoRules()
    ensures Rules("") == {} && Rules(HEADER) == {}
  {
    RulesOfLine("");
    assert Trimmed(HEADER) && HEADER[0] == '#';
    TrimFixed(HEADER);
    assert '\n' !in HEADER;
    RulesOfLine(HEADER);
  }

  // ---------- The entries ----------

  predicate EntryShaped(e: string) {
    e != "" && e[0] != '#' && e[0] != '/' && Trimmed(e) && '\n' !in e
  }

  lemma {:induction false} StripBackKeepsFirst(s: string)
    requires s != "" && s[0] != '/'
    ensures StripBack(s, '/') != ""
  {
    if s[|s| - 1] == '/' {
      StripBackKeepsFirst(s[..|s| - 1]);
    }
  }

  lemma EntryIsRule(e: string)
    requires EntryShaped(e)
    ensures Normal(e) != "" && Rules(e) == {Normal(e)}
  {
    TrimFixed(e);
    StripBackKeepsFirst(e);
    RulesOfLine(e);
  }

  lemma EntriesShaped()
    ensures forall e | e in ENTRIES :: EntryShaped(e)
  {
    assert EntryShaped("node_modules/") && EntryShaped("publisher_data/");
    assert EntryShaped("publisher.db*") && EntryShaped("*.log");
    assert EntryShaped(".DS_Store") && EntryShaped("malloy-config.json");
  }

  function Required(entries: seq<string>): set<string> {
    set e | e in entries :: Normal(e)
  }

  lemma {:induction false} MissingSplit(present: set<string>, entries: seq<string>)
    ensures forall e | e in Missing(present, entries) :: e in entries
    ensures present + Required(Missing(present, entries)) == present + Required(entries)
    ensures Missing(present, entries) == [] <==> Required(entries) <= present
  {
    if entries != [] {
      var rest := entries[1..];
      MissingSplit(present, rest);
      assert forall e :: e in entries <==> e == entries[0] || e in rest;
      assert Required(entries) == {Normal(entries[0])} + Required(rest);
      var m := Missing(present, rest);
      if Normal(entries[0]) !in present {
        assert forall e :: e in [entries[0]] + m <==> e == entries[0] || e in m;
        assert Required([entries[0]] + m) == {Normal(entries[0])} + Required(m);
      } else {
        assert [] + m == m;
      }
    }
  }

  lemma {:induction false} RulesOfJoin(entries: seq<string>)
    requires entries != [] && forall e | e in entries :: EntryShaped(e)
    ensures Rules(Join(entries, "\n")) == Required(entries)
  {
    assert entries[0] in entries;
    EntryIsRule(entries[0]);
    var rest := entries[1..];
    assert forall e :: e in entries <==> e == entries[0] || e in rest;
    if |entries| > 1 {
      RulesAcross(entries[0], Join(rest, "\n"));
      RulesOfJoin(rest);
    }
    assert Required(entries) == {Normal(entries[0])} + Required(rest);
  }

  lemma RulesOfBlock(entries: seq<string>)
    requires entries != [] && forall e | e in entries :: EntryShaped(e)
    ensures Rules(Block(entries)) == Required(entries)
  {
    var body := Join(entries, "\n");
    assert Block(entries) == HEADER + "\n" + (body + "\n" + "");
    RulesAcross(HEADER, body + "\n" + "");
    RulesAcross(body, "");
    RulesOfJoin(entries);
    NoRules();
  }

  // ---------- The merge ----------

  lemma RulesAfterSeparator(text: string, block: string)
    ensures Rules(text + Separator(text) + block) == Rules(text) + Rules(block)
  {
    NoRules();
    if text == "" {
      assert text + Separator(text) + block == block;
    } else if text[|text| - 1] == '\n' {
      RulesAcross(text, block);
    } else {
      assert text + "\n\n" + block == text + "\n" + ("" + "\n" + block);
      RulesAcross(text, "" + "\n" + block);
      RulesAcross("", block);
    }
  }

  lemma BlockAddsMissing(text: string, missing: seq<string>)
    requires forall e | e in missing :: EntryShaped(e)
    ensures Rules(WithMissing(text, missing)) == Rules(text) + Required(missing)
    ensures text <= WithMissing(text, missing)
  {
    if missing != [] {
      RulesAfterSeparator(text, Block(missing));
      RulesOfBlock(missing);
      assert text + Separator(text) + Block(missing) == text + (Separator(text) + Block(missing));
    }
  }

  lemma AddsExactly(text: string, entries: seq<string>)
    requires forall e | e in entries :: EntryShaped(e)
    ensures text <= WithMissing(text, Missing(Rules(text), entries))
    ensures Rules(WithMissing(text, Missing(Rules(text), entries))) == Rules(text) + Required(entries)
  {
    MissingSplit(Rules(text), entries);
    BlockAddsMissing(text, Missing(Rules(text), entries));
  }

  /** The old text stays in front, and the rules become the old ones and the required ones. */
  lemma MergeAddsExactly(text: string)
    ensures text <= Merged(Some(text))
    ensures Rules(Merged(Some(text))) == Rules(text) + Required(ENTRIES)
  {
    EntriesShaped();
    AddsExactly(text, ENTRIES);
  }

  lemma FreshFileRules()
    ensures Rules(Merged(None)) == Required(ENTRIES)
  {
    JoinEdges(HEADER, ENTRIES);
    EntriesShaped();
    RulesOfBlock(ENTRIES);
  }

  lemma JoinEdges(first: string, mid: seq<string>)
    requires mid != []
    ensures Join([first] + mid + [""], "\n") == first + "\n" + Join(mid, "\n") + "\n"
  {
    assert ([first] + mid + [""])[1..] == mid + [""];
    JoinEnd(mid);
  }

  lemma {:induction false} JoinEnd(mid: seq<string>)
    requires mid != []
    ensures Join(mid + [""], "\n") == Join(mid, "\n") + "\n"
  {
    assert (mid + [""])[1..] == mid[1..] + [""];
    if |mid| > 1 {
      JoinEnd(mid[1..]);
    } else {
      assert mid[1..] + [""] == [""];
    }
  }

  /** A second merge changes nothing, whatever the first one found. */
  lemma MergeIdempotent(file: Option<string>)
    ensures Merged(Some(Merged(file))) == Merged(file)
  {
    match file {
      case None => FreshFileRules();
      case Some(text) => MergeAddsExactly(text);
    }
    MissingSplit(Rules(Merged(file)), ENTRIES);
  }
}
